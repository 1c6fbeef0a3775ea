/** The values the insurance form collects (app.py:24-33) and the six-field
    row handed to the prediction model (app.py:40-47). */
module Client {

  datatype Sex = Male | Female

  /** The smoker select box offers exactly "yes" and "no". */
  datatype Smoker = Yes | No

  datatype Region = Southwest | Southeast | Northwest | Northeast

  /** Raw form values: `bmi` is the manually entered index (a float),
      `height` (cm) and `weight` (kg) are the integer inputs it may be
      derived from. */
  datatype FormInput = FormInput(
    age: int,
    sex: Sex,
    bmi: real,
    children: int,
    smoker: Smoker,
    region: Region,
    height: int,
    weight: int)

  /** The canonical single row consumed by the model and by the advisor. */
  datatype ClientRecord = ClientRecord(
    age: int,
    sex: Sex,
    bmi: real,
    children: int,
    smoker: Smoker,
    region: Region)

  /** Bounds enforced by the number-input widgets; the core logic does not
      rely on them, but some lemmas speak about inputs inside them. */
  predicate WithinFormRanges(f: FormInput)
  {
    && 18 <= f.age <= 100
    && 10.0 <= f.bmi <= 60.0
    && 0 <= f.children <= 10
    && 120 <= f.height <= 220
    && 40 <= f.weight <= 200
  }
}
