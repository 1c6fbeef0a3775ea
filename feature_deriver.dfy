/** The BMI override of app.py:35-37 and the assembly of the model's input
    row (app.py:40-47). */
module FeatureDeriver {
  import opened Client

  /** The value the BMI widget shows before the user touches it. The source
      treats an entered BMI equal to it as "not entered". */
  const FormDefaultBmi: real := 25.0

  /** True when `r` has at most one decimal place. */
  predicate IsTenths(r: real)
  {
    (10.0 * r).Floor as real == 10.0 * r
  }

  /** The integer nearest to `10 * x`, halves going to the even neighbour:
      `round(x, 1)` of the source counts tenths this way. */
  function NearestTenths(x: real): (k: int)
    ensures -0.5 <= k as real - 10.0 * x <= 0.5
    ensures k as real - 10.0 * x == 0.5 || k as real - 10.0 * x == -0.5 ==> k % 2 == 0
  {
    var y := 10.0 * x;
    var f := y.Floor;
    if y - f as real < 0.5 then f
    else if y - f as real > 0.5 then f + 1
    else if f % 2 == 0 then f
    else f + 1
  }

  /** The contract of NearestTenths pins its result down: no other count of
      tenths is as near with ties going to even. */
  lemma NearestTenthsUnique(x: real, k: int)
    requires -0.5 <= k as real - 10.0 * x <= 0.5
    requires k as real - 10.0 * x == 0.5 || k as real - 10.0 * x == -0.5 ==> k % 2 == 0
    ensures k == NearestTenths(x)
  {
  }

  /** `round(x, 1)` over exact reals: the nearest tenth, an exact half
      going to the tenth with an even count. */
  function RoundTenths(x: real): (r: real)
    ensures IsTenths(r)
    ensures -0.05 <= r - x <= 0.05
    ensures r - x == 0.05 || r - x == -0.05 ==> (10.0 * r).Floor % 2 == 0
  {
    var k := NearestTenths(x);
    var r := k as real / 10.0;
    assert 10.0 * r == k as real;
    assert (k as real).Floor == k;
    r
  }

  /** The contract of RoundTenths determines its result. */
  lemma RoundTenthsUnique(x: real, r: real)
    requires IsTenths(r)
    requires -0.05 <= r - x <= 0.05
    requires r - x == 0.05 || r - x == -0.05 ==> (10.0 * r).Floor % 2 == 0
    ensures r == RoundTenths(x)
  {
    var k := (10.0 * r).Floor;
    assert k as real - 10.0 * x == 10.0 * (r - x);
    NearestTenthsUnique(x, k);
  }

  /** `weight / ((height / 100) ** 2)` with Python's true division. */
  function RawBmi(height: int, weight: int): real
    requires height != 0
  {
    weight as real / ((height as real / 100.0) * (height as real / 100.0))
  }

  /** The derived index of app.py:37, to one decimal place. */
  function DeriveBmi(height: int, weight: int): (r: real)
    requires height != 0
    ensures IsTenths(r)
    ensures -0.05 <= r - RawBmi(height, weight) <= 0.05
    ensures r - RawBmi(height, weight) == 0.05 || r - RawBmi(height, weight) == -0.05 ==>
              (10.0 * r).Floor % 2 == 0
  {
    RoundTenths(RawBmi(height, weight))
  }

  /** True when the source replaces the entered BMI: it equals the form
      default and both height and weight are truthy (non-zero). */
  predicate OverrideApplies(entered: real, height: int, weight: int)
  {
    entered == FormDefaultBmi && height != 0 && weight != 0
  }

  /** The BMI passed on after app.py:36-37. The guard on height keeps the
      division defined, so no input is refused. */
  function EffectiveBmi(entered: real, height: int, weight: int): (r: real)
    ensures !OverrideApplies(entered, height, weight) ==> r == entered
    ensures OverrideApplies(entered, height, weight) ==> IsTenths(r)
    ensures OverrideApplies(entered, height, weight) ==> -0.05 <= r - RawBmi(height, weight) <= 0.05
    ensures OverrideApplies(entered, height, weight) &&
            (r - RawBmi(height, weight) == 0.05 || r - RawBmi(height, weight) == -0.05) ==>
              (10.0 * r).Floor % 2 == 0
  {
    if OverrideApplies(entered, height, weight) then DeriveBmi(height, weight) else entered
  }

  /** The six-field row of app.py:40-47. */
  function ToRecord(f: FormInput): (r: ClientRecord)
    ensures r.age == f.age && r.sex == f.sex && r.children == f.children
    ensures r.smoker == f.smoker && r.region == f.region
    ensures r.bmi == EffectiveBmi(f.bmi, f.height, f.weight)
  {
    ClientRecord(f.age, f.sex, EffectiveBmi(f.bmi, f.height, f.weight), f.children, f.smoker, f.region)
  }

  /** Inside the widget ranges height and weight are never zero, so the
      truthiness guard never matters: the entered BMI survives exactly when
      it differs from the default, and the default is always replaced, even
      when the user typed 25.0 on purpose. */
  lemma DefaultAlwaysOverriddenInFormRanges(f: FormInput)
    requires WithinFormRanges(f)
    ensures f.bmi != FormDefaultBmi ==> ToRecord(f).bmi == f.bmi
    ensures f.bmi == FormDefaultBmi ==> ToRecord(f).bmi == DeriveBmi(f.height, f.weight)
  {
  }

  /** Every BMI the widgets' heights and weights can yield lies between 8.2
      and 139.0. */
  lemma {:induction false} DerivedBmiBounds(height: int, weight: int)
    requires 120 <= height <= 220 && 40 <= weight <= 200
    ensures 8.2 <= DeriveBmi(height, weight) <= 139.0
  {
    var h := height as real / 100.0;
    var sq := h * h;
    assert 1.2 <= h <= 2.2;
    assert 1.44 <= sq <= 4.84 by {
      assert 1.2 * h <= h * h <= 2.2 * h;
    }
    var raw := RawBmi(height, weight);
    assert raw == weight as real / sq;
    assert raw * sq == weight as real;
    assert raw > 0.0;
    assert raw * 1.44 <= raw * sq <= raw * 4.84;
    assert 40.0 <= raw * 4.84 && raw * 1.44 <= 200.0;
  }

  /** All-default form (height 175, weight 70, BMI left at 25.0): the row
      carries 22.9, not 25.0. */
  lemma DefaultFormYieldsDerivedBmi()
    ensures EffectiveBmi(FormDefaultBmi, 175, 70) == 22.9
  {
  }

  /** Height 200 and weight 41 give exactly 10.25, a tie: the result is
      10.2, the neighbour with an even count of tenths. */
  lemma DeriveBmiTieGoesToEven()
    ensures DeriveBmi(200, 41) == 10.2
  {
  }

  /** The derivation can leave the range the BMI widget itself enforces
      (10.0 to 60.0): height 120 and weight 200 give 138.9. */
  lemma DerivedBmiCanLeaveWidgetRange()
    ensures EffectiveBmi(FormDefaultBmi, 120, 200) == 138.9
  {
  }
}
