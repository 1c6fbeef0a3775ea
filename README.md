# Insurance-charge predictor: BMI override and cost-reduction tips

This project models the first-party logic of a small Streamlit form (`app.py`)
that predicts a monthly life-insurance charge with a PyCaret regression model
and then lists tips for lowering it. Two steps of that script are modelled
and proved in Dafny:

- **The BMI override** (`app.py:36-37`). The form shows a BMI field with the
  default value 25.0. When the entered BMI equals that default and both height
  and weight are truthy (non-zero), the script replaces it with
  `round(weight / ((height / 100) ** 2), 1)`. In every other case the entered
  value passes through. `FeatureDeriver` models this as pure functions over
  exact reals. Python's `round(x, 1)` is modelled as the nearest tenth with
  ties going to the even neighbour. The guard on height keeps the division
  defined, so the step never fails. The six-field row handed to the model
  (`app.py:40-47`) is `ToRecord`.
- **The tips builder** (`app.py:85-95`). It starts from an empty list and
  checks four threshold rules in a fixed order: smoker, BMI above 30, age
  below 25, more than three children. Each rule that holds appends its
  message. If the list is still empty, a fallback "already fine" message is
  appended. `Advisory.BuildTips` follows the source step by step, growing a
  sequence. It is proved equal to `Advise`, a reference reading of the same
  rules as a table (`Fired` filters the table in order). The lemmas about
  that table give the guarantees: the list is never empty; each tip is
  present exactly when its strict threshold holds; the fallback appears
  exactly when no rule holds, and then alone; tips come in source order with
  no repeats.

`Submission` puts the two steps together the way the script runs them. The
tips are built from the BMI after the override, not from the value on the
form.

The messages are modelled as an enumeration `Tip` rather than as their
literal texts. The `smoker` select box offers only `"yes"` and `"no"`, so it is
the enumeration `Smoker`. Sex and region are carried through untouched.

Two consequences of the code as written are proved rather than assumed.
Inside the widget ranges (height at least 120, weight at least 40) the
truthiness guard always holds. So an entered BMI of exactly 25.0 is always
replaced, even when the user typed it on purpose, and an untouched form
carries BMI 22.9 (from height 175 and weight 70). The derived BMI can also
leave the range 10.0–60.0 that the BMI widget itself enforces: height 120
with weight 200 gives 138.9. Which precedence the authors intended is not
evident from the code, so these are stated as properties, not as defects.

A zero height or weight is not an error: the guard `height and weight` is
false, so the division never runs and the entered BMI passes through
unchanged.

## Model

| member | source | states |
|---|---|---|
| FeatureDeriver.NearestTenths | app.py:37 | the count of tenths lies within one half of ten times the input, and an exact half goes to the even count (the tie rule of `round`) |
| FeatureDeriver.NearestTenthsUnique | app.py:37 | any count of tenths meeting that nearest-with-ties-to-even condition is the one NearestTenths returns, so the rounding is fully determined |
| FeatureDeriver.RoundTenths | app.py:37 | `round(x, 1)`: the result has at most one decimal place, lies within 0.05 of the input, and at an exact half has an even count of tenths |
| FeatureDeriver.RoundTenthsUnique | app.py:37 | any value meeting RoundTenths' three conditions is RoundTenths' result, so the contract fixes the rounded value |
| FeatureDeriver.DeriveBmi | app.py:37 | for a non-zero height the derived BMI is weight divided by the square of height in metres rounded to one decimal place: within 0.05 of it, ties to an even count of tenths |
| FeatureDeriver.EffectiveBmi | app.py:36-37 | the entered BMI passes through unchanged unless it equals 25.0 and height and weight are both non-zero; in that case the result is weight over height in metres squared, rounded to one decimal place with ties to even; no input makes it fail |
| FeatureDeriver.ToRecord | app.py:36-47 | the row carries age, sex, children, smoker and region from the form unchanged and the BMI after the override |
| FeatureDeriver.DefaultAlwaysOverriddenInFormRanges | app.py:25-37 | for inputs inside the widget ranges, the entered BMI survives exactly when it differs from 25.0, and 25.0 is always replaced by the derived value |
| FeatureDeriver.DerivedBmiBounds | app.py:32-37 | for heights 120–220 and weights 40–200 the derived BMI lies between 8.2 and 139.0 |
| FeatureDeriver.DeriveBmiTieGoesToEven | app.py:37 | height 200 and weight 41 give exactly 10.25, which rounds to 10.2 |
| FeatureDeriver.DefaultFormYieldsDerivedBmi | app.py:27-37 | an untouched form (BMI 25.0, height 175, weight 70) passes on BMI 22.9 |
| FeatureDeriver.DerivedBmiCanLeaveWidgetRange | app.py:27-37 | height 120 and weight 200 with BMI left at 25.0 pass on 138.9, outside the BMI widget's own range |
| Advisory.Fired | app.py:86-93 | the messages a rule table appends are no more than its rules, and each one belongs to a rule of the table that holds |
| Advisory.FiredMembership | app.py:86-93 | a message is reported exactly when its rule is in the table and holds: no rule suppresses another |
| Advisory.FiredEmpty | app.py:86-95 | a table reports nothing exactly when none of its rules holds |
| Advisory.FiredSnoc | app.py:86-93 | adding a rule at the end of the table appends its message exactly when it holds, as one more `if ...: tips.append(...)` does |
| Advisory.FiredRuleOrderIsIfChain | app.py:86-93 | the four-rule table reports the same list as the source's chain of four independent `if` statements |
| Advisory.FiredRanked | app.py:86-93 | a table whose rules are in source order reports its messages in source order, without repeats |
| Advisory.Advise | app.py:85-95 | the tips list is never empty and has at most four entries |
| Advisory.AdviseMembership | app.py:85-95 | the smoking tip is present iff the client smokes, the BMI tip iff BMI > 30, the age tip iff age < 25, the children tip iff children > 3 (all strict); the fallback is present iff none of these holds, and then it is the only tip |
| Advisory.AdviseOrdered | app.py:85-95 | tips appear in the order smoking, BMI, age, children, fallback, and no tip appears twice |
| Advisory.BuildTips | app.py:85-95 | the step-by-step builder returns exactly Advise's list, and so is non-empty, at most four long, has each tip iff its condition holds, has the fallback iff no rule holds and then alone, and is in source order |
| Advisory.AdviseExamples | app.py:85-95 | a smoker with nothing else gets only the smoking tip; BMI 32, age 22 and five children get the BMI, age and children tips in that order; a client meeting no threshold gets only the fallback; BMI 30.0, age 25 and three children also get only the fallback, because every comparison is strict |
| Submission.Submit | app.py:36-95 | one submission builds the row from the form and the tips from that row; the BMI tip follows the BMI after the override, the other tips follow the form's own fields, and the list is never empty |
| Submission.DefaultFormTips | app.py:25-95 | an untouched form is inside the widget ranges, passes on BMI 22.9, and gets only the smoking tip, because the smoker box starts on "yes" |
| Submission.OverriddenBmiTriggersTip | app.py:36-89 | BMI left at 25.0 with height 150 and weight 90 becomes 40.0 and triggers the BMI tip, although the value on the form is below the threshold |

## Left out

- The Streamlit page, widgets, layout, rendering and the predict button (`app.py:13-33`, `49-55`, `75-84`, `96-97`): user interface. The widget ranges are not preconditions of any operation. They appear only as `WithinFormRanges`, which some lemmas assume.
- The PyCaret calls `get_data`, `setup`, `compare_models`, `save_model`, `load_model` and `predict_model`, and the train-or-load branch on `os.path.exists` (`app.py:57-73`, `77`): calls into an external library and filesystem I/O. The predicted charge and its `float(...)` formatting (`app.py:78-79`) go with them.
- The pandas DataFrame (`app.py:40-47`): modelled only as the six-field row `ClientRecord`.
- FeatureDeriver.RoundTenths: computes over exact reals, not binary floating point. The float error of `weight / ((height / 100) ** 2)` and the rounding of a value that is only nearly a tie are not modelled.
- The tip messages' texts (Polish, with emoji): modelled as the enumeration `Tip`.
