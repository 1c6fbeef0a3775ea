/** One form submission as app.py runs it top to bottom: the BMI override,
    the six-field row, and the tips built from that row. The model's
    prediction between them is external and not part of this module. */
module Submission {
  import opened Client
  import opened FeatureDeriver
  import opened Advisory

  /** The form as the widgets first show it (app.py:25-33): the select
      boxes start on their first option, so the default client smokes. */
  const DefaultForm: FormInput := FormInput(30, Male, 25.0, 0, Yes, Southwest, 175, 70)

  /** Builds the row (app.py:36-47) and the tips for it (app.py:85-95). The
      BMI rule sees the BMI after the override, not the one entered. */
  method Submit(f: FormInput) returns (row: ClientRecord, tips: seq<Tip>)
    ensures row == ToRecord(f)
    ensures tips == Advise(row)
    ensures tips != []
    ensures Bmi in tips <==> EffectiveBmi(f.bmi, f.height, f.weight) > 30.0
    ensures Smoking in tips <==> f.smoker == Yes
    ensures Age in tips <==> f.age < 25
    ensures Children in tips <==> f.children > 3
  {
    row := ToRecord(f);
    tips := BuildTips(row);
  }

  /** An untouched form yields BMI 22.9 and only the smoking tip. */
  lemma DefaultFormTips()
    ensures WithinFormRanges(DefaultForm)
    ensures ToRecord(DefaultForm).bmi == 22.9
    ensures Advise(ToRecord(DefaultForm)) == [Smoking]
  {
    DefaultFormYieldsDerivedBmi();
    FiredRuleOrderIsIfChain(ToRecord(DefaultForm));
  }

  /** Because the override runs first, leaving the BMI at 25.0 with height
      150 and weight 90 yields BMI 40.0 and the BMI tip, although the value
      on the form is below the threshold. */
  lemma OverriddenBmiTriggersTip()
    ensures ToRecord(FormInput(40, Female, 25.0, 0, No, Northwest, 150, 90)).bmi == 40.0
    ensures Advise(ToRecord(FormInput(40, Female, 25.0, 0, No, Northwest, 150, 90))) == [Bmi]
  {
    var raw := RawBmi(150, 90);
    assert raw == 40.0;
    assert (10.0 * raw).Floor == 400;
    assert NearestTenths(raw) == 400;
    FiredRuleOrderIsIfChain(ToRecord(FormInput(40, Female, 25.0, 0, No, Northwest, 150, 90)));
  }
}
