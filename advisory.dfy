/** The cost-reduction tips of app.py:85-95: four threshold rules checked in
    a fixed order, each appending its message when it holds, and a fallback
    message appended only when none held. */
module Advisory {
  import opened Client

  /** One message per rule, plus the "already fine" fallback. */
  datatype Tip = Smoking | Bmi | Age | Children | Fallback

  /** Position of a tip in the order the source appends them. */
  function Rank(t: Tip): nat
  {
    match t
    case Smoking => 0
    case Bmi => 1
    case Age => 2
    case Children => 3
    case Fallback => 4
  }

  /** The threshold predicate behind each rule; all comparisons are strict.
      The fallback is not a threshold rule and never fires on its own. */
  predicate Fires(t: Tip, rec: ClientRecord)
  {
    match t
    case Smoking => rec.smoker == Yes
    case Bmi => rec.bmi > 30.0
    case Age => rec.age < 25
    case Children => rec.children > 3
    case Fallback => false
  }

  /** The threshold rules in the order the source checks them. */
  const RuleOrder: seq<Tip> := [Smoking, Bmi, Age, Children]

  predicate AnyRuleFires(rec: ClientRecord)
  {
    Fires(Smoking, rec) || Fires(Bmi, rec) || Fires(Age, rec) || Fires(Children, rec)
  }

  /** Strictly increasing rank: tips in source order, none repeated. */
  predicate StrictlyRanked(s: seq<Tip>)
  {
    forall i, j :: 0 <= i < j < |s| ==> Rank(s[i]) < Rank(s[j])
  }

  /** The messages a rule table appends, checked front to back: the
      reference reading of the chain of `if ...: tips.append(...)`. */
  function Fired(rules: seq<Tip>, rec: ClientRecord): (r: seq<Tip>)
    ensures |r| <= |rules|
    ensures forall t :: t in r ==> t in rules && Fires(t, rec)
    decreases |rules|
  {
    if rules == [] then []
    else
      var last := rules[|rules| - 1];
      Fired(rules[..|rules| - 1], rec) + (if Fires(last, rec) then [last] else [])
  }

  /** A rule is reported exactly when it is in the table and holds: no rule
      suppresses another. */
  lemma {:induction false} FiredMembership(rules: seq<Tip>, rec: ClientRecord, t: Tip)
    ensures t in Fired(rules, rec) <==> t in rules && Fires(t, rec)
  {
    if rules != [] {
      var init := rules[..|rules| - 1];
      FiredMembership(init, rec, t);
      assert rules == init + [rules[|rules| - 1]];
    }
  }

  /** A table reports nothing exactly when none of its rules holds. */
  lemma {:induction false} FiredEmpty(rules: seq<Tip>, rec: ClientRecord)
    ensures Fired(rules, rec) == [] <==> forall t :: t in rules ==> !Fires(t, rec)
  {
    if rules != [] {
      var init := rules[..|rules| - 1];
      FiredEmpty(init, rec);
      assert rules == init + [rules[|rules| - 1]];
    }
  }

  /** Appending a rule to the table appends its message when it holds. */
  lemma FiredSnoc(rules: seq<Tip>, t: Tip, rec: ClientRecord)
    ensures Fired(rules + [t], rec) == Fired(rules, rec) + (if Fires(t, rec) then [t] else [])
  {
  }

  /** Reading the rule table is the source's chain of four independent
      `if` statements. */
  lemma {:induction false} FiredRuleOrderIsIfChain(rec: ClientRecord)
    ensures Fired(RuleOrder, rec)
         == (if rec.smoker == Yes then [Smoking] else [])
          + (if rec.bmi > 30.0 then [Bmi] else [])
          + (if rec.age < 25 then [Age] else [])
          + (if rec.children > 3 then [Children] else [])
  {
    assert [Smoking] == [] + [Smoking];
    FiredSnoc([], Smoking, rec);
    assert [Smoking, Bmi] == [Smoking] + [Bmi];
    FiredSnoc([Smoking], Bmi, rec);
    assert [Smoking, Bmi, Age] == [Smoking, Bmi] + [Age];
    FiredSnoc([Smoking, Bmi], Age, rec);
    assert RuleOrder == [Smoking, Bmi, Age] + [Children];
    FiredSnoc([Smoking, Bmi, Age], Children, rec);
  }

  /** A table in source order yields its messages in source order. */
  lemma {:induction false} FiredRanked(rules: seq<Tip>, rec: ClientRecord)
    requires StrictlyRanked(rules)
    ensures StrictlyRanked(Fired(rules, rec))
  {
    if rules != [] {
      var init := rules[..|rules| - 1];
      var last := rules[|rules| - 1];
      assert StrictlyRanked(init);
      FiredRanked(init, rec);
      var pre := Fired(init, rec);
      forall t | t in pre
        ensures Rank(t) < Rank(last)
      {
        var i :| 0 <= i < |init| && init[i] == t;
        assert rules[i] == t;
      }
    }
  }

  /** The tips list of app.py:85-95 as a value. */
  function Advise(rec: ClientRecord): (r: seq<Tip>)
    ensures r != []
    ensures |r| <= |RuleOrder|
  {
    var fired := Fired(RuleOrder, rec);
    if fired == [] then [Fallback] else fired
  }

  /** Each threshold tip is present exactly when its predicate holds, and the
      fallback exactly when none holds; then it is the only tip. */
  lemma AdviseMembership(rec: ClientRecord)
    ensures Smoking in Advise(rec) <==> rec.smoker == Yes
    ensures Bmi in Advise(rec) <==> rec.bmi > 30.0
    ensures Age in Advise(rec) <==> rec.age < 25
    ensures Children in Advise(rec) <==> rec.children > 3
    ensures Fallback in Advise(rec) <==> !AnyRuleFires(rec)
    ensures Fallback in Advise(rec) ==> Advise(rec) == [Fallback]
  {
    FiredMembership(RuleOrder, rec, Smoking);
    FiredMembership(RuleOrder, rec, Bmi);
    FiredMembership(RuleOrder, rec, Age);
    FiredMembership(RuleOrder, rec, Children);
    var fired := Fired(RuleOrder, rec);
    if AnyRuleFires(rec) {
      assert Smoking in fired || Bmi in fired || Age in fired || Children in fired;
    } else {
      FiredEmpty(RuleOrder, rec);
    }
  }

  /** The tips come in the order smoking, BMI, age, children (fallback
      last), with no tip twice. */
  lemma AdviseOrdered(rec: ClientRecord)
    ensures StrictlyRanked(Advise(rec))
    ensures forall i, j :: 0 <= i < j < |Advise(rec)| ==> Advise(rec)[i] != Advise(rec)[j]
  {
    FiredRanked(RuleOrder, rec);
  }

  /** app.py:85-95 step by step: start from an empty list, append for each
      rule that holds, append the fallback if the list is still empty. */
  method BuildTips(rec: ClientRecord) returns (tips: seq<Tip>)
    ensures tips == Advise(rec)
    ensures tips != [] && |tips| <= 4
    ensures Smoking in tips <==> rec.smoker == Yes
    ensures Bmi in tips <==> rec.bmi > 30.0
    ensures Age in tips <==> rec.age < 25
    ensures Children in tips <==> rec.children > 3
    ensures Fallback in tips <==> !AnyRuleFires(rec)
    ensures Fallback in tips ==> tips == [Fallback]
    ensures StrictlyRanked(tips)
  {
    tips := [];
    if rec.smoker == Yes {
      tips := tips + [Smoking];
    }
    assert tips == Fired([Smoking], rec) by {
      assert [Smoking] == [] + [Smoking];
      FiredSnoc([], Smoking, rec);
    }
    if rec.bmi > 30.0 {
      tips := tips + [Bmi];
    }
    assert tips == Fired([Smoking, Bmi], rec) by {
      assert [Smoking, Bmi] == [Smoking] + [Bmi];
      FiredSnoc([Smoking], Bmi, rec);
    }
    if rec.age < 25 {
      tips := tips + [Age];
    }
    assert tips == Fired([Smoking, Bmi, Age], rec) by {
      assert [Smoking, Bmi, Age] == [Smoking, Bmi] + [Age];
      FiredSnoc([Smoking, Bmi], Age, rec);
    }
    if rec.children > 3 {
      tips := tips + [Children];
    }
    assert tips == Fired(RuleOrder, rec) by {
      assert RuleOrder == [Smoking, Bmi, Age] + [Children];
      FiredSnoc([Smoking, Bmi, Age], Children, rec);
    }
    if tips == [] {
      tips := tips + [Fallback];
    }
    AdviseMembership(rec);
    AdviseOrdered(rec);
  }

  /** Worked cases: a smoker with nothing else gets only the smoking tip;
      BMI 32, age 22 and five children give three tips in source order;
      nothing firing gives only the fallback; and each threshold is strict,
      so BMI 30.0, age 25 and three children give the fallback. */
  lemma AdviseExamples()
    ensures Advise(ClientRecord(40, Male, 22.0, 1, Yes, Southwest)) == [Smoking]
    ensures Advise(ClientRecord(22, Female, 32.0, 5, No, Northeast)) == [Bmi, Age, Children]
    ensures Advise(ClientRecord(40, Male, 22.0, 1, No, Southeast)) == [Fallback]
    ensures Advise(ClientRecord(25, Female, 30.0, 3, No, Northwest)) == [Fallback]
  {
    FiredRuleOrderIsIfChain(ClientRecord(40, Male, 22.0, 1, Yes, Southwest));
    FiredRuleOrderIsIfChain(ClientRecord(22, Female, 32.0, 5, No, Northeast));
    FiredRuleOrderIsIfChain(ClientRecord(40, Male, 22.0, 1, No, Southeast));
    FiredRuleOrderIsIfChain(ClientRecord(25, Female, 30.0, 3, No, Northwest));
  }
}
