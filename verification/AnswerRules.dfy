/** Conditional answer rules: the latest triggered rule decides what a later question must or must not choose. */
module AnswerRules {
  import opened Wrappers
  import opened Sums
  import opened Sorting
  import SurveyLogic

  const MUST_SELECT := "must_select"

  datatype AnswerRule = AnswerRule(
    conditionNum: int, conditionRow: Option<int>, conditionMode: string, conditionOptions: seq<int>,
    targetNum: int, targetRow: Option<int>, actionMode: string, targetOptions: seq<int>)

  /** What was answered to a question; matrix questions by row. */
  datatype Record = Record(selected: seq<int>, rows: map<int, seq<int>>)

  function AsSet(xs: seq<int>): (s: set<int>)
    ensures forall x :: x in s <==> x in xs
  {
    set x | x in xs
  }

  function ChosenFor(rule: AnswerRule, record: Record): seq<int> {
    match rule.conditionRow
    case None => record.selected
    case Some(row) => if row in record.rows then record.rows[row] else []
  }

  predicate Triggered(rule: AnswerRule, answered: map<int, Record>) {
    && rule.conditionNum < rule.targetNum
    && rule.conditionNum in answered
    && rule.conditionOptions != []
    && var chosen, wanted := AsSet(ChosenFor(rule, answered[rule.conditionNum])), AsSet(rule.conditionOptions);
       if rule.conditionMode == SurveyLogic.SELECTED then chosen * wanted != {}
       else rule.conditionMode == SurveyLogic.NOT_SELECTED && chosen * wanted == {}
  }

  predicate Applies(rule: AnswerRule, answered: map<int, Record>, num: int, row: Option<int>) {
    rule.targetNum == num && rule.targetRow == row && Triggered(rule, answered)
  }

  /** The record, or the row of it that the rule looks at, holds option i. */
  predicate Holds(record: Record, row: Option<int>, i: int) {
    match row
    case None => i in record.selected
    case Some(r) => r in record.rows && i in record.rows[r]
  }

  /** When a rule applies: it is about this question and row, looks back at an answered question, and one of its
      options was chosen there in "selected" mode, or it names options and none was in "not_selected" mode. */
  lemma AppliesIff(rule: AnswerRule, answered: map<int, Record>, num: int, row: Option<int>)
    ensures Applies(rule, answered, num, row) <==>
      && rule.targetNum == num && rule.targetRow == row && rule.conditionNum < num && rule.conditionNum in answered
      && (|| (rule.conditionMode == "selected"
              && exists i :: i in rule.conditionOptions && Holds(answered[rule.conditionNum], rule.conditionRow, i))
          || (rule.conditionMode == "not_selected" && rule.conditionOptions != []
              && forall i :: i in rule.conditionOptions ==> !Holds(answered[rule.conditionNum], rule.conditionRow, i)))
  {
    if rule.conditionNum in answered {
      var record := answered[rule.conditionNum];
      var chosen, wanted := AsSet(ChosenFor(rule, record)), AsSet(rule.conditionOptions);
      assert forall i :: i in chosen <==> Holds(record, rule.conditionRow, i);
      hide AsSet, ChosenFor, Holds;
      assert forall i :: i in chosen * wanted <==> i in chosen && i in wanted;
      if chosen * wanted != {} {
        var i := Member(chosen * wanted);
      }
    }
  }

  method PickLatestTriggered(rules: seq<AnswerRule>, answered: map<int, Record>, num: int, row: Option<int>)
    returns (picked: Option<AnswerRule>)
    ensures picked == Latest(rules, answered, num, row)
  {
    picked := None;
    for k := 0 to |rules|
      invariant picked == Latest(rules[..k], answered, num, row)
    {
      assert rules[..k + 1][..k] == rules[..k];
      if rules[k].targetNum == num && rules[k].targetRow == row && Triggered(rules[k], answered) {
        picked := Some(rules[k]);
      }
    }
    assert rules[..|rules|] == rules;
  }

  function Latest(rules: seq<AnswerRule>, answered: map<int, Record>, num: int, row: Option<int>): Option<AnswerRule> {
    if |rules| == 0 then None
    else if Applies(rules[|rules| - 1], answered, num, row) then Some(rules[|rules| - 1])
    else Latest(rules[..|rules| - 1], answered, num, row)
  }

  /** The picked rule is the last one in the list that applies; none is picked exactly when none applies. */
  lemma {:induction false} LatestIsLast(rules: seq<AnswerRule>, answered: map<int, Record>, num: int, row: Option<int>, rule: AnswerRule)
    ensures Latest(rules, answered, num, row) == Some(rule) <==>
            exists i :: 0 <= i < |rules| && rules[i] == rule && Applies(rules[i], answered, num, row)
                        && forall j :: i < j < |rules| ==> !Applies(rules[j], answered, num, row)
    ensures Latest(rules, answered, num, row) == None <==> forall i :: 0 <= i < |rules| ==> !Applies(rules[i], answered, num, row)
  {
    if |rules| > 0 {
      var n := |rules| - 1;
      LatestIsLast(rules[..n], answered, num, row, rule);
      hide Applies;
      assert forall i :: 0 <= i < n ==> rules[..n][i] == rules[i];
      assert Applies(rules[n], answered, num, row) ==> Latest(rules, answered, num, row) == Some(rules[n]);
    }
  }

  function ValidTargets(rule: AnswerRule, optionCount: int): (s: set<int>)
    ensures forall i :: i in s <==> i in rule.targetOptions && 0 <= i < optionCount
  {
    set i | i in rule.targetOptions && 0 <= i < optionCount
  }

  datatype Constraint = Constraint(must: set<int>, mustNot: set<int>)

  function ConstraintOf(rule: Option<AnswerRule>, optionCount: int): Constraint {
    if rule.None? then Constraint({}, {})
    else
      var valid := ValidTargets(rule.value, optionCount);
      if valid == {} then Constraint({}, {})
      else if rule.value.actionMode == MUST_SELECT then Constraint(valid, {})
      else Constraint({}, valid)
  }

  method GetMultipleRuleConstraint(rules: seq<AnswerRule>, answered: map<int, Record>, num: int, optionCount: int)
    returns (c: Constraint)
    ensures c == ConstraintOf(Latest(rules, answered, num, None), optionCount)
  {
    var rule := PickLatestTriggered(rules, answered, num, None);
    c := ConstraintOf(rule, optionCount);
  }

  /** A constraint demands, or forbids, exactly the options in range that the rule names; never both. */
  lemma ConstraintIsOneSided(rule: Option<AnswerRule>, optionCount: int)
    ensures
      var c := ConstraintOf(rule, optionCount);
      && (c.must == {} || c.mustNot == {})
      && (forall i :: i in c.must <==>
            rule.Some? && rule.value.actionMode == "must_select" && i in rule.value.targetOptions && 0 <= i < optionCount)
      && (forall i :: i in c.mustNot <==>
            rule.Some? && rule.value.actionMode != "must_select" && i in rule.value.targetOptions && 0 <= i < optionCount)
  {
    if rule.Some? {
      var valid := ValidTargets(rule.value, optionCount);
      assert forall i :: i in valid <==> i in rule.value.targetOptions && 0 <= i < optionCount;
    }
  }

  // ---- rules over single choices ----

  function Masked(weights: seq<real>, rule: AnswerRule): (r: seq<real>)
    ensures |r| == |weights|
    ensures forall i {:trigger r[i]} :: 0 <= i < |weights| ==>
              r[i] == if (i in ValidTargets(rule, |weights|)) == (rule.actionMode == MUST_SELECT) then weights[i] else 0.0
  {
    var valid := ValidTargets(rule, |weights|);
    seq(|weights|, i requires 0 <= i < |weights| => if (i in valid) == (rule.actionMode == MUST_SELECT) then weights[i] else 0.0)
  }

  function ApplyRule(weights: seq<real>, rule: AnswerRule): (r: seq<real>)
    ensures |r| == |weights|
  {
    if ValidTargets(rule, |weights|) == {} || Sum(Masked(weights, rule)) <= 0.0 then weights else Masked(weights, rule)
  }

  /** The rule permits option i. */
  predicate Permits(rule: AnswerRule, i: int) {
    if rule.actionMode == "must_select" then i in rule.targetOptions else i !in rule.targetOptions
  }

  /** A rule takes effect exactly when it names an option in range and permits one with positive weight; then
      it silences exactly the options it does not permit. Otherwise the weights stay as they are. */
  lemma RuleTakesEffectIff(weights: seq<real>, rule: AnswerRule)
    requires forall i :: 0 <= i < |weights| ==> weights[i] >= 0.0
    ensures
      var effect := && (exists i :: 0 <= i < |weights| && i in rule.targetOptions)
                    && exists i :: 0 <= i < |weights| && Permits(rule, i) && weights[i] > 0.0;
      forall i :: 0 <= i < |weights| ==>
        ApplyRule(weights, rule)[i] == if effect && !Permits(rule, i) then 0.0 else weights[i]
  {
    var m := Masked(weights, rule);
    SumNonneg(m);
    SumZeroIff(m);
    var valid := ValidTargets(rule, |weights|);
    if valid != {} {
      var i := Member(valid);
    }
    if i :| 0 <= i < |weights| && i in rule.targetOptions {
      assert i in valid;
    }
    hide Sum, ValidTargets;
    assert forall i :: 0 <= i < |weights| ==> m[i] == if Permits(rule, i) then weights[i] else 0.0;
    if i :| 0 <= i < |weights| && Permits(rule, i) && weights[i] > 0.0 {
      assert m[i] > 0.0;
    } else {
      assert forall i :: 0 <= i < |weights| ==> m[i] == 0.0;
    }
  }
}
