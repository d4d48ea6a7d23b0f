/** Display and jump logic of a survey: the static check that accepts or rejects the parsed rules,
    and the single forward pass that interprets them while questions are answered. */
module SurveyLogic {
  import opened Wrappers
  import opened Sorting

  const SELECTED := "selected"
  const NOT_SELECTED := "not_selected"

  datatype LogicStatus = Complete | Unknown | OtherStatus

  /** Entries of the parsed rule lists. A list may hold something that is not a record at all;
      numbers that could not be read are 0, as the readers of these records assume. */
  datatype Condition = MalformedCondition | Condition(source: int, mode: string, options: seq<int>)

  datatype Control = MalformedControl | Control(target: int, mode: string, options: seq<int>)

  /** `flag` is the explicit termination mark; without one the option's wording decides (`wordedAsEnd`). */
  datatype JumpRule = MalformedRule | JumpRule(jumpto: int, option: int, flag: Option<bool>, wordedAsEnd: bool) {
    predicate Terminates() {
      JumpRule? && if flag.Some? then flag.value else wordedAsEnd
    }
  }

  datatype Question = Question(
    num: int, page: int, hasJump: bool, hasDisplay: bool, hasDependent: bool, status: LogicStatus,
    conditions: seq<Condition>, controls: seq<Control>, rules: seq<JumpRule>)

  datatype Action = Action(matrix: bool, selected: seq<int>, matrixIndices: seq<int>)

  // ---- order ----

  function PageOf(q: Question): int {
    if q.page == 0 then 1 else q.page
  }

  predicate PageThenNumber(a: Question, b: Question) {
    PageOf(a) < PageOf(b) || (PageOf(a) == PageOf(b) && a.num <= b.num)
  }

  function Numbered(qs: seq<Question>): (r: seq<Question>)
    ensures forall q :: q in r ==> q.num > 0
  {
    if |qs| == 0 then []
    else Numbered(qs[..|qs| - 1]) + if qs[|qs| - 1].num > 0 then [qs[|qs| - 1]] else []
  }

  function Ordered(qs: seq<Question>): seq<Question> {
    Sort(PageThenNumber, Numbered(qs))
  }

  lemma {:induction false} NumberedFixed(qs: seq<Question>)
    requires forall q :: q in qs ==> q.num > 0
    ensures Numbered(qs) == qs
  {
    if |qs| > 0 {
      NumberedFixed(qs[..|qs| - 1]);
      assert qs == qs[..|qs| - 1] + [qs[|qs| - 1]];
    }
  }

  lemma OrderedPositive(qs: seq<Question>)
    ensures SortedBy(PageThenNumber, Ordered(qs))
    ensures forall q :: q in Ordered(qs) ==> q.num > 0
  {
    SortSorts(PageThenNumber, Numbered(qs));
    SameElements(Ordered(qs), Numbered(qs));
  }

  lemma {:induction false} NumberedCounts(qs: seq<Question>)
    ensures forall q :: multiset(Numbered(qs))[q] == if q.num > 0 then multiset(qs)[q] else 0
  {
    if |qs| > 0 {
      NumberedCounts(qs[..|qs| - 1]);
      assert qs == qs[..|qs| - 1] + [qs[|qs| - 1]];
    }
  }

  /** The page a question stands on; page zero counts as the first. */
  function StandsOn(q: Question): int {
    if q.page != 0 then q.page else 1
  }

  /** The ordered questions are those with positive numbers, each as often as given, by page and then by number. */
  lemma OrderedIs(qs: seq<Question>)
    ensures forall q :: multiset(Ordered(qs))[q] == if q.num > 0 then multiset(qs)[q] else 0
    ensures forall i, j :: 0 <= i < j < |Ordered(qs)| ==>
              var a, b := Ordered(qs)[i], Ordered(qs)[j];
              StandsOn(a) < StandsOn(b) || (StandsOn(a) == StandsOn(b) && a.num <= b.num)
  {
    SortSorts(PageThenNumber, Numbered(qs));
    NumberedCounts(qs);
    hide Numbered;
    forall i, j | 0 <= i < j < |Ordered(qs)| ensures PageThenNumber(Ordered(qs)[i], Ordered(qs)[j]) {
    }
  }

  /** Ordering twice is ordering once, so the check sees the list the pass walks over. */
  lemma OrderedTwice(qs: seq<Question>)
    ensures Ordered(Ordered(qs)) == Ordered(qs)
  {
    OrderedPositive(qs);
    NumberedFixed(Ordered(qs));
    SortedFixed(PageThenNumber, Ordered(qs));
  }

  function MaxNumber(qs: seq<Question>): int {
    if |qs| == 0 then 0
    else if |qs| == 1 then qs[0].num
    else
      var m := MaxNumber(qs[..|qs| - 1]);
      if qs[|qs| - 1].num > m then qs[|qs| - 1].num else m
  }

  // ---- the static check ----

  predicate HasLogic(q: Question) {
    q.hasJump || q.hasDisplay || q.hasDependent
  }

  predicate CompleteEnough(q: Question) {
    || q.status.Complete?
    || (q.status.Unknown?
        && (q.hasJump ==> |q.rules| > 0)
        && (q.hasDisplay ==> |q.conditions| > 0)
        && (q.hasDependent ==> |q.controls| > 0))
  }

  predicate SupportedMode(mode: string) {
    mode == SELECTED || mode == NOT_SELECTED
  }

  datatype Reason =
    | Accepted
    | Incomplete(num: int)
    | ConditionFormat(num: int) | ConditionSource(num: int) | ConditionFuture(num: int) | ConditionMode(num: int, mode: string)
    | ControlFormat(num: int) | ControlBackwards(num: int) | ControlMode(num: int, mode: string)
    | RuleFormat(num: int) | JumpBackwards(num: int) | JumpTooFar(num: int)

  function ConditionReason(num: int, c: Condition): Reason {
    if c.MalformedCondition? then ConditionFormat(num)
    else if c.source <= 0 then ConditionSource(num)
    else if c.source >= num then ConditionFuture(num)
    else if !SupportedMode(c.mode) then ConditionMode(num, c.mode)
    else Accepted
  }

  function ControlReason(num: int, t: Control): Reason {
    if t.MalformedControl? then ControlFormat(num)
    else if t.target <= num then ControlBackwards(num)
    else if !SupportedMode(t.mode) then ControlMode(num, t.mode)
    else Accepted
  }

  function RuleReason(num: int, r: JumpRule, max: int): Reason {
    if r.MalformedRule? then RuleFormat(num)
    else if r.Terminates() then Accepted
    else if r.jumpto <= num then JumpBackwards(num)
    else if max > 0 && r.jumpto > max + 1 then JumpTooFar(num)
    else Accepted
  }

  /** The first objection to an element of a list, if there is one. */
  function FirstOf<T>(xs: seq<T>, judge: T -> Reason): Reason {
    if |xs| == 0 then Accepted else if judge(xs[0]) != Accepted then judge(xs[0]) else FirstOf(xs[1..], judge)
  }

  function QuestionReason(q: Question, max: int): Reason {
    if q.num <= 0 || !HasLogic(q) then Accepted
    else if !CompleteEnough(q) then Incomplete(q.num)
    else
      var c := FirstOf(q.conditions, c => ConditionReason(q.num, c));
      var t := FirstOf(q.controls, t => ControlReason(q.num, t));
      if c != Accepted then c
      else if t != Accepted then t
      else FirstOf(q.rules, r => RuleReason(q.num, r, max))
  }

  function FallbackReason(questions: seq<Question>): Reason {
    var qs := Ordered(questions);
    var max := MaxNumber(qs);
    FirstOf(qs, q => QuestionReason(q, max))
  }

  /** The rule is marked as ending the survey, or unmarked and worded so. */
  predicate MarkedAsEnd(r: JumpRule) {
    r.JumpRule? && (r.flag == Some(true) || (r.flag.None? && r.wordedAsEnd))
  }

  /** What the check demands of one question with logic. */
  ghost predicate RulesFit(q: Question, max: int) {
    && (|| q.status == Complete
        || (q.status == Unknown && (q.hasJump ==> q.rules != []) && (q.hasDisplay ==> q.conditions != [])
            && (q.hasDependent ==> q.controls != [])))
    && (forall c :: c in q.conditions ==> c.Condition? && 0 < c.source < q.num && c.mode in {"selected", "not_selected"})
    && (forall t :: t in q.controls ==> t.Control? && q.num < t.target && t.mode in {"selected", "not_selected"})
    && (forall r :: r in q.rules ==> r.JumpRule? && (MarkedAsEnd(r) || q.num < r.jumpto <= max + 1))
  }

  lemma {:induction false} FirstAccepts<T>(xs: seq<T>, judge: T -> Reason)
    ensures FirstOf(xs, judge) == Accepted <==> forall x :: x in xs ==> judge(x) == Accepted
  {
    if |xs| > 0 {
      FirstAccepts(xs[1..], judge);
      assert forall x :: x in xs <==> x == xs[0] || x in xs[1..];
    }
  }

  lemma {:induction false} MaxNumberBounds(qs: seq<Question>)
    ensures forall q :: q in qs ==> q.num <= MaxNumber(qs)
  {
    if |qs| > 0 {
      MaxNumberBounds(qs[..|qs| - 1]);
    }
  }

  lemma QuestionAcceptedIff(q: Question, max: int)
    requires 0 < q.num <= max && HasLogic(q)
    ensures QuestionReason(q, max) == Accepted <==> RulesFit(q, max)
  {
    FirstAccepts(q.conditions, c => ConditionReason(q.num, c));
    FirstAccepts(q.controls, t => ControlReason(q.num, t));
    FirstAccepts(q.rules, r => RuleReason(q.num, r, max));
    CompleteIff(q);
    hide FirstOf, CompleteEnough;
  }

  lemma CompleteIff(q: Question)
    ensures CompleteEnough(q) <==>
      || q.status == Complete
      || (q.status == Unknown && (q.hasJump ==> q.rules != []) && (q.hasDisplay ==> q.conditions != [])
          && (q.hasDependent ==> q.controls != []))
  {
  }

  /** A survey is accepted exactly when every numbered question with logic is parsed completely enough,
      depends only on earlier numbers, controls only later ones, and jumps forward within the survey. */
  lemma AcceptedIff(questions: seq<Question>)
    ensures FallbackReason(questions) == Accepted <==>
            forall q :: q in Ordered(questions) && (q.hasJump || q.hasDisplay || q.hasDependent) ==>
              RulesFit(q, MaxNumber(Ordered(questions)))
  {
    var qs := Ordered(questions);
    var max := MaxNumber(qs);
    OrderedPositive(questions);
    MaxNumberBounds(qs);
    FirstAccepts(qs, q => QuestionReason(q, max));
    hide Ordered, RulesFit, FirstOf, MaxNumber, QuestionReason;
    forall q | q in qs ensures QuestionReason(q, max) == Accepted <==> (HasLogic(q) ==> RulesFit(q, max)) {
      QuestionAccepted(q, max);
    }
  }

  lemma NoLogicAccepted(q: Question, max: int)
    requires !HasLogic(q)
    ensures QuestionReason(q, max) == Accepted
  {
  }

  /** What a reason says of a question. */
  ghost predicate Describes(reason: Reason, q: Question, max: int) {
    match reason
    case Accepted => false
    case Incomplete(_) =>
      q.status != Complete && (q.status == Unknown ==> (q.hasJump && q.rules == []) || (q.hasDisplay && q.conditions == [])
                                                       || (q.hasDependent && q.controls == []))
    case ConditionFormat(_) => MalformedCondition in q.conditions
    case ConditionSource(_) => exists c :: c in q.conditions && c.Condition? && c.source <= 0
    case ConditionFuture(_) => exists c :: c in q.conditions && c.Condition? && c.source >= q.num
    case ConditionMode(_, mode) => exists c :: c in q.conditions && c.Condition? && c.mode == mode && mode !in {"selected", "not_selected"}
    case ControlFormat(_) => MalformedControl in q.controls
    case ControlBackwards(_) => exists t :: t in q.controls && t.Control? && t.target <= q.num
    case ControlMode(_, mode) => exists t :: t in q.controls && t.Control? && t.mode == mode && mode !in {"selected", "not_selected"}
    case RuleFormat(_) => MalformedRule in q.rules
    case JumpBackwards(_) => exists r :: r in q.rules && r.JumpRule? && !MarkedAsEnd(r) && r.jumpto <= q.num
    case JumpTooFar(_) => exists r :: r in q.rules && r.JumpRule? && !MarkedAsEnd(r) && r.jumpto > max + 1
  }

  /** A rejected survey is rejected for the first ordered question with logic that does not fit, and the reason names it
      and says what is wrong with it. */
  lemma RejectedAtFirst(questions: seq<Question>) returns (i: nat)
    requires FallbackReason(questions) != Accepted
    ensures
      var qs, max := Ordered(questions), MaxNumber(Ordered(questions));
      && i < |qs| && (qs[i].hasJump || qs[i].hasDisplay || qs[i].hasDependent) && !RulesFit(qs[i], max)
      && (forall j :: 0 <= j < i && (qs[j].hasJump || qs[j].hasDisplay || qs[j].hasDependent) ==> RulesFit(qs[j], max))
      && FallbackReason(questions).num == qs[i].num && Describes(FallbackReason(questions), qs[i], max)
  {
    var qs := Ordered(questions);
    var max := MaxNumber(qs);
    OrderedPositive(questions);
    MaxNumberBounds(qs);
    i := FirstObjection(qs, q => QuestionReason(q, max));
    hide Ordered, FirstOf, MaxNumber;
    forall j | 0 <= j <= i ensures QuestionReason(qs[j], max) == Accepted <==> (HasLogic(qs[j]) ==> RulesFit(qs[j], max)) {
      assert qs[j] in qs;
      QuestionAccepted(qs[j], max);
    }
    ReasonNames(qs[i], max);
    ReasonDescribes(qs[i], max);
  }

  lemma {:induction false} FirstObjection<T>(xs: seq<T>, judge: T -> Reason) returns (i: nat)
    requires FirstOf(xs, judge) != Accepted
    ensures i < |xs| && judge(xs[i]) == FirstOf(xs, judge) && forall j :: 0 <= j < i ==> judge(xs[j]) == Accepted
  {
    if judge(xs[0]) != Accepted {
      i := 0;
    } else {
      i := FirstObjection(xs[1..], judge);
      i := i + 1;
    }
  }

  lemma QuestionAccepted(q: Question, max: int)
    requires 0 < q.num <= max
    ensures QuestionReason(q, max) == Accepted <==> (HasLogic(q) ==> RulesFit(q, max))
  {
    if HasLogic(q) {
      QuestionAcceptedIff(q, max);
    } else {
      NoLogicAccepted(q, max);
    }
  }

  lemma ReasonDescribes(q: Question, max: int)
    requires QuestionReason(q, max) != Accepted
    ensures Describes(QuestionReason(q, max), q, max)
  {
    CompleteIff(q);
    hide CompleteEnough;
    if CompleteEnough(q) {
      if FirstOf(q.conditions, c => ConditionReason(q.num, c)) != Accepted {
        var i := FirstObjection(q.conditions, c => ConditionReason(q.num, c));
        assert q.conditions[i] in q.conditions;
      } else if FirstOf(q.controls, t => ControlReason(q.num, t)) != Accepted {
        var i := FirstObjection(q.controls, t => ControlReason(q.num, t));
        assert q.controls[i] in q.controls;
      } else {
        var i := FirstObjection(q.rules, r => RuleReason(q.num, r, max));
        assert q.rules[i] in q.rules;
      }
    }
  }

  lemma ReasonNames(q: Question, max: int)
    requires QuestionReason(q, max) != Accepted
    ensures QuestionReason(q, max).num == q.num
  {
    FirstNames(q.conditions, c => ConditionReason(q.num, c), q.num);
    FirstNames(q.controls, t => ControlReason(q.num, t), q.num);
    FirstNames(q.rules, r => RuleReason(q.num, r, max), q.num);
  }

  lemma {:induction false} FirstNames<T>(xs: seq<T>, judge: T -> Reason, num: int)
    requires forall x :: judge(x) == Accepted || judge(x).num == num
    ensures FirstOf(xs, judge) == Accepted || FirstOf(xs, judge).num == num
  {
    if |xs| > 0 {
      FirstNames(xs[1..], judge, num);
    }
  }

  // ---- visibility ----

  function SelectedIndices(a: Action): set<int> {
    var indices := if a.matrix then a.matrixIndices else a.selected;
    set i | i in indices && i >= 0
  }

  predicate ConditionIsMet(given: map<int, Action>, c: Condition) {
    && c.Condition? && c.source > 0 && c.source in given
    && var wanted := set i | i in c.options && i >= 0;
       var chosen := SelectedIndices(given[c.source]);
       if wanted == {} then c.mode == SELECTED
       else if c.mode == SELECTED then chosen * wanted != {}
       else c.mode == NOT_SELECTED && chosen * wanted == {}
  }

  predicate Usable(c: Condition) {
    c.Condition? && c.source > 0
  }

  /** Conditions that share source and mode are alternatives. */
  predicate GroupIsMet(q: Question, given: map<int, Action>, c: Condition)
    requires Usable(c)
  {
    exists d :: d in q.conditions && Usable(d) && d.source == c.source && d.mode == c.mode && ConditionIsMet(given, d)
  }

  /** Every group of alternatives must be met. */
  predicate Visible(q: Question, given: map<int, Action>) {
    if forall c :: c in q.conditions ==> !Usable(c) then !q.hasDisplay
    else forall c :: c in q.conditions && Usable(c) ==> GroupIsMet(q, given, c)
  }

  /** The answer chooses option i: in its matrix list for a matrix answer, in its selected list otherwise. */
  predicate Chooses(a: Action, i: int) {
    i >= 0 && if a.matrix then i in a.matrixIndices else i in a.selected
  }

  /** The condition holds of an answer: "selected" finds one of its options chosen, or names none; "not_selected"
      names some and finds none chosen. */
  ghost predicate HoldsOf(c: Condition, a: Action)
    requires c.Condition?
  {
    || (c.mode == "selected" && ((forall i :: i in c.options ==> i < 0) || exists i :: i in c.options && Chooses(a, i)))
    || (c.mode == "not_selected" && (exists i :: i in c.options && i >= 0) && forall i :: i in c.options ==> !Chooses(a, i))
  }

  lemma MetIff(given: map<int, Action>, c: Condition)
    requires c.Condition? && c.source > 0
    ensures ConditionIsMet(given, c) <==> c.source in given && HoldsOf(c, given[c.source])
  {
    if c.source in given {
      var wanted := set i | i in c.options && i >= 0;
      var chosen := SelectedIndices(given[c.source]);
      assert forall i :: i in chosen <==> Chooses(given[c.source], i);
      assert forall i :: i in wanted <==> i in c.options && i >= 0;
      if chosen * wanted != {} {
        assert exists i :: i in chosen * wanted;
      }
      if i :| i in c.options && Chooses(given[c.source], i) {
        assert i in chosen * wanted;
      }
      if i :| i in c.options && i >= 0 {
        assert i in wanted;
      }
    }
  }

  /** When a question is shown: without usable conditions, when it has no display flag; otherwise, when every usable
      condition has an alternative of the same source and mode whose source is answered and which holds of the answer. */
  lemma VisibleIff(q: Question, given: map<int, Action>)
    ensures (forall c :: c in q.conditions ==> !(c.Condition? && c.source > 0)) ==> (Visible(q, given) <==> !q.hasDisplay)
    ensures (exists c :: c in q.conditions && c.Condition? && c.source > 0) ==>
      (Visible(q, given) <==>
        forall c :: c in q.conditions && c.Condition? && c.source > 0 ==>
          exists d :: d in q.conditions && d.Condition? && d.source == c.source && d.mode == c.mode
                      && d.source in given && HoldsOf(d, given[d.source]))
  {
    forall d | d in q.conditions && d.Condition? && d.source > 0
      ensures ConditionIsMet(given, d) <==> d.source in given && HoldsOf(d, given[d.source])
    {
      MetIff(given, d);
    }
    hide ConditionIsMet, HoldsOf;
    forall c | c in q.conditions && c.Condition? && c.source > 0
      ensures GroupIsMet(q, given, c) <==>
        exists d :: d in q.conditions && d.Condition? && d.source == c.source && d.mode == c.mode
                    && d.source in given && HoldsOf(d, given[d.source])
    {
    }
    hide GroupIsMet;
  }

  // ---- jumps ----

  /** A rule that the pass looks at: well formed and with a positive target. */
  predicate Live(r: JumpRule) {
    r.JumpRule? && r.jumpto > 0
  }

  /** The rule names a chosen option. */
  predicate Matches(r: JumpRule, chosen: set<int>) {
    r.JumpRule? && r.option >= 0 && r.option in chosen
  }

  predicate Unconditional(r: JumpRule) {
    r.JumpRule? && r.option < 0
  }

  /** The position of the rule that decides: the first live rule naming a chosen option, else the first
      live unconditional rule. */
  ghost predicate Decides(rules: seq<JumpRule>, chosen: set<int>, i: nat) {
    && i < |rules| && Live(rules[i])
    && (|| (Matches(rules[i], chosen) && forall j :: 0 <= j < i && Live(rules[j]) ==> !Matches(rules[j], chosen))
        || (Unconditional(rules[i])
            && (forall j :: 0 <= j < i && Live(rules[j]) ==> !Unconditional(rules[j]))
            && (forall j :: 0 <= j < |rules| && Live(rules[j]) ==> !Matches(rules[j], chosen))))
  }

  function FirstMatch(rules: seq<JumpRule>, chosen: set<int>, from: nat): (r: Option<nat>)
    requires from <= |rules|
    ensures r.Some? ==> from <= r.value < |rules| && Live(rules[r.value]) && Matches(rules[r.value], chosen)
    ensures forall j :: from <= j < (if r.Some? then r.value else |rules|) && Live(rules[j]) ==> !Matches(rules[j], chosen)
    decreases |rules| - from
  {
    if from == |rules| then None
    else if Live(rules[from]) && Matches(rules[from], chosen) then Some(from)
    else FirstMatch(rules, chosen, from + 1)
  }

  function FirstUnconditional(rules: seq<JumpRule>, from: nat): (r: Option<nat>)
    requires from <= |rules|
    ensures r.Some? ==> from <= r.value < |rules| && Live(rules[r.value]) && Unconditional(rules[r.value])
    ensures forall j :: from <= j < (if r.Some? then r.value else |rules|) && Live(rules[j]) ==> !Unconditional(rules[j])
    decreases |rules| - from
  {
    if from == |rules| then None
    else if Live(rules[from]) && Unconditional(rules[from]) then Some(from)
    else FirstUnconditional(rules, from + 1)
  }

  function DecidingRule(rules: seq<JumpRule>, chosen: set<int>): Option<nat> {
    var m := FirstMatch(rules, chosen, 0);
    if m.Some? then m else FirstUnconditional(rules, 0)
  }

  /** Option rules beat unconditional ones and the first match wins. */
  lemma DecidingRuleDecides(rules: seq<JumpRule>, chosen: set<int>, i: nat)
    ensures DecidingRule(rules, chosen) == Some(i) <==> Decides(rules, chosen, i)
  {
  }

  datatype Jump = NoJump | JumpTo(target: int, terminates: bool)

  function ResolvedJump(rules: seq<JumpRule>, chosen: set<int>): Jump {
    match DecidingRule(rules, chosen)
    case None => NoJump
    case Some(i) => JumpTo(rules[i].jumpto, rules[i].Terminates())
  }

  method ResolveJumpTarget(q: Question, a: Action) returns (jump: Jump)
    ensures jump == ResolvedJump(q.rules, SelectedIndices(a))
    ensures jump.JumpTo? ==> jump.target > 0
  {
    var chosen := SelectedIndices(a);
    var fallback := NoJump;
    var k := 0;
    while k < |q.rules|
      invariant k <= |q.rules|
      invariant FirstMatch(q.rules, chosen, 0) == FirstMatch(q.rules, chosen, k)
      invariant fallback == NoJump ==> FirstUnconditional(q.rules, 0) == FirstUnconditional(q.rules, k)
      invariant fallback.JumpTo? ==>
                  var u := FirstUnconditional(q.rules, 0);
                  u.Some? && fallback == JumpTo(q.rules[u.value].jumpto, q.rules[u.value].Terminates()) && fallback.target > 0
    {
      var r := q.rules[k];
      if r.JumpRule? && r.jumpto > 0 {
        if r.option < 0 {
          if fallback == NoJump {
            fallback := JumpTo(r.jumpto, r.Terminates());
          }
        } else if r.option in chosen {
          return JumpTo(r.jumpto, r.Terminates());
        }
      }
      k := k + 1;
    }
    return fallback;
  }

  /** In an accepted survey the first rule naming a chosen option is acted on, except exactly when it is a
      terminating rule without a positive target: that one never fires. */
  lemma FirstMatchFiresIff(q: Question, max: int, chosen: set<int>, i: nat)
    requires q.num > 0 && RulesFit(q, max)
    requires i < |q.rules| && Matches(q.rules[i], chosen)
    requires forall j :: 0 <= j < i ==> !Matches(q.rules[j], chosen)
    ensures DecidingRule(q.rules, chosen) == Some(i) <==> !(MarkedAsEnd(q.rules[i]) && q.rules[i].jumpto <= 0)
  {
    assert q.rules[i] in q.rules;
    DecidingRuleDecides(q.rules, chosen, i);
  }

  /** Whatever jumpto of zero or less a page writes next to the mark, such as -1: an accepted survey whose chosen
      option is marked as ending the survey, and which goes on all the same. */
  lemma TerminationWithoutTargetIsIgnored(jumpto: int) returns (q: Question, a: Action)
    requires jumpto <= 0
    ensures FallbackReason([q]) == Accepted
    ensures |q.rules| == 1 && q.rules[0].JumpRule? && q.rules[0].jumpto == jumpto
    ensures MarkedAsEnd(q.rules[0]) && Matches(q.rules[0], SelectedIndices(a))
    ensures ResolvedJump(q.rules, SelectedIndices(a)) == NoJump
  {
    q := Question(1, 1, true, false, false, Complete, [], [], [JumpRule(jumpto, 0, Some(true), false)]);
    a := Action(false, [0], []);
    OneQuestion(q);
    assert RulesFit(q, 1);
    AcceptedIff([q]);
    hide Ordered, Decides, FallbackReason, RulesFit, QuestionReason;
    assert 0 in SelectedIndices(a);
    assert DecidingRule(q.rules, SelectedIndices(a)) == None;
  }

  lemma OneQuestion(q: Question)
    requires q.num > 0
    ensures Ordered([q]) == [q] && MaxNumber([q]) == q.num
  {
    assert Numbered([q]) == [q] by { assert [q][..0] == []; }
    SortedFixed(PageThenNumber, [q]);
  }
}
