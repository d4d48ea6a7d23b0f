/** The forward pass over an accepted survey, against a recursive meaning of the survey. */
module SurveyPlan {
  import opened Wrappers
  import opened Sorting
  import opened SurveyLogic

  datatype Answer = Answer(num: int, action: Action)

  datatype Plan = Plan(answers: seq<Answer>, skipped: seq<int>, terminatedEarly: bool)

  datatype PlanError = Unsupported(reason: Reason) | NoAction(num: int)

  /** What became of a question the pass has dealt with. */
  datatype Fate = Answered(action: Action) | Hidden | JumpedOver

  datatype Course = Refused(num: int) | Finished(fates: seq<Fate>, early: bool)

  /** The answers given along `fates`, by question number. */
  function Given(qs: seq<Question>, fates: seq<Fate>): map<int, Action>
    requires |fates| <= |qs|
  {
    if |fates| == 0 then map[]
    else
      var k := |fates| - 1;
      var before := Given(qs, fates[..k]);
      if fates[k].Answered? then before[qs[k].num := fates[k].action] else before
  }

  function AnswersOf(qs: seq<Question>, fates: seq<Fate>): seq<Answer>
    requires |fates| <= |qs|
  {
    if |fates| == 0 then []
    else
      var k := |fates| - 1;
      var before := AnswersOf(qs, fates[..k]);
      if fates[k].Answered? then before + [Answer(qs[k].num, fates[k].action)] else before
  }

  function SkippedOf(qs: seq<Question>, fates: seq<Fate>): seq<int>
    requires |fates| <= |qs|
  {
    if |fates| == 0 then []
    else
      var k := |fates| - 1;
      var before := SkippedOf(qs, fates[..k]);
      if fates[k].Answered? then before else before + [qs[k].num]
  }

  /** The first position from k on whose number is at least `target`, or the end. */
  function Landing(qs: seq<Question>, k: nat, target: int): (p: nat)
    requires k <= |qs|
    ensures k <= p <= |qs|
    ensures p < |qs| ==> qs[p].num >= target
    ensures forall j :: k <= j < p ==> qs[j].num < target
    decreases |qs| - k
  {
    if k == |qs| || qs[k].num >= target then k else Landing(qs, k + 1, target)
  }

  function Jumped(n: nat): (f: seq<Fate>)
    ensures |f| == n && forall i :: 0 <= i < n ==> f[i] == JumpedOver
  {
    seq(n, _ => JumpedOver)
  }

  /** The jump an answer causes, given whether jump logic is respected. */
  function JumpAfter(q: Question, a: Action, respectJumps: bool): Jump {
    if respectJumps then ResolvedJump(q.rules, SelectedIndices(a)) else NoJump
  }

  predicate EndsSurvey(qs: seq<Question>, j: Jump) {
    j.JumpTo? && (j.terminates || j.target > MaxNumber(qs))
  }

  /** The meaning of the rest of a survey after the questions whose fates are `done`: `replies` holds what
      answering the question at each position would give. */
  function Meaning(qs: seq<Question>, replies: seq<Option<Action>>, respectJumps: bool, done: seq<Fate>): (c: Course)
    requires |replies| == |qs| && |done| <= |qs|
    ensures c.Finished? ==> done <= c.fates && |c.fates| <= |qs|
    decreases |qs| - |done|
  {
    var k := |done|;
    if k == |qs| then Finished(done, false)
    else if !Visible(qs[k], Given(qs, done)) then Meaning(qs, replies, respectJumps, done + [Hidden])
    else
      match replies[k]
      case None => Refused(qs[k].num)
      case Some(a) =>
        var now := done + [Answered(a)];
        var jump := JumpAfter(qs[k], a, respectJumps);
        if jump.NoJump? then Meaning(qs, replies, respectJumps, now)
        else if EndsSurvey(qs, jump) then Finished(now, true)
        else Meaning(qs, replies, respectJumps, now + Jumped(Landing(qs, k + 1, jump.target) - (k + 1)))
  }

  function PlanOf(qs: seq<Question>, c: Course): Result<Plan, PlanError>
    requires c.Finished? ==> |c.fates| <= |qs|
  {
    match c
    case Refused(num) => Failure(NoAction(num))
    case Finished(fates, early) => Success(Plan(AnswersOf(qs, fates), SkippedOf(qs, fates), early))
  }

  function SurveyMeaning(questions: seq<Question>, replies: seq<Option<Action>>, respectJumps: bool): Result<Plan, PlanError>
    requires |replies| == |Ordered(questions)|
  {
    var qs := Ordered(questions);
    if FallbackReason(questions) != Accepted then Failure(Unsupported(FallbackReason(questions)))
    else
      PlanOf(qs, Meaning(qs, replies, respectJumps, []))
  }

  /** The rest of the survey while a jump may be pending. */
  ghost function Resumed(qs: seq<Question>, replies: seq<Option<Action>>, respectJumps: bool, done: seq<Fate>, pending: Option<int>): Course
    requires |replies| == |qs| && |done| <= |qs|
  {
    match pending
    case None => Meaning(qs, replies, respectJumps, done)
    case Some(t) => Meaning(qs, replies, respectJumps, done + Jumped(Landing(qs, |done|, t) - |done|))
  }

  lemma Extend(qs: seq<Question>, done: seq<Fate>, f: Fate)
    requires |done| < |qs|
    ensures
      var k, more := |done|, done + [f];
      && Given(qs, more) == (if f.Answered? then Given(qs, done)[qs[k].num := f.action] else Given(qs, done))
      && AnswersOf(qs, more) == (if f.Answered? then AnswersOf(qs, done) + [Answer(qs[k].num, f.action)] else AnswersOf(qs, done))
      && SkippedOf(qs, more) == (if f.Answered? then SkippedOf(qs, done) else SkippedOf(qs, done) + [qs[k].num])
  {
    assert (done + [f])[..|done|] == done;
  }

  lemma PassOver(qs: seq<Question>, replies: seq<Option<Action>>, respectJumps: bool, done: seq<Fate>, t: int)
    requires |replies| == |qs| && |done| < |qs| && qs[|done|].num < t
    ensures Resumed(qs, replies, respectJumps, done, Some(t)) == Resumed(qs, replies, respectJumps, done + [JumpedOver], Some(t))
  {
    var k := |done|;
    var p := Landing(qs, k, t);
    assert p == Landing(qs, k + 1, t);
    assert done + Jumped(p - k) == (done + [JumpedOver]) + Jumped(p - (k + 1));
  }

  lemma Land(qs: seq<Question>, replies: seq<Option<Action>>, respectJumps: bool, done: seq<Fate>, pending: Option<int>)
    requires |replies| == |qs| && |done| <= |qs|
    requires pending.Some? && |done| < |qs| ==> qs[|done|].num >= pending.value
    ensures Resumed(qs, replies, respectJumps, done, pending) == Meaning(qs, replies, respectJumps, done)
  {
    assert done + Jumped(0) == done;
  }

  lemma SurveyMeaningIs(questions: seq<Question>, replies: seq<Option<Action>>, respectJumps: bool)
    requires |replies| == |Ordered(questions)|
    ensures
      var qs, reason, r := Ordered(questions), FallbackReason(questions), SurveyMeaning(questions, replies, respectJumps);
      if reason != Accepted then r == Failure(Unsupported(reason))
      else
        match Meaning(qs, replies, respectJumps, [])
        case Refused(num) => r == Failure(NoAction(num))
        case Finished(fates, early) => r == Success(Plan(AnswersOf(qs, fates), SkippedOf(qs, fates), early))
  {
    hide Ordered, FallbackReason, Meaning, AnswersOf, SkippedOf;
  }

  lemma NothingDone(qs: seq<Question>, replies: seq<Option<Action>>, respectJumps: bool)
    requires |replies| == |qs|
    ensures Given(qs, []) == map[] && AnswersOf(qs, []) == [] && SkippedOf(qs, []) == []
    ensures Resumed(qs, replies, respectJumps, [], None) == Meaning(qs, replies, respectJumps, [])
  {
  }

  lemma AllDone(qs: seq<Question>, replies: seq<Option<Action>>, respectJumps: bool, done: seq<Fate>)
    requires |replies| == |qs| == |done|
    ensures Meaning(qs, replies, respectJumps, done) == Finished(done, false)
  {
  }

  lemma MeetHidden(qs: seq<Question>, replies: seq<Option<Action>>, respectJumps: bool, done: seq<Fate>)
    requires |replies| == |qs| && |done| < |qs| && !Visible(qs[|done|], Given(qs, done))
    ensures Meaning(qs, replies, respectJumps, done) == Resumed(qs, replies, respectJumps, done + [Hidden], None)
  {
    hide Visible, Given;
  }

  lemma MeetVisible(qs: seq<Question>, replies: seq<Option<Action>>, respectJumps: bool, done: seq<Fate>)
    requires |replies| == |qs| && |done| < |qs| && Visible(qs[|done|], Given(qs, done))
    ensures
      var k, m := |done|, Meaning(qs, replies, respectJumps, done);
      if replies[k].None? then m == Refused(qs[k].num)
      else
        var a := replies[k].value;
        var now := done + [Answered(a)];
        var jump := ResolvedJump(qs[k].rules, SelectedIndices(a));
        if !respectJumps || jump.NoJump? then m == Resumed(qs, replies, respectJumps, now, None)
        else if jump.terminates || jump.target > MaxNumber(qs) then m == Finished(now, true)
        else m == Resumed(qs, replies, respectJumps, now, Some(jump.target))
  {
    hide Visible, Given, ResolvedJump, SelectedIndices, MaxNumber;
  }

  /** The pass itself: one walk over the ordered questions with a pending jump target. */
  method BuildPlan(questions: seq<Question>, replies: seq<Option<Action>>, respectJumps: bool)
    returns (r: Result<Plan, PlanError>)
    requires |replies| == |Ordered(questions)|
    ensures r == SurveyMeaning(questions, replies, respectJumps)
  {
    var qs := Ordered(questions);
    OrderedTwice(questions);
    var reason := FallbackReason(qs);
    assert reason == FallbackReason(questions);
    hide *;
    if reason != Accepted {
      SurveyMeaningIs(questions, replies, respectJumps);
      return Failure(Unsupported(reason));
    }
    var max := MaxNumber(qs);
    var given: map<int, Action> := map[];
    var answers: seq<Answer> := [];
    var skipped: seq<int> := [];
    var pending: Option<int> := None;
    ghost var done: seq<Fate> := [];
    SurveyMeaningIs(questions, replies, respectJumps);
    NothingDone(qs, replies, respectJumps);
    for k := 0 to |qs|
      invariant |done| == k
      invariant given == Given(qs, done) && answers == AnswersOf(qs, done) && skipped == SkippedOf(qs, done)
      invariant Meaning(qs, replies, respectJumps, []) == Resumed(qs, replies, respectJumps, done, pending)
    {
      var q := qs[k];
      if pending.Some? && q.num < pending.value {
        PassOver(qs, replies, respectJumps, done, pending.value);
        Extend(qs, done, JumpedOver);
        skipped := skipped + [q.num];
        done := done + [JumpedOver];
        continue;
      }
      Land(qs, replies, respectJumps, done, pending);
      pending := None;
      if !Visible(q, given) {
        MeetHidden(qs, replies, respectJumps, done);
        Extend(qs, done, Hidden);
        skipped := skipped + [q.num];
        done := done + [Hidden];
        continue;
      }
      MeetVisible(qs, replies, respectJumps, done);
      if replies[k].None? {
        return Failure(NoAction(q.num));
      }
      var a := replies[k].value;
      Extend(qs, done, Answered(a));
      given := given[q.num := a];
      answers := answers + [Answer(q.num, a)];
      done := done + [Answered(a)];
      if respectJumps {
        var jump := ResolveJumpTarget(q, a);
        if jump.JumpTo? {
          if jump.terminates || jump.target > max {
            return Success(Plan(answers, skipped, true));
          }
          pending := Some(jump.target);
        }
      }
    }
    Land(qs, replies, respectJumps, done, pending);
    AllDone(qs, replies, respectJumps, done);
    return Success(Plan(answers, skipped, false));
  }

}
