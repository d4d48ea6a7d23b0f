/** What a finished plan says about the survey it was made for. */
module SurveyTheorems {
  import opened Wrappers
  import opened Sorting
  import opened SurveyLogic
  import opened SurveyPlan

  datatype Survey = Survey(qs: seq<Question>, replies: seq<Option<Action>>, respectJumps: bool) {
    ghost predicate Valid() {
      |replies| == |qs|
    }
  }

  // ---- a reference account of a course, without any walk ----

  ghost predicate EndsAt(v: Survey, fates: seq<Fate>, i: nat)
    requires i < |fates| <= |v.qs|
  {
    fates[i].Answered? && EndsSurvey(v.qs, JumpAfter(v.qs[i], fates[i].action, v.respectJumps))
  }

  /** The position that follows position i: the next one, unless an answer jumps further. */
  ghost function NextOf(v: Survey, fates: seq<Fate>, i: nat): nat
    requires i < |fates| <= |v.qs|
  {
    if !fates[i].Answered? then i + 1
    else
      var jump := JumpAfter(v.qs[i], fates[i].action, v.respectJumps);
      if jump.NoJump? || EndsSurvey(v.qs, jump) then i + 1 else Landing(v.qs, i + 1, jump.target)
  }

  /** A question is jumped over when an earlier jump lands behind it; otherwise it is hidden or answered
      according to its visibility under the answers before it. */
  ghost predicate FateFits(v: Survey, fates: seq<Fate>, k: nat)
    requires v.Valid() && k < |fates| <= |v.qs|
  {
    match fates[k]
    case JumpedOver => exists i :: 0 <= i < k && k < NextOf(v, fates, i)
    case Hidden => !Visible(v.qs[k], Given(v.qs, fates[..k]))
    case Answered(a) => Visible(v.qs[k], Given(v.qs, fates[..k])) && v.replies[k] == Some(a)
  }

  ghost predicate Followed(v: Survey, fates: seq<Fate>)
    requires v.Valid() && |fates| <= |v.qs|
  {
    && (forall k :: 0 <= k < |fates| ==> FateFits(v, fates, k))
    && (forall i, k :: 0 <= i < k < |fates| && k < NextOf(v, fates, i) ==> fates[k] == JumpedOver)
  }

  /** The fates of a whole course: everything is dealt with, unless the last answer ends the survey. */
  ghost predicate Coherent(v: Survey, fates: seq<Fate>, early: bool) {
    && v.Valid() && |fates| <= |v.qs|
    && Followed(v, fates)
    && (forall i :: 0 <= i < |fates| && EndsAt(v, fates, i) ==> early && i == |fates| - 1)
    && (if early then |fates| > 0 && EndsAt(v, fates, |fates| - 1) else |fates| == |v.qs|)
  }

  /** No jump is under way after the first k fates. */
  ghost predicate Settled(v: Survey, fates: seq<Fate>, k: nat)
    requires k <= |fates| <= |v.qs|
  {
    forall i :: 0 <= i < k ==> NextOf(v, fates, i) <= k
  }

  ghost predicate Unended(v: Survey, fates: seq<Fate>)
    requires |fates| <= |v.qs|
  {
    forall i :: 0 <= i < |fates| ==> !EndsAt(v, fates, i)
  }

  ghost function Rest(v: Survey, done: seq<Fate>): Course
    requires v.Valid() && |done| <= |v.qs|
  {
    Meaning(v.qs, v.replies, v.respectJumps, done)
  }

  /** What is said about a position depends only on the fates up to it. */
  lemma PrefixFates(v: Survey, fates: seq<Fate>, k: nat)
    requires v.Valid() && k <= |fates| <= |v.qs|
    ensures forall i :: 0 <= i < k ==>
              && NextOf(v, fates[..k], i) == NextOf(v, fates, i)
              && (FateFits(v, fates[..k], i) <==> FateFits(v, fates, i))
              && (EndsAt(v, fates[..k], i) <==> EndsAt(v, fates, i))
  {
    var f := fates[..k];
    assert forall i :: 0 <= i < k ==> f[..i] == fates[..i];
    hide Visible, Given, JumpAfter, EndsSurvey, Landing;
    assert forall i :: 0 <= i < k ==> NextOf(v, f, i) == NextOf(v, fates, i);
    hide NextOf;
  }

  /** One more fate, none of whose predecessors is still jumping. */
  lemma FollowedGrows(v: Survey, done: seq<Fate>, f: Fate)
    requires v.Valid() && |done| < |v.qs| && Followed(v, done) && Settled(v, done, |done|)
    requires !f.JumpedOver? && FateFits(v, done + [f], |done|)
    ensures Followed(v, done + [f])
    ensures forall i :: 0 <= i < |done| ==> NextOf(v, done + [f], i) <= |done|
  {
    var now := done + [f];
    assert now[..|done|] == done;
    PrefixFates(v, now, |done|);
    hide FateFits, NextOf;
  }

  /** The questions a jump passes over. */
  lemma FollowedJumps(v: Survey, now: seq<Fate>)
    requires v.Valid() && 0 < |now| <= |v.qs| && Followed(v, now)
    requires |now| <= NextOf(v, now, |now| - 1) <= |v.qs|
    requires forall i :: 0 <= i < |now| - 1 ==> NextOf(v, now, i) <= |now| - 1
    ensures
      var p := NextOf(v, now, |now| - 1);
      var all := now + Jumped(p - |now|);
      Followed(v, all) && Settled(v, all, p)
  {
    hide Visible, Given, JumpAfter, EndsSurvey, Landing;
    var p := NextOf(v, now, |now| - 1);
    var all := now + Jumped(p - |now|);
    assert all[..|now|] == now;
    PrefixFates(v, all, |now|);
    assert forall i :: |now| <= i < p ==> NextOf(v, all, i) == i + 1;
    assert NextOf(v, all, |now| - 1) == p;
    assert forall k :: |now| <= k < p ==> FateFits(v, all, k);
    hide FateFits, NextOf;
  }

  // ---- every course is coherent ----

  ghost predicate Underway(v: Survey, done: seq<Fate>) {
    v.Valid() && |done| <= |v.qs| && Followed(v, done) && Settled(v, done, |done|) && Unended(v, done)
  }

  /** An unended step that leads no further than the next position. */
  lemma StepsOn(v: Survey, done: seq<Fate>, f: Fate)
    requires Underway(v, done) && |done| < |v.qs| && !f.JumpedOver?
    requires FateFits(v, done + [f], |done|)
    requires NextOf(v, done + [f], |done|) == |done| + 1 && !EndsAt(v, done + [f], |done|)
    ensures Underway(v, done + [f])
  {
    FollowedGrows(v, done, f);
    assert (done + [f])[..|done|] == done;
    PrefixFates(v, done + [f], |done|);
    hide FateFits, NextOf, EndsAt;
  }

  lemma LeapsOn(v: Survey, done: seq<Fate>, f: Fate)
    requires Underway(v, done) && |done| < |v.qs| && f.Answered?
    requires FateFits(v, done + [f], |done|)
    requires |done| < NextOf(v, done + [f], |done|) <= |v.qs| && !EndsAt(v, done + [f], |done|)
    ensures Underway(v, done + [f] + Jumped(NextOf(v, done + [f], |done|) - (|done| + 1)))
  {
    hide Visible, Given, JumpAfter, EndsSurvey, Landing;
    var now := done + [f];
    var all := now + Jumped(NextOf(v, now, |done|) - |now|);
    FollowedGrows(v, done, f);
    FollowedJumps(v, now);
    assert now[..|done|] == done && all[..|now|] == now;
    PrefixFates(v, now, |done|);
    PrefixFates(v, all, |now|);
    assert forall i :: |now| <= i < |all| ==> !EndsAt(v, all, i);
    hide FateFits, NextOf, EndsAt;
  }

  lemma EndsHere(v: Survey, done: seq<Fate>, f: Fate)
    requires Underway(v, done) && |done| < |v.qs| && f.Answered?
    requires FateFits(v, done + [f], |done|) && EndsAt(v, done + [f], |done|)
    ensures Coherent(v, done + [f], true)
  {
    FollowedGrows(v, done, f);
    assert (done + [f])[..|done|] == done;
    PrefixFates(v, done + [f], |done|);
    hide FateFits, NextOf, EndsAt;
  }

  lemma {:induction false} OnwardIsCoherent(v: Survey, done: seq<Fate>, fates: seq<Fate>, early: bool)
    requires Underway(v, done) && Rest(v, done) == Course.Finished(fates, early)
    ensures Coherent(v, fates, early)
    decreases |v.qs| - |done|
  {
    var k := |done|;
    if k == |v.qs| {
      AllDone(v.qs, v.replies, v.respectJumps, done);
      hide Followed, EndsAt;
    } else if !Visible(v.qs[k], Given(v.qs, done)) {
      MeetHidden(v.qs, v.replies, v.respectJumps, done);
      assert (done + [Hidden])[..k] == done;
      hide Meaning, Visible, Given;
      StepsOn(v, done, Hidden);
      hide Underway, Coherent;
      OnwardIsCoherent(v, done + [Hidden], fates, early);
    } else {
      OnwardAfterAnswer(v, done, fates, early);
      hide Underway, Coherent, Meaning, Visible, Given;
      var a := v.replies[k].value;
      var now := done + [Answered(a)];
      var jump := JumpAfter(v.qs[k], a, v.respectJumps);
      if !EndsSurvey(v.qs, jump) {
        OnwardIsCoherent(v, now + Jumped(NextOf(v, now, k) - (k + 1)), fates, early);
      }
    }
  }

  lemma OnwardAfterAnswer(v: Survey, done: seq<Fate>, fates: seq<Fate>, early: bool)
    requires Underway(v, done) && Rest(v, done) == Course.Finished(fates, early)
    requires |done| < |v.qs| && Visible(v.qs[|done|], Given(v.qs, done))
    ensures
      var k := |done|;
      && v.replies[k].Some?
      && var a := v.replies[k].value;
         var now := done + [Answered(a)];
         if EndsSurvey(v.qs, JumpAfter(v.qs[k], a, v.respectJumps)) then Coherent(v, fates, early)
         else
           && k < NextOf(v, now, k) <= |v.qs|
           && var all := now + Jumped(NextOf(v, now, k) - (k + 1));
              Underway(v, all) && Rest(v, all) == Course.Finished(fates, early)
  {
    var k := |done|;
    MeetVisible(v.qs, v.replies, v.respectJumps, done);
    var a := v.replies[k].value;
    var now := done + [Answered(a)];
    assert now[..k] == done;
    assert FateFits(v, now, k);
    hide Meaning, Visible, Given, ResolvedJump, SelectedIndices, MaxNumber;
    if EndsSurvey(v.qs, JumpAfter(v.qs[k], a, v.respectJumps)) {
      EndsHere(v, done, Answered(a));
    } else {
      LeapsOn(v, done, Answered(a));
      hide Underway;
      assert now + Jumped(0) == now;
    }
  }

  // ---- and a coherent account is the course ----

  lemma {:induction false} CoherentReplays(v: Survey, fates: seq<Fate>, early: bool, k: nat)
    requires Coherent(v, fates, early) && k <= |fates| && Settled(v, fates, k)
    requires k < |fates| || !early
    ensures Rest(v, fates[..k]) == Course.Finished(fates, early)
    decreases |fates| - k
  {
    if k == |fates| {
      assert fates[..k] == fates;
      AllDone(v.qs, v.replies, v.respectJumps, fates);
    } else {
      assert FateFits(v, fates, k);
      NotJumpedOver(v, fates, k);
      var p := ReplayStep(v, fates, early, k);
      hide Coherent, Settled, Meaning;
      if !(early && k == |fates| - 1) {
        CoherentReplays(v, fates, early, p);
      }
    }
  }

  lemma NotJumpedOver(v: Survey, fates: seq<Fate>, k: nat)
    requires v.Valid() && k < |fates| <= |v.qs| && FateFits(v, fates, k) && Settled(v, fates, k)
    ensures !fates[k].JumpedOver?
  {
    hide NextOf, Visible, Given;
  }

  lemma ReplayHidden(v: Survey, fates: seq<Fate>, k: nat)
    requires v.Valid() && k < |fates| <= |v.qs| && FateFits(v, fates, k) && fates[k].Hidden?
    ensures NextOf(v, fates, k) == k + 1 && Rest(v, fates[..k]) == Rest(v, fates[..k + 1])
  {
    assert fates[..k + 1] == fates[..k] + [fates[k]];
    hide Visible, Given, Meaning;
    MeetHidden(v.qs, v.replies, v.respectJumps, fates[..k]);
  }

  lemma ReplayEnd(v: Survey, fates: seq<Fate>)
    requires v.Valid() && 0 < |fates| <= |v.qs| && FateFits(v, fates, |fates| - 1) && EndsAt(v, fates, |fates| - 1)
    ensures Rest(v, fates[..|fates| - 1]) == Course.Finished(fates, true)
  {
    var k := |fates| - 1;
    assert fates == fates[..k] + [fates[k]];
    hide Visible, Given, Meaning, MaxNumber, ResolvedJump, SelectedIndices;
    MeetVisible(v.qs, v.replies, v.respectJumps, fates[..k]);
  }

  lemma ReplayAnswer(v: Survey, fates: seq<Fate>, k: nat)
    requires v.Valid() && k < |fates| <= |v.qs| && FateFits(v, fates, k) && fates[k].Answered? && !EndsAt(v, fates, k)
    requires
      var p := NextOf(v, fates, k);
      k < p <= |fates| && forall j :: k < j < p ==> fates[j] == JumpedOver
    ensures Rest(v, fates[..k]) == Rest(v, fates[..NextOf(v, fates, k)])
  {
    var p := NextOf(v, fates, k);
    var now := fates[..k] + [fates[k]];
    assert fates[..p] == now + Jumped(p - (k + 1));
    assert now + Jumped(0) == now;
    hide Visible, Given, Meaning, MaxNumber, ResolvedJump, SelectedIndices;
    MeetVisible(v.qs, v.replies, v.respectJumps, fates[..k]);
  }

  lemma ReplayStep(v: Survey, fates: seq<Fate>, early: bool, k: nat) returns (p: nat)
    requires Coherent(v, fates, early) && k < |fates| && Settled(v, fates, k)
    requires !fates[k].JumpedOver?
    ensures
      if early && k == |fates| - 1 then Rest(v, fates[..k]) == Course.Finished(fates, early)
      else
        k < p <= |fates| && Settled(v, fates, p) && (p < |fates| || !early) && Rest(v, fates[..k]) == Rest(v, fates[..p])
  {
    p := NextOf(v, fates, k);
    assert FateFits(v, fates, k) && (EndsAt(v, fates, k) <==> early && k == |fates| - 1);
    hide FateFits;
    if early && k == |fates| - 1 {
      ReplayEnd(v, fates);
    } else {
      SettledNext(v, fates, early, k);
      if fates[k].Answered? {
        JumpStaysInside(v, fates, early, k);
      }
      hide Coherent, Settled, EndsAt, NextOf, Rest;
      if fates[k].Hidden? {
        ReplayHidden(v, fates, k);
      } else {
        ReplayAnswer(v, fates, k);
      }
    }
  }

  /** A jump inside a coherent course lands inside it, and everything before the landing is jumped over. */
  lemma JumpStaysInside(v: Survey, fates: seq<Fate>, early: bool, k: nat)
    requires Coherent(v, fates, early) && k < |fates| && fates[k].Answered? && !EndsAt(v, fates, k)
    ensures
      var p := NextOf(v, fates, k);
      && k < p <= |fates| && (p < |fates| || !early)
      && forall j :: k < j < p ==> fates[j] == JumpedOver
  {
    var p := NextOf(v, fates, k);
    hide JumpAfter, EndsSurvey, FateFits;
    assert early ==> EndsAt(v, fates, |fates| - 1) && k < |fates| - 1;
  }

  lemma SettledNext(v: Survey, fates: seq<Fate>, early: bool, k: nat)
    requires Coherent(v, fates, early) && k < |fates| && Settled(v, fates, k) && !fates[k].JumpedOver? && !EndsAt(v, fates, k)
    ensures
      var p := NextOf(v, fates, k);
      k < p <= |fates| && Settled(v, fates, p) && (p < |fates| || !early)
  {
    var p := NextOf(v, fates, k);
    if fates[k].Answered? {
      JumpStaysInside(v, fates, early, k);
    }
    assert !EndsAt(v, fates, k);
    assert forall j :: k < j < p ==> NextOf(v, fates, j) == j + 1;
    assert p == |fates| ==> !early;
    hide NextOf, FateFits;
  }

  /** The pass computes exactly the coherent account of the survey: option rules and jumps, hidden
      questions and the end of the survey are as described above, and no other account is. */
  lemma CourseIsTheCoherentOne(v: Survey, fates: seq<Fate>, early: bool)
    requires v.Valid()
    ensures Meaning(v.qs, v.replies, v.respectJumps, []) == Course.Finished(fates, early) <==> Coherent(v, fates, early)
  {
    if Coherent(v, fates, early) {
      assert fates[..0] == [];
      CoherentReplays(v, fates, early, 0);
    }
    if Rest(v, []) == Course.Finished(fates, early) {
      OnwardIsCoherent(v, [], fates, early);
    }
  }

  // ---- visibility under the finished plan ----

  ghost predicate Increasing(qs: seq<Question>) {
    forall i, j :: 0 <= i < j < |qs| ==> qs[i].num < qs[j].num
  }

  /** The rule flags agree with the condition list. */
  ghost predicate FlagsAgree(q: Question) {
    q.conditions != [] ==> HasLogic(q)
  }

  function AnswerMap(answers: seq<Answer>): map<int, Action> {
    if |answers| == 0 then map[]
    else AnswerMap(answers[..|answers| - 1])[answers[|answers| - 1].num := answers[|answers| - 1].action]
  }

  lemma {:induction false} AnswerMapIsGiven(qs: seq<Question>, fates: seq<Fate>)
    requires |fates| <= |qs|
    ensures AnswerMap(AnswersOf(qs, fates)) == Given(qs, fates)
  {
    if |fates| > 0 {
      var k := |fates| - 1;
      AnswerMapIsGiven(qs, fates[..k]);
      if fates[k].Answered? {
        assert AnswersOf(qs, fates)[..|AnswersOf(qs, fates[..k])|] == AnswersOf(qs, fates[..k]);
      }
    }
  }

  /** What was answered to a number stays unless a question with that number is answered later. */
  lemma {:induction false} GivenElsewhere(qs: seq<Question>, fates: seq<Fate>, k: nat, n: int)
    requires k <= |fates| <= |qs| && forall j :: k <= j < |fates| && qs[j].num == n ==> !fates[j].Answered?
    ensures n in Given(qs, fates) <==> n in Given(qs, fates[..k])
    ensures n in Given(qs, fates) ==> Given(qs, fates)[n] == Given(qs, fates[..k])[n]
  {
    if k == |fates| {
      assert fates[..k] == fates;
    } else {
      GivenElsewhere(qs, fates[..|fates| - 1], k, n);
      assert fates[..|fates| - 1][..k] == fates[..k];
    }
  }

  lemma SameSourcesSameVisibility(q: Question, g: map<int, Action>, h: map<int, Action>)
    requires forall c :: c in q.conditions && Usable(c) ==>
               (c.source in g <==> c.source in h) && (c.source in g ==> g[c.source] == h[c.source])
    ensures Visible(q, g) <==> Visible(q, h)
  {
    forall c | c in q.conditions && Usable(c) ensures ConditionIsMet(g, c) <==> ConditionIsMet(h, c) {
    }
    hide ConditionIsMet;
  }

  /** A question numbered n stands behind position k, or at k while another one stands before. */
  predicate Late(qs: seq<Question>, k: nat, n: int)
    requires k < |qs|
  {
    || (exists m :: k < m < |qs| && qs[m].num == n)
    || (qs[k].num == n && exists i :: 0 <= i < k && qs[i].num == n)
  }

  /** No usable condition of the question names a late number. */
  ghost predicate NoLateSource(qs: seq<Question>, k: nat)
    requires k < |qs|
  {
    forall c :: c in qs[k].conditions && Usable(c) ==> !Late(qs, k, c.source)
  }

  /** A number that no question up to here has is not answered. */
  lemma NotGiven(qs: seq<Question>, fates: seq<Fate>, n: int)
    requires |fates| <= |qs| && forall i :: 0 <= i < |fates| && qs[i].num == n ==> !fates[i].Answered?
    ensures n !in Given(qs, fates)
  {
    GivenElsewhere(qs, fates, 0, n);
    assert fates[..0] == [];
  }

  /** A question that waits for a number not answered so far is not shown. */
  lemma UnansweredHides(q: Question, given: map<int, Action>, c: Condition)
    requires c in q.conditions && Usable(c) && c.source !in given
    ensures !Visible(q, given)
  {
    assert !GroupIsMet(q, given, c);
  }

  lemma FixedWithoutLate(qs: seq<Question>, fates: seq<Fate>, k: nat)
    requires k < |fates| <= |qs| && NoLateSource(qs, k)
    requires fates[k].Answered? ==> Visible(qs[k], Given(qs, fates[..k]))
    ensures Visible(qs[k], Given(qs, fates)) <==> Visible(qs[k], Given(qs, fates[..k]))
  {
    var g, h := Given(qs, fates), Given(qs, fates[..k]);
    hide Given, Visible;
    forall c | c in qs[k].conditions && Usable(c)
      ensures (c.source in g <==> c.source in h) && (c.source in g ==> g[c.source] == h[c.source])
    {
      if qs[k].num == c.source {
        NotGiven(qs, fates[..k], c.source);
        UnansweredHides(qs[k], h, c);
      }
      GivenElsewhere(qs, fates, k, c.source);
    }
    SameSourcesSameVisibility(qs[k], g, h);
  }

  /** In an accepted survey a condition refers to a smaller number. */
  lemma AcceptedSources(questions: seq<Question>, k: nat)
    requires FallbackReason(questions) == Accepted && k < |Ordered(questions)|
    requires forall q :: q in Ordered(questions) ==> FlagsAgree(q)
    ensures
      var q := Ordered(questions)[k];
      forall c :: c in q.conditions && Usable(c) ==> c.source < q.num
  {
    var q := Ordered(questions)[k];
    assert q in Ordered(questions);
    AcceptedIff(questions);
    hide Ordered, FallbackReason, MaxNumber;
    assert q.conditions != [] ==> RulesFit(q, MaxNumber(Ordered(questions)));
  }

  lemma ReachedFates(v: Survey, fates: seq<Fate>, early: bool, k: nat)
    requires v.Valid() && Meaning(v.qs, v.replies, v.respectJumps, []) == Course.Finished(fates, early)
    requires k < |fates| && !fates[k].JumpedOver?
    ensures |fates| <= |v.qs| && (fates[k].Answered? <==> Visible(v.qs[k], Given(v.qs, fates[..k])))
  {
    CourseIsTheCoherentOne(v, fates, early);
    hide Meaning, Visible, Given;
    assert FateFits(v, fates, k);
  }

  /** A question the pass reaches that waits for no late number is answered exactly when it is visible under all
      answers of the finished plan. */
  lemma StableWithoutLateSource(v: Survey, fates: seq<Fate>, early: bool, k: nat)
    requires v.Valid() && Meaning(v.qs, v.replies, v.respectJumps, []) == Course.Finished(fates, early)
    requires k < |fates| && !fates[k].JumpedOver? && NoLateSource(v.qs, k)
    ensures fates[k].Answered? <==> Visible(v.qs[k], Given(v.qs, fates))
  {
    ReachedFates(v, fates, early, k);
    hide *;
    FixedWithoutLate(v.qs, fates, k);
  }

  /** In an accepted survey whose page order is its number order and whose flags announce its conditions, no
      condition names a late number. */
  lemma AcceptedHasNoLateSource(questions: seq<Question>, k: nat)
    requires FallbackReason(questions) == Accepted && k < |Ordered(questions)|
    requires Increasing(Ordered(questions)) && forall q :: q in Ordered(questions) ==> FlagsAgree(q)
    ensures NoLateSource(Ordered(questions), k)
  {
    AcceptedSources(questions, k);
    hide Ordered, FallbackReason, FlagsAgree;
  }

  /** In such a survey every question the pass reaches is answered exactly when it is visible under the answers of
      the finished plan. */
  lemma VisibilityIsStable(questions: seq<Question>, replies: seq<Option<Action>>, respectJumps: bool,
                           fates: seq<Fate>, early: bool, k: nat)
    requires FallbackReason(questions) == Accepted
    requires Increasing(Ordered(questions)) && |replies| == |Ordered(questions)|
    requires forall q :: q in Ordered(questions) ==> FlagsAgree(q)
    requires Meaning(Ordered(questions), replies, respectJumps, []) == Course.Finished(fates, early)
    requires k < |fates| && !fates[k].JumpedOver?
    ensures
      var plan := PlanOf(Ordered(questions), Course.Finished(fates, early)).value;
      fates[k].Answered? <==> Visible(Ordered(questions)[k], AnswerMap(plan.answers))
  {
    var qs := Ordered(questions);
    AnswerMapIsGiven(qs, fates);
    assert PlanOf(qs, Course.Finished(fates, early)).value.answers == AnswersOf(qs, fates);
    AcceptedHasNoLateSource(questions, k);
    hide *;
    StableWithoutLateSource(Survey(qs, replies, respectJumps), fates, early, k);
  }

  // ---- what is answered, what is skipped ----

  function Numbers(qs: seq<Question>): (r: seq<int>)
    ensures |r| == |qs| && forall i {:trigger r[i]} :: 0 <= i < |qs| ==> r[i] == qs[i].num
  {
    seq(|qs|, i requires 0 <= i < |qs| => qs[i].num)
  }

  function AnswerNumbers(answers: seq<Answer>): (r: seq<int>)
    ensures |r| == |answers| && forall i {:trigger r[i]} :: 0 <= i < |answers| ==> r[i] == answers[i].num
  {
    seq(|answers|, i requires 0 <= i < |answers| => answers[i].num)
  }

  /** The members of `xs` that are in `keep`, in their order. */
  function Keep(xs: seq<int>, keep: set<int>): seq<int> {
    if |xs| == 0 then []
    else
      var before := Keep(xs[..|xs| - 1], keep);
      if xs[|xs| - 1] in keep then before + [xs[|xs| - 1]] else before
  }

  lemma {:induction false} KeepSame(xs: seq<int>, a: set<int>, b: set<int>)
    requires forall x :: x in xs ==> (x in a <==> x in b)
    ensures Keep(xs, a) == Keep(xs, b)
  {
    if |xs| > 0 {
      var x := xs[|xs| - 1];
      KeepSame(xs[..|xs| - 1], a, b);
      assert x in a <==> x in b;
    }
  }

  /** `answered` and `skipped` split `xs`, each keeping its order. */
  ghost predicate Splits(xs: seq<int>, answered: seq<int>, skipped: seq<int>) {
    && answered == Keep(xs, set x | x in answered)
    && skipped == Keep(xs, set x | x in skipped)
    && (forall x :: x in answered ==> x !in skipped)
    && (forall x :: x in xs <==> x in answered || x in skipped)
  }

  lemma SplitsGrow(xs: seq<int>, answered: seq<int>, skipped: seq<int>, x: int)
    requires Splits(xs, answered, skipped) && x !in xs
    ensures Splits(xs + [x], answered + [x], skipped)
    ensures Splits(xs + [x], answered, skipped + [x])
  {
    assert (xs + [x])[..|xs|] == xs;
    var a, s := set y | y in answered, set y | y in skipped;
    var a', s' := set y | y in answered + [x], set y | y in skipped + [x];
    KeepSame(xs, a, a');
    KeepSame(xs, s, s');
  }

  lemma NothingSplits()
    ensures Splits([], [], [])
  {
  }

  lemma {:induction false} FatesPartition(qs: seq<Question>, fates: seq<Fate>)
    requires |fates| <= |qs| && Distinct(Numbers(qs))
    ensures Splits(Numbers(qs[..|fates|]), AnswerNumbers(AnswersOf(qs, fates)), SkippedOf(qs, fates))
  {
    hide Splits;
    if |fates| == 0 {
      NothingSplits();
      assert Numbers(qs[..0]) == [] && AnswerNumbers(AnswersOf(qs, [])) == [];
    } else {
      var k := |fates| - 1;
      var front := fates[..k];
      var x := qs[k].num;
      var a0, s0 := AnswerNumbers(AnswersOf(qs, front)), SkippedOf(qs, front);
      FatesPartition(qs, front);
      assert Numbers(qs[..k + 1]) == Numbers(qs[..k]) + [x];
      forall i | 0 <= i < k ensures Numbers(qs[..k])[i] != x {
        assert Numbers(qs)[i] != Numbers(qs)[k];
      }
      assert AnswerNumbers(AnswersOf(qs, fates)) == if fates[k].Answered? then a0 + [x] else a0;
      hide AnswersOf, AnswerNumbers, Numbers;
      SplitsGrow(Numbers(qs[..k]), a0, s0, x);
    }
  }

  /** For distinct numbers, the answered and the skipped questions are disjoint, each list in survey order,
      and together they are the first n questions: all of them, unless the answer to the n-th ended the survey. */
  lemma PlanPartitionsSurvey(questions: seq<Question>, replies: seq<Option<Action>>, respectJumps: bool, plan: Plan)
    returns (n: nat)
    requires |replies| == |Ordered(questions)| && Distinct(Numbers(Ordered(questions)))
    requires SurveyMeaning(questions, replies, respectJumps) == Success(plan)
    ensures n <= |Ordered(questions)|
    ensures Splits(Numbers(Ordered(questions)[..n]), AnswerNumbers(plan.answers), plan.skipped)
    ensures if plan.terminatedEarly
            then n > 0 && |plan.answers| > 0 && plan.answers[|plan.answers| - 1].num == Ordered(questions)[n - 1].num
            else n == |Ordered(questions)|
  {
    var qs := Ordered(questions);
    SurveyMeaningIs(questions, replies, respectJumps);
    hide SurveyMeaning, FallbackReason, Ordered;
    match Meaning(qs, replies, respectJumps, [])
    case Finished(fates, early) =>
      CourseIsTheCoherentOne(Survey(qs, replies, respectJumps), fates, early);
      n := |fates|;
      FatesPartition(qs, fates);
      if early {
        assert EndsAt(Survey(qs, replies, respectJumps), fates, n - 1);
      }
  }

  // ---- jumps in an ordered survey ----

  /** A jump skips exactly the following questions numbered below its target when, and only when, no such
      question stands behind one numbered at least as high as the target. */
  lemma JumpSkipsExactlyIff(qs: seq<Question>, k: nat, target: int)
    requires k <= |qs|
    ensures (forall j :: k <= j < |qs| ==> (j < Landing(qs, k, target) <==> qs[j].num < target))
       <==> (forall i, j :: k <= i < j < |qs| && qs[i].num >= target ==> qs[j].num >= target)
  {
    var p := Landing(qs, k, target);
    if p < |qs| {
      assert qs[p].num >= target;
    }
  }

  // ---- how a late number outruns the plan ----

  /** The answer a to number n meets every group of the question that names n. */
  ghost predicate Meets(q: Question, n: int, a: Action) {
    forall c :: c in q.conditions && Usable(c) && c.source == n ==> GroupIsMet(q, map[n := a], c)
  }

  /** A supported condition that names an option can be met: by its options, or by choosing nothing. */
  lemma SupportedCanBeMet(q: Question, c: Condition) returns (a: Action)
    requires c in q.conditions && Usable(c) && SupportedMode(c.mode) && exists i :: i in c.options && i >= 0
    requires forall d :: d in q.conditions && Usable(d) && d.source == c.source ==> d.mode == c.mode
    ensures Meets(q, c.source, a)
  {
    a := Action(false, if c.mode == SELECTED then c.options else [], []);
    var wanted := set i | i in c.options && i >= 0;
    var i :| i in c.options && i >= 0;
    assert i in wanted && SelectedIndices(a) == if c.mode == SELECTED then wanted else {};
    assert ConditionIsMet(map[c.source := a], c);
  }

  ghost predicate Names(q: Question, n: int) {
    exists c :: c in q.conditions && Usable(c) && c.source == n
  }

  /** Whatever else the question waits for has been met before position k and is not asked again. */
  ghost predicate OthersMet(qs: seq<Question>, given: map<int, Action>, k: nat, n: int)
    requires k < |qs|
  {
    forall c :: c in qs[k].conditions && Usable(c) && c.source != n ==>
      GroupIsMet(qs[k], given, c) && forall j :: k <= j < |qs| ==> qs[j].num != c.source
  }

  ghost predicate Takes(v: Survey, fates: seq<Fate>, early: bool) {
    v.Valid() && Meaning(v.qs, v.replies, v.respectJumps, []) == Course.Finished(fates, early)
  }

  /** The pass hides question k, which the answers of the finished plan make visible. */
  ghost predicate Outruns(v: Survey, fates: seq<Fate>, k: nat) {
    k < |fates| <= |v.qs| && fates[k] == Hidden && Visible(v.qs[k], Given(v.qs, fates))
  }

  /** The same replies up to position m, and a from there on. */
  function Redirected(replies: seq<Option<Action>>, m: nat, a: Action): (r: seq<Option<Action>>)
    requires m <= |replies|
    ensures |r| == |replies| && r[..m] == replies[..m] && forall j :: m <= j < |r| ==> r[j] == Some(a)
  {
    replies[..m] + seq(|replies| - m, _ => Some(a))
  }

  /** Replies that agree before position m give the same fates before it. */
  lemma {:induction false} SameSoFar(v: Survey, replies: seq<Option<Action>>, done: seq<Fate>, fates: seq<Fate>, early: bool, m: nat)
    requires v.Valid() && |replies| == |v.qs| && |done| <= m < |fates| && m < |v.qs|
    requires replies[..m] == v.replies[..m]
    requires Rest(v, done) == Course.Finished(fates, early) && !fates[m].JumpedOver?
    ensures |fates| <= |v.qs|
    ensures Meaning(v.qs, replies, v.respectJumps, done) == Meaning(v.qs, replies, v.respectJumps, fates[..m])
    decreases m - |done|
  {
    var k := |done|;
    if k == m {
      assert fates[..m] == done;
    } else {
      assert replies[k] == replies[..m][k] && v.replies[k] == v.replies[..m][k];
      hide Visible, Given, JumpAfter;
      if !Visible(v.qs[k], Given(v.qs, done)) {
        SameSoFar(v, replies, done + [Hidden], fates, early, m);
      } else {
        SameAfterAnswer(v, replies, done, fates, early, m);
        var now := done + [Answered(v.replies[k].value)];
        var jump := JumpAfter(v.qs[k], v.replies[k].value, v.respectJumps);
        if jump.NoJump? {
          SameSoFar(v, replies, now, fates, early, m);
        } else {
          SameSoFar(v, replies, now + Jumped(Landing(v.qs, k + 1, jump.target) - (k + 1)), fates, early, m);
        }
      }
    }
  }

  lemma SameAfterAnswer(v: Survey, replies: seq<Option<Action>>, done: seq<Fate>, fates: seq<Fate>, early: bool, m: nat)
    requires v.Valid() && |done| < m < |fates| && |done| < |v.qs| && Visible(v.qs[|done|], Given(v.qs, done))
    requires Rest(v, done) == Course.Finished(fates, early) && !fates[m].JumpedOver?
    ensures v.replies[|done|].Some?
    ensures
      var k, a := |done|, v.replies[|done|].value;
      var jump := JumpAfter(v.qs[k], a, v.respectJumps);
      jump.JumpTo? ==>
        && !EndsSurvey(v.qs, jump) && Landing(v.qs, k + 1, jump.target) <= m
        && Rest(v, done + [Answered(a)] + Jumped(Landing(v.qs, k + 1, jump.target) - (k + 1))) == Course.Finished(fates, early)
  {
    hide Visible, Given, JumpAfter, EndsSurvey;
    var k := |done|;
    assert v.replies[k].Some?;
    var now := done + [Answered(v.replies[k].value)];
    var jump := JumpAfter(v.qs[k], v.replies[k].value, v.respectJumps);
    if jump.JumpTo? && !EndsSurvey(v.qs, jump) {
      var all := now + Jumped(Landing(v.qs, k + 1, jump.target) - (k + 1));
      assert all <= fates;
      assert forall j :: k < j < |all| ==> all[j] == JumpedOver && fates[j] == all[j];
    }
  }

  /** With a reply for everything that is left, the pass comes to an end. */
  lemma {:induction false} RepliesFinish(v: Survey, done: seq<Fate>)
    requires v.Valid() && |done| <= |v.qs| && forall j :: |done| <= j < |v.qs| ==> v.replies[j].Some?
    ensures Rest(v, done).Finished?
    decreases |v.qs| - |done|
  {
    var k := |done|;
    hide Visible, Given, JumpAfter, EndsSurvey;
    if k < |v.qs| {
      RepliesFinish(v, done + [Hidden]);
      var now := done + [Answered(v.replies[k].value)];
      var jump := JumpAfter(v.qs[k], v.replies[k].value, v.respectJumps);
      RepliesFinish(v, now);
      if jump.JumpTo? {
        RepliesFinish(v, now + Jumped(Landing(v.qs, k + 1, jump.target) - (k + 1)));
      }
    }
  }

  /** The last answer to a number decides; here they are all the same. */
  lemma {:induction false} GivenSame(qs: seq<Question>, fates: seq<Fate>, m: nat, a: Action)
    requires m < |fates| <= |qs| && fates[m].Answered?
    requires forall j :: m <= j < |fates| && fates[j].Answered? ==> fates[j] == Answered(a)
    ensures qs[m].num in Given(qs, fates) && Given(qs, fates)[qs[m].num] == a
  {
    if m < |fates| - 1 {
      GivenSame(qs, fates[..|fates| - 1], m, a);
    }
  }

  /** Answering from position m on with a: the same course before, question m answered with a. */
  lemma Redirect(v: Survey, fates: seq<Fate>, early: bool, m: nat, a: Action) returns (fates': seq<Fate>, early': bool)
    requires Takes(v, fates, early) && m < |fates| && fates[m].Answered?
    ensures |fates| <= |v.qs| && Takes(v.(replies := Redirected(v.replies, m, a)), fates', early')
    ensures fates[..m] <= fates' && m < |fates'| && fates'[m].Answered?
    ensures forall j :: m <= j < |fates'| && fates'[j].Answered? ==> fates'[j] == Answered(a)
  {
    var v' := v.(replies := Redirected(v.replies, m, a));
    ReachedFates(v, fates, early, m);
    SameSoFar(v, v'.replies, [], fates, early, m);
    RepliesFinish(v', fates[..m]);
    fates', early' := Rest(v', fates[..m]).fates, Rest(v', fates[..m]).early;
    MetWithReply(v', fates[..m], a);
    CourseIsTheCoherentOne(v', fates', early');
    forall j | m <= j < |fates'| && fates'[j].Answered? ensures fates'[j] == Answered(a) {
      assert FateFits(v', fates', j);
    }
  }

  lemma MetWithReply(v: Survey, done: seq<Fate>, a: Action)
    requires v.Valid() && |done| < |v.qs| && v.replies[|done|] == Some(a)
    requires Visible(v.qs[|done|], Given(v.qs, done)) && Rest(v, done).Finished?
    ensures |done| < |Rest(v, done).fates| && Rest(v, done).fates[|done|] == Answered(a)
  {
    hide Visible, Given, JumpAfter, EndsSurvey;
    assert done + [Answered(a)] <= Rest(v, done).fates;
    assert (done + [Answered(a)])[|done|] == Answered(a);
  }

  /** All groups are met once a late number is answered and the others stay met. */
  lemma AllGroupsMet(q: Question, before: map<int, Action>, after: map<int, Action>, n: int, a: Action)
    requires Names(q, n) && Meets(q, n, a) && n in after && after[n] == a
    requires forall c :: c in q.conditions && Usable(c) && c.source != n ==>
               && GroupIsMet(q, before, c)
               && (c.source in before ==> c.source in after && after[c.source] == before[c.source])
    ensures Visible(q, after)
  {
    hide GroupIsMet;
    forall c | c in q.conditions && Usable(c) ensures GroupIsMet(q, after, c) {
      if c.source == n {
        GroupStaysMet(q, map[n := a], after, c);
      } else {
        GroupStaysMet(q, before, after, c);
      }
    }
  }

  lemma GroupStaysMet(q: Question, before: map<int, Action>, after: map<int, Action>, c: Condition)
    requires Usable(c) && GroupIsMet(q, before, c)
    requires c.source in before ==> c.source in after && after[c.source] == before[c.source]
    ensures GroupIsMet(q, after, c)
  {
    var d :| d in q.conditions && Usable(d) && d.source == c.source && d.mode == c.mode && ConditionIsMet(before, d);
    assert ConditionIsMet(after, d);
  }

  /** Take any course that reaches question k and later answers question m, whose number question k waits for and
      which was not answered before, while all else that k waits for is met. Answering m with an action that
      question k asks for lets the pass outrun the plan. */
  lemma LateAnswerOutruns(v: Survey, fates: seq<Fate>, early: bool, k: nat, m: nat, a: Action)
    returns (fates': seq<Fate>, early': bool)
    requires Takes(v, fates, early) && k < m < |fates| <= |v.qs| && !fates[k].JumpedOver? && fates[m].Answered?
    requires
      var n, given := v.qs[m].num, Given(v.qs, fates[..k]);
      n !in given && Names(v.qs[k], n) && Meets(v.qs[k], n, a) && OthersMet(v.qs, given, k, n)
    ensures
      var v' := v.(replies := Redirected(v.replies, m, a));
      Takes(v', fates', early') && fates[..m] <= fates' && Outruns(v', fates', k)
  {
    fates', early' := Redirect(v, fates, early, m, a);
    assert |fates'| <= |v.qs|;
    assert fates'[..k] == fates[..m][..k] == fates[..k] && fates'[k] == fates[..m][k] == fates[k];
    ReachedFates(v, fates, early, k);
    hide *;
    LateAnswerShows(v.qs, fates', k, m, a);
  }

  lemma LateAnswerShows(qs: seq<Question>, fates: seq<Fate>, k: nat, m: nat, a: Action)
    requires k < m < |fates| <= |qs| && fates[m].Answered?
    requires forall j :: m <= j < |fates| && fates[j].Answered? ==> fates[j] == Answered(a)
    requires
      var n, before := qs[m].num, Given(qs, fates[..k]);
      n !in before && Names(qs[k], n) && Meets(qs[k], n, a) && OthersMet(qs, before, k, n)
    ensures !Visible(qs[k], Given(qs, fates[..k])) && Visible(qs[k], Given(qs, fates))
  {
    var n, before, after := qs[m].num, Given(qs, fates[..k]), Given(qs, fates);
    hide Visible, Given, Meets, GroupIsMet;
    var c :| c in qs[k].conditions && Usable(c) && c.source == n;
    UnansweredHides(qs[k], before, c);
    GivenSame(qs, fates, m, a);
    forall c | c in qs[k].conditions && Usable(c) && c.source != n
      ensures GroupIsMet(qs[k], before, c)
      ensures c.source in before ==> c.source in after && after[c.source] == before[c.source]
    {
      GivenElsewhere(qs, fates, k, c.source);
    }
    AllGroupsMet(qs[k], before, after, n, a);
  }

  // ---- exactly when question k is stable ----

  /** In every course that reaches question k it is answered exactly when it is visible in the end. */
  ghost predicate StableAt(qs: seq<Question>, respectJumps: bool, k: nat)
    requires k < |qs|
  {
    forall replies, fates: seq<Fate>, early :: Takes(Survey(qs, replies, respectJumps), fates, early) && k < |fates| && !fates[k].JumpedOver? ==>
      (fates[k].Answered? <==> Visible(qs[k], Given(qs, fates)))
  }

  /** Some course reaches question k and answers question m. */
  ghost predicate AnswersBehind(qs: seq<Question>, respectJumps: bool, k: nat, m: nat) {
    exists replies, fates: seq<Fate>, early :: Takes(Survey(qs, replies, respectJumps), fates, early)
                                    && k < m < |fates| && !fates[k].JumpedOver? && fates[m].Answered?
  }

  ghost predicate WaitsOnlyFor(q: Question, n: int) {
    Names(q, n) && forall c :: c in q.conditions && Usable(c) ==> c.source == n
  }

  /** For distinct numbers, a question that waits for nothing but the number of a later one, and can be satisfied
      by it, is stable exactly when no course that reaches it answers that later question. */
  lemma StableAtIff(qs: seq<Question>, respectJumps: bool, k: nat, m: nat, a: Action)
    requires k < m < |qs| && Distinct(Numbers(qs))
    requires WaitsOnlyFor(qs[k], qs[m].num) && Meets(qs[k], qs[m].num, a)
    ensures StableAt(qs, respectJumps, k) <==> !AnswersBehind(qs, respectJumps, k, m)
  {
    if AnswersBehind(qs, respectJumps, k, m) {
      UnstableWhenAnswered(qs, respectJumps, k, m, a);
    } else {
      forall replies, fates: seq<Fate>, early | Takes(Survey(qs, replies, respectJumps), fates, early) && k < |fates| && !fates[k].JumpedOver?
        ensures fates[k].Answered? <==> Visible(qs[k], Given(qs, fates))
      {
        StableWhenUnanswered(Survey(qs, replies, respectJumps), fates, early, k, m);
      }
    }
  }

  lemma OthersDiffer(qs: seq<Question>, m: nat)
    requires m < |qs| && Distinct(Numbers(qs))
    ensures forall i :: 0 <= i < |qs| && qs[i].num == qs[m].num ==> i == m
  {
    forall i | 0 <= i < |qs| && qs[i].num == qs[m].num ensures i == m {
      assert Numbers(qs)[i] == Numbers(qs)[m];
    }
  }

  lemma UnstableWhenAnswered(qs: seq<Question>, respectJumps: bool, k: nat, m: nat, a: Action)
    requires k < m < |qs| && Distinct(Numbers(qs)) && AnswersBehind(qs, respectJumps, k, m)
    requires WaitsOnlyFor(qs[k], qs[m].num) && Meets(qs[k], qs[m].num, a)
    ensures !StableAt(qs, respectJumps, k)
  {
    hide Meaning, Visible, Meets, Given;
    var replies, fates: seq<Fate>, early :| Takes(Survey(qs, replies, respectJumps), fates, early)
                                 && k < m < |fates| && !fates[k].JumpedOver? && fates[m].Answered?;
    var v := Survey(qs, replies, respectJumps);
    OthersDiffer(qs, m);
    NotGiven(qs, fates[..k], qs[m].num);
    var fates', early' := LateAnswerOutruns(v, fates, early, k, m, a);
    assert Takes(Survey(qs, Redirected(replies, m, a), respectJumps), fates', early');
  }

  lemma StableWhenUnanswered(v: Survey, fates: seq<Fate>, early: bool, k: nat, m: nat)
    requires Takes(v, fates, early) && k < m < |v.qs| && Distinct(Numbers(v.qs)) && WaitsOnlyFor(v.qs[k], v.qs[m].num)
    requires k < |fates| && !fates[k].JumpedOver? && !AnswersBehind(v.qs, v.respectJumps, k, m)
    ensures fates[k].Answered? <==> Visible(v.qs[k], Given(v.qs, fates))
  {
    ReachedFates(v, fates, early, k);
    OthersDiffer(v.qs, m);
    assert Takes(Survey(v.qs, v.replies, v.respectJumps), fates, early);
    hide Meaning, Visible, Given;
    var c :| c in v.qs[k].conditions && Usable(c) && c.source == v.qs[m].num;
    NotGiven(v.qs, fates[..k], c.source);
    NotGiven(v.qs, fates, c.source);
    UnansweredHides(v.qs[k], Given(v.qs, fates[..k]), c);
    UnansweredHides(v.qs[k], Given(v.qs, fates), c);
  }

  // ---- without jumps in between ----

  /** No answer before position m causes a jump. */
  predicate NoJumpBefore(qs: seq<Question>, respectJumps: bool, m: nat) {
    respectJumps ==> forall i, r :: 0 <= i < m && i < |qs| && r in qs[i].rules ==> !Live(r)
  }

  predicate AlwaysShown(q: Question) {
    !q.hasDisplay && forall c :: c in q.conditions ==> !Usable(c)
  }

  /** Without jumps every position up to m is reached. */
  lemma {:induction false} ReachesAll(v: Survey, done: seq<Fate>, m: nat)
    requires v.Valid() && m < |v.qs| && NoJumpBefore(v.qs, v.respectJumps, m) && |done| <= m
    requires Rest(v, done).Finished? && forall j :: 0 <= j < |done| ==> !done[j].JumpedOver?
    ensures
      var fates := Rest(v, done).fates;
      m < |fates| && (forall j :: 0 <= j < m ==> !fates[j].JumpedOver?)
      && (AlwaysShown(v.qs[m]) ==> fates[m].Answered?)
    decreases m - |done|
  {
    var k := |done|;
    var fates := Rest(v, done).fates;
    if k == m {
      assert forall j :: 0 <= j < m ==> fates[j] == done[j];
      if AlwaysShown(v.qs[m]) {
        MetWithReply(v, done, v.replies[m].value);
      }
    } else {
      if !Visible(v.qs[k], Given(v.qs, done)) {
        ReachesAll(v, done + [Hidden], m);
      } else {
        NoLiveRuleNoJump(v, k, v.replies[k].value);
        ReachesAll(v, done + [Answered(v.replies[k].value)], m);
      }
    }
  }

  lemma NoLiveRuleNoJump(v: Survey, k: nat, a: Action)
    requires k < |v.qs| && (v.respectJumps ==> forall r :: r in v.qs[k].rules ==> !Live(r))
    ensures JumpAfter(v.qs[k], a, v.respectJumps) == NoJump
  {
  }

  /** For distinct numbers, if no jump can come in between, every question that waits for nothing but a later one
      that is always shown is hidden by some pass and visible under its plan. */
  lemma LateSourceOutruns(qs: seq<Question>, respectJumps: bool, k: nat, m: nat, a: Action)
    requires k < m < |qs| && Distinct(Numbers(qs)) && NoJumpBefore(qs, respectJumps, m) && AlwaysShown(qs[m])
    requires WaitsOnlyFor(qs[k], qs[m].num) && Meets(qs[k], qs[m].num, a)
    ensures !StableAt(qs, respectJumps, k)
  {
    var v := Survey(qs, seq(|qs|, _ => Some(a)), respectJumps);
    RepliesFinish(v, []);
    ReachesAll(v, [], m);
    assert Takes(v, Rest(v, []).fates, Rest(v, []).early);
    assert AnswersBehind(qs, respectJumps, k, m);
    UnstableWhenAnswered(qs, respectJumps, k, m, a);
  }

  // ---- accepted surveys with a late source ----

  /** A question with number `num` shown when option 0 of question `source` is chosen. */
  function AskedAfter(num: int, page: int, source: int, flag: bool): Question {
    Question(num, page, false, flag, false, Complete, [Condition(source, SELECTED, [0])], [], [])
  }

  function Plain(num: int, page: int): Question {
    Question(num, page, false, false, false, Complete, [], [], [])
  }

  lemma TwoAccepted(p: Question, q: Question, max: int)
    requires PageThenNumber(p, q) && 0 < p.num <= max && 0 < q.num <= max && (p.num == max || q.num == max)
    requires HasLogic(p) ==> RulesFit(p, max)
    requires !HasLogic(q)
    ensures Ordered([p, q]) == [p, q] && FallbackReason([p, q]) == Accepted
  {
    NumberedFixed([p, q]);
    SortedFixed(PageThenNumber, [p, q]);
    assert [p, q][..1] == [p];
    assert MaxNumber([p, q]) == max;
    AcceptedIff([p, q]);
    hide Ordered, RulesFit, FallbackReason;
  }

  lemma WaitsForSecond(p: Question, q: Question)
    requires p.conditions == [Condition(q.num, SELECTED, [0])] && q == Plain(q.num, q.page) && p.num != q.num > 0
    requires p.rules == []
    ensures !StableAt([p, q], true, 0)
  {
    var c := p.conditions[0];
    assert 0 in c.options;
    var a := SupportedCanBeMet(p, c);
    assert Numbers([p, q]) == [p.num, q.num];
    hide Visible, StableAt, SelectedIndices, ConditionIsMet;
    LateSourceOutruns([p, q], true, 0, 1, a);
  }

  /** Pages against numbers: a question on an earlier page that waits for a smaller number on a later page. Every
      such pair is accepted, and its first question is not stable. */
  lemma PageOrderMatters(n: int, m: int, page: int, later: int) returns (qs: seq<Question>)
    requires 0 < n < m && 0 < page < later
    ensures qs == [AskedAfter(m, page, n, true), Plain(n, later)]
    ensures Ordered(qs) == qs && FallbackReason(qs) == Accepted && forall q :: q in qs ==> FlagsAgree(q)
    ensures !StableAt(qs, true, 0)
  {
    var p, q := AskedAfter(m, page, n, true), Plain(n, later);
    qs := [p, q];
    TwoAccepted(p, q, m);
    hide Ordered, FallbackReason, StableAt;
    WaitsForSecond(p, q);
  }

  /** Flags against lists: a condition that no flag announces is not checked, and may wait for a larger number.
      Every such pair is accepted, and its first question is not stable. */
  lemma FlagsMatter(n: int, m: int, page: int) returns (qs: seq<Question>)
    requires 0 < n < m
    ensures qs == [AskedAfter(n, page, m, false), Plain(m, page)]
    ensures Ordered(qs) == qs && FallbackReason(qs) == Accepted && Increasing(qs)
    ensures !StableAt(qs, true, 0)
  {
    hide Ordered, FallbackReason, RulesFit, StableAt;
    var p, q := AskedAfter(n, page, m, false), Plain(m, page);
    qs := [p, q];
    TwoAccepted(p, q, m);
    WaitsForSecond(p, q);
  }
}
