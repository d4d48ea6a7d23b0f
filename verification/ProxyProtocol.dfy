/** How slots and the prefetch task share the proxy pool: leases are taken, fetched under one lock, used,
    released and recorded. Each step is a stretch of code between two suspension points. */
module ProxyProtocol {
  import opened Wrappers
  import opened Sorting
  import opened ProxyPool

  /** Where a slot is. `Using` covers the request sent through the lease, `Checking` the time after the lease
      was given back and before its success is recorded. */
  datatype Phase =
    | Idle | Waiting | WantsLock | HasLock | Fetching
    | Using(address: Address) | Checking(address: Address)

  datatype Prefetch = Resting | PrefetchWantsLock | PrefetchHasLock | PrefetchFetching

  /** The holder of the fetch lock: a slot, or the prefetch task. */
  datatype Holder = Slot(i: nat) | Prefetcher

  datatype State = State(book: Book, phases: seq<Phase>, prefetch: Prefetch, lock: Option<Holder>, now: real)

  datatype Step =
    | TryPool(i: nat, ttl: nat, later: real)                          // the first look into the pool
    | Cycle(i: nat, ttl: nat, later: real)                            // one turn of the waiting loop
    | TakeLock(i: nat)
    | GiveUp(i: nat)                                                  // the run stops, or the slot does not wait
    | UnderLock(i: nat, ttl: nat, later: real, request: bool)         // the look into the pool under the lock
    | Fetched(i: nat, batch: seq<Item>, ttl: nat, stays: bool)        // the batch arrives; empty when the fetch failed
    | Posted(i: nat)                                                  // the request is over, the lease is given back
    | Checked(i: nat, success: bool)
    | PrefetchStart | PrefetchTakeLock | PrefetchSkip
    | PrefetchRequest
    | PrefetchFetched(batch: seq<Item>, ttl: nat)
    | CoolDown(address: Address, seconds: real)
    | Discard(address: Address)
    | Tick(dt: real)

  function Init(items: seq<Item>, successful: set<Address>, slots: nat): State {
    State(Book(items, map[], successful, map[]), seq(slots, _ => Idle), Resting, None, 0.0)
  }

  predicate At(s: State, i: nat) {
    i < |s.phases|
  }

  predicate Enabled(s: State, step: Step) {
    match step
    case TryPool(i, _, later) => At(s, i) && s.phases[i].Idle? && later >= s.now
    case Cycle(i, _, later) => At(s, i) && s.phases[i].Waiting? && later >= s.now
    case TakeLock(i) => At(s, i) && s.phases[i].WantsLock? && s.lock.None?
    case GiveUp(i) => At(s, i) && (s.phases[i].Waiting? || s.phases[i].WantsLock?)
    case UnderLock(i, _, later, _) => At(s, i) && s.phases[i].HasLock? && later >= s.now
    case Fetched(i, _, _, _) => At(s, i) && s.phases[i].Fetching?
    case Posted(i) => At(s, i) && s.phases[i].Using?
    case Checked(i, _) => At(s, i) && s.phases[i].Checking?
    case PrefetchStart => s.prefetch.Resting?
    case PrefetchTakeLock => s.prefetch.PrefetchWantsLock? && s.lock.None?
    case PrefetchSkip => s.prefetch.PrefetchWantsLock? || s.prefetch.PrefetchHasLock?
    case PrefetchRequest => s.prefetch.PrefetchHasLock?
    case PrefetchFetched(_, _) => s.prefetch.PrefetchFetching?
    case CoolDown(_, _) => true
    case Discard(_) => true
    case Tick(dt) => dt >= 0.0
  }

  function Move(s: State, i: nat, phase: Phase): State
    requires At(s, i)
  {
    s.(phases := s.phases[i := phase])
  }

  /** A lease that was found is marked in use before anything else can happen. */
  function Take(s: State, i: nat, found: Item, book: Book, otherwise: Phase): State
    requires At(s, i)
  {
    if found.Some? then Move(s, i, Using(found.value.address)).(book := MarkedInUse(book, i, found.value))
    else Move(s, i, otherwise).(book := book)
  }

  /** Whatever holds the lock, it is released. */
  function Unlock(s: State): State {
    s.(lock := None)
  }

  function Apply(s: State, step: Step): State
    requires Enabled(s, step)
  {
    match step
    case TryPool(i, ttl, later) =>
      var (found, book) := Popped(s.book, ttl, s.now, later);
      Take(s, i, found, book, Waiting)
    case Cycle(i, ttl, later) =>
      var (found, book) := Popped(s.book, ttl, s.now, later);
      Take(s, i, found, book, if s.lock.Some? then Waiting else WantsLock)
    case TakeLock(i) => Move(s, i, HasLock).(lock := Some(Slot(i)))
    case GiveUp(i) => Move(s, i, Idle)
    case UnderLock(i, ttl, later, request) =>
      var (found, book) := Popped(s.book, ttl, s.now, later);
      var next := Take(s, i, found, book, if request then Fetching else Waiting);
      if found.None? && request then next else Unlock(next)
    case Fetched(i, batch, ttl, stays) =>
      var (found, book) := if |batch| > 0 then Merged(s.book, batch, true, ttl, s.now) else (None, s.book);
      Unlock(Take(s, i, found, book, if stays then Waiting else Idle))
    case Posted(i) => Move(s, i, Checking(s.phases[i].address)).(book := Released(s.book, i))
    case Checked(i, success) =>
      Move(s, i, Idle).(book := if success then Succeeded(s.book, s.phases[i].address) else s.book)
    case PrefetchStart => s.(prefetch := PrefetchWantsLock)
    case PrefetchTakeLock => s.(prefetch := PrefetchHasLock, lock := Some(Prefetcher))
    case PrefetchSkip => if s.prefetch.PrefetchHasLock? then Unlock(s.(prefetch := Resting)) else s.(prefetch := Resting)
    case PrefetchRequest => s.(prefetch := PrefetchFetching)
    case PrefetchFetched(batch, ttl) =>
      var book := if |batch| > 0 then Merged(s.book, batch, false, ttl, s.now).1 else s.book;
      Unlock(s.(prefetch := Resting, book := book))
    case CoolDown(a, seconds) => s.(book := Discarded(Cooled(s.book, a, seconds, s.now), a))
    case Discard(a) => s.(book := Discarded(s.book, a))
    case Tick(dt) => s.(now := s.now + dt)
  }

  function Exec(s: State, steps: seq<Step>): Option<State> {
    if |steps| == 0 then Some(s)
    else
      var before, last := Exec(s, steps[..|steps| - 1]), steps[|steps| - 1];
      if before.Some? && Enabled(before.value, last) then Some(Apply(before.value, last)) else None
  }

  // ---- invariants ----

  /** The in-use map is exactly what the slots hold, and no address is held twice. */
  ghost predicate Exclusive(s: State) {
    && (forall i: nat :: i in s.book.inUse <==> i < |s.phases| && s.phases[i].Using?)
    && (forall i: nat :: i in s.book.inUse ==> s.book.inUse[i].address == s.phases[i].address)
    && (forall i: nat, j: nat :: i in s.book.inUse && j in s.book.inUse && i != j ==> s.book.inUse[i].address != s.book.inUse[j].address)
  }

  predicate HoldsLock(s: State, h: Holder) {
    match h
    case Slot(i) => i < |s.phases| && (s.phases[i].HasLock? || s.phases[i].Fetching?)
    case Prefetcher => s.prefetch.PrefetchHasLock? || s.prefetch.PrefetchFetching?
  }

  /** Whoever is past the lock is the one who holds it. */
  ghost predicate LockHeld(s: State) {
    forall h {:trigger HoldsLock(s, h)} :: HoldsLock(s, h) ==> s.lock == Some(h)
  }

  /** A found lease goes to nobody who would share it. */
  ghost predicate Untaken(b: Book, found: Item) {
    found.Some? ==> found.value.address !in Blocked(b)
  }

  lemma PoppedSafe(b: Book, ttl: nat, now: real, later: real)
    ensures
      var (found, book) := Popped(b, ttl, now, later);
      && book.inUse == b.inUse && book.successful == b.successful && Untaken(b, found)
  {
  }

  lemma MergedSafe(b: Book, batch: seq<Item>, selectFirst: bool, ttl: nat, now: real)
    ensures
      var (found, book) := Merged(b, batch, selectFirst, ttl, now);
      && book.inUse == b.inUse && book.successful == b.successful && Untaken(b, found)
      && PoolDistinct(book.pool)
  {
    var m := MergeStart(b, ttl, now);
    MergeAllSafe(b, m, batch, selectFirst, ttl, now);
  }

  lemma TakeExclusive(s: State, i: nat, found: Item, book: Book, otherwise: Phase)
    requires Exclusive(s) && At(s, i) && !s.phases[i].Using? && !otherwise.Using?
    requires book.inUse == s.book.inUse && book.successful == s.book.successful && Untaken(s.book, found)
    ensures Exclusive(Take(s, i, found, book, otherwise))
  {
    if found.Some? {
      forall j: nat | j in s.book.inUse ensures s.book.inUse[j].address != found.value.address {
        assert s.book.inUse[j].address in ActiveAddresses(s.book);
      }
    }
  }

  lemma PopExclusive(s: State, i: nat, ttl: nat, later: real, otherwise: Phase)
    requires Exclusive(s) && At(s, i) && !s.phases[i].Using? && !otherwise.Using?
    ensures
      var (found, book) := Popped(s.book, ttl, s.now, later);
      Exclusive(Take(s, i, found, book, otherwise))
  {
    PoppedSafe(s.book, ttl, s.now, later);
    hide Popped, Exclusive, Untaken, Take;
    var (found, book) := Popped(s.book, ttl, s.now, later);
    TakeExclusive(s, i, found, book, otherwise);
  }

  lemma FetchExclusive(s: State, i: nat, batch: seq<Item>, ttl: nat, otherwise: Phase)
    requires Exclusive(s) && At(s, i) && !s.phases[i].Using? && !otherwise.Using?
    ensures
      var (found, book) := if |batch| > 0 then Merged(s.book, batch, true, ttl, s.now) else (None, s.book);
      Exclusive(Take(s, i, found, book, otherwise))
  {
    MergedSafe(s.book, batch, true, ttl, s.now);
    hide Merged, Exclusive, Take;
    var (found, book) := if |batch| > 0 then Merged(s.book, batch, true, ttl, s.now) else (None, s.book);
    TakeExclusive(s, i, found, book, otherwise);
  }

  lemma UnlockExclusive(s: State)
    requires Exclusive(s)
    ensures Exclusive(Unlock(s))
  {
  }

  lemma UnderLockExclusive(s: State, step: Step)
    requires Exclusive(s) && Enabled(s, step) && step.UnderLock?
    ensures Exclusive(Apply(s, step))
  {
    var otherwise := if step.request then Fetching else Waiting;
    PopExclusive(s, step.i, step.ttl, step.later, otherwise);
    hide Popped, Exclusive, Take;
    var (found, book) := Popped(s.book, step.ttl, s.now, step.later);
    UnlockExclusive(Take(s, step.i, found, book, otherwise));
  }

  lemma ExclusiveStep(s: State, step: Step)
    requires Exclusive(s) && Enabled(s, step)
    ensures Exclusive(Apply(s, step))
  {
    hide Popped, Merged, Take;
    match step
    case TryPool(i, ttl, later) =>
      hide Exclusive;
      PopExclusive(s, i, ttl, later, Waiting);
    case Cycle(i, ttl, later) =>
      hide Exclusive;
      PopExclusive(s, i, ttl, later, if s.lock.Some? then Waiting else WantsLock);
    case UnderLock(i, ttl, later, request) =>
      hide Exclusive;
      UnderLockExclusive(s, step);
    case Fetched(i, batch, ttl, stays) =>
      FetchExclusive(s, i, batch, ttl, if stays then Waiting else Idle);
      var (found, book) := if |batch| > 0 then Merged(s.book, batch, true, ttl, s.now) else (None, s.book);
      UnlockExclusive(Take(s, i, found, book, if stays then Waiting else Idle));
    case PrefetchFetched(batch, ttl) => MergedSafe(s.book, batch, false, ttl, s.now);
    case _ =>
  }

  lemma UnderLockKeeps(s: State, step: Step)
    requires Enabled(s, step) && step.UnderLock?
    ensures Apply(s, step).phases[step.i].Fetching? ==> Apply(s, step).lock == s.lock
    ensures !Apply(s, step).phases[step.i].HasLock?
  {
    hide Popped;
    var (found, book) := Popped(s.book, step.ttl, s.now, step.later);
    assert Apply(s, step).phases[step.i].Fetching? ==> found.None? && step.request;
  }

  lemma LockStep(s: State, step: Step)
    requires LockHeld(s) && Enabled(s, step)
    ensures LockHeld(Apply(s, step))
  {
    hide Popped, Merged;
    var s' := Apply(s, step);
    if step.UnderLock? {
      UnderLockKeeps(s, step);
    }
    if step.UnderLock? || step.Fetched? {
      assert HoldsLock(s, Slot(step.i));
    }
    if s.prefetch.PrefetchHasLock? || s.prefetch.PrefetchFetching? {
      assert HoldsLock(s, Prefetcher);
    }
    forall h | HoldsLock(s', h) ensures s'.lock == Some(h) {
      assert h != Prefetcher || !step.PrefetchTakeLock? ==> HoldsLock(s, h) || (step.TakeLock? && h == Slot(step.i));
    }
  }

  lemma {:induction false} RunInvariants(s: State, steps: seq<Step>)
    requires Exclusive(s) && LockHeld(s) && Exec(s, steps).Some?
    ensures Exclusive(Exec(s, steps).value) && LockHeld(Exec(s, steps).value)
    ensures s.book.successful <= Exec(s, steps).value.book.successful
  {
    hide Exclusive, LockHeld;
    if |steps| > 0 {
      var before, last := Exec(s, steps[..|steps| - 1]).value, steps[|steps| - 1];
      RunInvariants(s, steps[..|steps| - 1]);
      ExclusiveStep(before, last);
      LockStep(before, last);
      SuccessesStay(before, last);
      hide Enabled, Apply;
    }
  }

  lemma SuccessesStay(s: State, step: Step)
    requires Enabled(s, step)
    ensures s.book.successful <= Apply(s, step).book.successful
  {
    RecordsOne(s, step);
    hide Apply;
  }

  lemma InitInvariants(items: seq<Item>, successful: set<Address>, slots: nat)
    ensures Exclusive(Init(items, successful, slots)) && LockHeld(Init(items, successful, slots))
  {
  }

  // ---- the guarantees of a run ----

  /** Two slots never send through the same address, and the in-use map says who holds what. */
  lemma LeasesAreExclusive(items: seq<Item>, successful: set<Address>, slots: nat, steps: seq<Step>, s: State)
    requires Exec(Init(items, successful, slots), steps) == Some(s)
    ensures forall i: nat, j: nat :: i < j < |s.phases| && s.phases[i].Using? && s.phases[j].Using? ==>
              s.phases[i].address != s.phases[j].address
    ensures forall i: nat :: i < |s.phases| && s.phases[i].Using? ==>
              i in s.book.inUse && s.book.inUse[i].address == s.phases[i].address
  {
    InitInvariants(items, successful, slots);
    RunInvariants(Init(items, successful, slots), steps);
    hide Exec;
  }

  predicate OutstandingFetch(s: State, h: Holder) {
    match h
    case Slot(i) => i < |s.phases| && s.phases[i].Fetching?
    case Prefetcher => s.prefetch.PrefetchFetching?
  }

  /** At most one fetch is outstanding, and whoever fetches holds the lock. */
  lemma OneFetchAtATime(items: seq<Item>, successful: set<Address>, slots: nat, steps: seq<Step>, s: State, h: Holder, k: Holder)
    requires Exec(Init(items, successful, slots), steps) == Some(s)
    requires OutstandingFetch(s, h) && OutstandingFetch(s, k)
    ensures h == k && s.lock == Some(h)
  {
    InitInvariants(items, successful, slots);
    RunInvariants(Init(items, successful, slots), steps);
    hide Exec;
    assert HoldsLock(s, h) && HoldsLock(s, k);
  }

  /** The slot gets a lease in this step. */
  predicate Leases(s: State, step: Step, i: nat)
    requires Enabled(s, step)
  {
    At(s, i) && !s.phases[i].Using? && At(Apply(s, step), i) && Apply(s, step).phases[i].Using?
  }

  /** No step leases an address that is in use at that moment or already recorded as successful. */
  lemma LeaseIsUntaken(s: State, step: Step, i: nat)
    requires Enabled(s, step) && Leases(s, step, i)
    ensures Apply(s, step).phases[i].address !in Blocked(s.book)
  {
    hide Popped, Merged, Blocked;
    match step
    case TryPool(j, ttl, later) => PoppedSafe(s.book, ttl, s.now, later);
    case Cycle(j, ttl, later) => PoppedSafe(s.book, ttl, s.now, later);
    case UnderLock(j, ttl, later, _) => PoppedSafe(s.book, ttl, s.now, later);
    case Fetched(j, batch, ttl, _) => MergedSafe(s.book, batch, true, ttl, s.now);
    case _ =>
  }

  /** Over a whole run: once an address is recorded as successful, it is never leased again. */
  lemma SuccessfulNeverLeasedAgain(s: State, steps: seq<Step>, step: Step, i: nat)
    requires Exclusive(s) && LockHeld(s)
    requires Exec(s, steps).Some? && Enabled(Exec(s, steps).value, step) && Leases(Exec(s, steps).value, step, i)
    ensures Apply(Exec(s, steps).value, step).phases[i].address !in s.book.successful
  {
    RunInvariants(s, steps);
    LeaseIsUntaken(Exec(s, steps).value, step, i);
    hide Exec, Apply;
  }

  // ---- when an address in use is never recorded as successful ----

  ghost predicate Sends(s: State, i: nat, a: Address) {
    At(s, i) && s.phases[i] == Using(a)
  }

  ghost predicate Checks(s: State, i: nat, a: Address) {
    At(s, i) && s.phases[i] == Checking(a)
  }

  /** Nobody sends through an address that is recorded as successful. */
  ghost predicate Clean(s: State) {
    forall i: nat, a :: Sends(s, i, a) ==> a !in s.book.successful
  }

  /** Clean now, and still clean whichever pending check turns out a success. */
  ghost predicate Settled(s: State) {
    Clean(s) && forall j: nat :: At(s, j) && s.phases[j].Checking? ==> Clean(Apply(s, Checked(j, true)))
  }

  ghost predicate Apart(s: State) {
    forall i: nat, j: nat, a :: Sends(s, i, a) ==> !Checks(s, j, a)
  }

  /** The step leases an address whose last request some slot is still checking. */
  ghost predicate LeasesChecked(s: State, step: Step)
    requires Enabled(s, step)
  {
    exists i: nat, j: nat :: Leases(s, step, i) && Checks(s, j, Apply(s, step).phases[i].address)
  }

  lemma SettledIff(s: State)
    ensures Settled(s) <==> Clean(s) && Apart(s)
  {
    if Settled(s) {
      forall i: nat, j: nat, a | Sends(s, i, a) ensures !Checks(s, j, a) {
        if Checks(s, j, a) {
          assert Sends(Apply(s, Checked(j, true)), i, a);
        }
      }
    }
    if Clean(s) && Apart(s) {
      forall j: nat | At(s, j) && s.phases[j].Checking? ensures Clean(Apply(s, Checked(j, true))) {
        var a := s.phases[j].address;
        assert Checks(s, j, a);
        forall i: nat, b | Sends(Apply(s, Checked(j, true)), i, b) ensures b !in s.book.successful + {a} {
          assert Sends(s, i, b);
        }
      }
    }
  }

  predicate LooksForLease(step: Step) {
    step.TryPool? || step.Cycle? || step.UnderLock? || step.Fetched?
  }

  /** What a step does to the phase of slot i. */
  lemma PhaseMoves(s: State, step: Step, i: nat)
    requires Enabled(s, step) && At(s, i)
    ensures
      var s' := Apply(s, step);
      && At(s', i)
      && (s'.phases[i].Using? ==> s'.phases[i] == s.phases[i] || (Leases(s, step, i) && LooksForLease(step)))
      && (s'.phases[i].Checking? ==> s'.phases[i] == s.phases[i] || (step == Posted(i) && Sends(s, i, s'.phases[i].address)))
  {
    hide Popped, Merged;
  }

  lemma SuccessMoves(s: State, step: Step, a: Address)
    requires Enabled(s, step) && a in Apply(s, step).book.successful && a !in s.book.successful
    ensures step.Checked? && Checks(s, step.i, a)
  {
    RecordsOne(s, step);
    hide Apply;
  }

  lemma SlotsStay(s: State, step: Step)
    requires Enabled(s, step)
    ensures |Apply(s, step).phases| == |s.phases|
  {
    hide Popped, Merged;
  }

  lemma ApartStep(s: State, step: Step)
    requires Exclusive(s) && Apart(s) && Enabled(s, step) && !LeasesChecked(s, step)
    ensures Apart(Apply(s, step))
  {
    var s' := Apply(s, step);
    SlotsStay(s, step);
    SendersDiffer(s);
    forall i: nat, j: nat, a | Sends(s', i, a) ensures !Checks(s', j, a) {
      PhaseMoves(s, step, i);
      if At(s, j) {
        PhaseMoves(s, step, j);
      }
      hide Apply, Enabled, Exclusive;
      assert Sends(s, i, a) || (Leases(s, step, i) && LooksForLease(step));
      assert Checks(s', j, a) ==> Checks(s, j, a) || (step == Posted(j) && Sends(s, j, a));
    }
  }

  lemma SendersDiffer(s: State)
    requires Exclusive(s)
    ensures forall i: nat, j: nat, a :: Sends(s, i, a) && Sends(s, j, a) ==> i == j
  {
    assert forall i: nat, a :: Sends(s, i, a) ==> i in s.book.inUse;
  }

  lemma CleanStep(s: State, step: Step)
    requires Clean(s) && Apart(s) && Enabled(s, step)
    ensures Clean(Apply(s, step))
  {
    var s' := Apply(s, step);
    SlotsStay(s, step);
    forall i: nat, a | Sends(s', i, a) ensures a !in s'.book.successful {
      PhaseMoves(s, step, i);
      if Leases(s, step, i) && LooksForLease(step) {
        LeaseIsUntaken(s, step, i);
      } else {
        assert Sends(s, i, a);
      }
      if a in s'.book.successful && a !in s.book.successful {
        SuccessMoves(s, step, a);
      }
    }
  }

  /** A step that leases an address under check leads, with the success of that check, to an address in use that is
      recorded as successful. */
  lemma CheckedLeaseUnsettles(s: State, step: Step)
    requires Enabled(s, step) && LeasesChecked(s, step)
    ensures !Settled(Apply(s, step))
  {
    var i: nat, j: nat :| Leases(s, step, i) && Checks(s, j, Apply(s, step).phases[i].address);
    var s', a := Apply(s, step), Apply(s, step).phases[i].address;
    StillChecking(s, step, i, j);
    SettledIff(s');
    assert Sends(s', i, a) && Checks(s', j, a);
  }

  lemma StillChecking(s: State, step: Step, i: nat, j: nat)
    requires Enabled(s, step) && Leases(s, step, i) && At(s, j) && s.phases[j].Checking?
    ensures At(Apply(s, step), j) && Apply(s, step).phases[j] == s.phases[j]
  {
    hide Popped, Merged;
  }

  lemma {:induction false} PrefixRuns(s: State, steps: seq<Step>, k: nat)
    requires k <= |steps| && Exec(s, steps).Some?
    ensures Exec(s, steps[..k]).Some?
    ensures k < |steps| ==> && Enabled(Exec(s, steps[..k]).value, steps[k])
                            && Exec(s, steps[..k + 1]) == Some(Apply(Exec(s, steps[..k]).value, steps[k]))
  {
    hide Enabled, Apply;
    if |steps| > 0 {
      var n := |steps| - 1;
      if k < n {
        PrefixRuns(s, steps[..n], k);
        assert steps[..n][..k] == steps[..k] && steps[..n][..k + 1] == steps[..k + 1];
      } else if k == n {
        assert steps[..k + 1] == steps;
      } else {
        assert steps[..k] == steps;
      }
    }
  }

  /** The state before step k of a run. */
  function Before(s: State, steps: seq<Step>, k: nat): State
    requires k <= |steps| && Exec(s, steps).Some?
  {
    PrefixRuns(s, steps, k);
    Exec(s, steps[..k]).value
  }

  ghost predicate LeasesCheckedAt(s: State, steps: seq<Step>, k: nat)
    requires k < |steps| && Exec(s, steps).Some?
  {
    PrefixRuns(s, steps, k);
    LeasesChecked(Before(s, steps, k), steps[k])
  }

  ghost predicate Quiet(s: State) {
    Exclusive(s) && LockHeld(s) && Clean(s) && Apart(s)
  }

  lemma QuietStep(s: State, step: Step)
    requires Quiet(s) && Enabled(s, step) && !LeasesChecked(s, step)
    ensures Quiet(Apply(s, step))
  {
    ExclusiveStep(s, step);
    LockStep(s, step);
    ApartStep(s, step);
    CleanStep(s, step);
    hide Apply, Enabled, Exclusive, LockHeld, Clean, Apart;
  }

  lemma {:induction false} QuietUpTo(s: State, steps: seq<Step>, k: nat)
    requires Quiet(s) && k <= |steps| && Exec(s, steps).Some?
    requires forall m: nat :: m < |steps| ==> !LeasesCheckedAt(s, steps, m)
    ensures Quiet(Before(s, steps, k))
  {
    hide Quiet, LeasesChecked, Enabled, Apply;
    PrefixRuns(s, steps, k);
    if k > 0 {
      QuietUpTo(s, steps, k - 1);
      PrefixRuns(s, steps, k - 1);
      assert !LeasesCheckedAt(s, steps, k - 1);
      QuietStep(Before(s, steps, k - 1), steps[k - 1]);
    }
  }

  /** In every state of a run nobody sends, or would send after any pending check, through an address recorded as
      successful, exactly when no step of the run leases an address that some slot is then checking. */
  lemma SuccessfulStaysUnusedIff(items: seq<Item>, successful: set<Address>, slots: nat, steps: seq<Step>)
    requires Exec(Init(items, successful, slots), steps).Some?
    ensures
      var s := Init(items, successful, slots);
      (forall k: nat :: k <= |steps| ==> Settled(Before(s, steps, k))) <==> (forall k: nat :: k < |steps| ==> !LeasesCheckedAt(s, steps, k))
  {
    var s := Init(items, successful, slots);
    InitInvariants(items, successful, slots);
    assert Quiet(s);
    hide Exec, Init, Settled, Clean, Apart, Exclusive, LockHeld, LeasesChecked, Apply, Enabled;
    if forall k: nat :: k < |steps| ==> !LeasesCheckedAt(s, steps, k) {
      forall k: nat | k <= |steps| ensures Settled(Before(s, steps, k)) {
        QuietUpTo(s, steps, k);
        SettledIff(Before(s, steps, k));
      }
    }
    if forall k: nat :: k <= |steps| ==> Settled(Before(s, steps, k)) {
      forall k: nat | k < |steps| ensures !LeasesCheckedAt(s, steps, k) {
        PrefixRuns(s, steps, k);
        assert Settled(Before(s, steps, k + 1));
        if LeasesCheckedAt(s, steps, k) {
          CheckedLeaseUnsettles(Before(s, steps, k), steps[k]);
        }
      }
    }
  }

  // ---- addresses that are put aside ----

  /** An address put aside leaves the pool with all its leases, and nothing else leaves it; a cooldown makes it wait,
      besides, for at least the time asked for. */
  lemma PutAside(s: State, step: Step, a: Address)
    requires step == Discard(a) || (step.CoolDown? && step.address == a)
    ensures
      var s' := Apply(s, step);
      && (forall l :: Some(l) in s'.book.pool <==> Some(l) in s.book.pool && l.address != a)
      && (step.CoolDown? && step.seconds > 0.0 ==>
            a in s'.book.cooldowns && s'.book.cooldowns[a] >= s.now + step.seconds)
      && s'.book.inUse == s.book.inUse && s'.book.successful == s.book.successful
  {
    WithoutAddressIs(s.book.pool, a);
  }

  // ---- what the run has recorded ----

  /** The addresses whose check came out as a success in the run. */
  function Recorded(s: State, steps: seq<Step>): set<Address>
    requires Exec(s, steps).Some?
  {
    if |steps| == 0 then {}
    else
      var front, last := steps[..|steps| - 1], steps[|steps| - 1];
      Recorded(s, front) + if last.Checked? && last.success then {Exec(s, front).value.phases[last.i].address} else {}
  }

  lemma RecordsOne(s: State, step: Step)
    requires Enabled(s, step)
    ensures Apply(s, step).book.successful
         == s.book.successful + if step.Checked? && step.success then {s.phases[step.i].address} else {}
  {
    hide Popped, Merged;
    match step
    case TryPool(i, ttl, later) => PoppedSafe(s.book, ttl, s.now, later);
    case Cycle(i, ttl, later) => PoppedSafe(s.book, ttl, s.now, later);
    case UnderLock(i, ttl, later, _) => PoppedSafe(s.book, ttl, s.now, later);
    case Fetched(i, batch, ttl, _) => MergedSafe(s.book, batch, true, ttl, s.now);
    case PrefetchFetched(batch, ttl) => MergedSafe(s.book, batch, false, ttl, s.now);
    case _ =>
  }

  /** Over every run, the addresses recorded as successful are those given at the start and those whose check
      succeeded; nothing else is recorded and nothing is lost. */
  lemma {:induction false} SuccessesAreHistory(s: State, steps: seq<Step>)
    requires Exec(s, steps).Some?
    ensures Exec(s, steps).value.book.successful == s.book.successful + Recorded(s, steps)
  {
    if |steps| > 0 {
      SuccessesAreHistory(s, steps[..|steps| - 1]);
      RecordsOne(Exec(s, steps[..|steps| - 1]).value, steps[|steps| - 1]);
      hide Apply;
    }
  }

  // ---- the pool stays free of duplicates ----

  predicate Purges(step: Step) {
    step.TryPool? || step.Cycle? || step.UnderLock?
    || (step.Fetched? && |step.batch| > 0) || (step.PrefetchFetched? && |step.batch| > 0)
  }

  lemma PoppedDistinct(b: Book, ttl: nat, now: real, later: real)
    ensures PoolDistinct(Popped(b, ttl, now, later).1.pool)
  {
    var purged := Purged(b, ttl, now);
    assert forall j :: 0 <= j < |purged.pool| ==> purged.pool[j] == Some(Kept(b, b.pool, ttl, now)[j]);
    hide Kept, Blocked;
  }

  lemma {:induction false} WithoutAddressDistinct(pool: seq<Item>, a: Address)
    requires PoolDistinct(pool)
    ensures PoolDistinct(WithoutAddress(pool, a))
    ensures forall x :: x in WithoutAddress(pool, a) ==> x in pool
  {
    if |pool| > 0 {
      var n := |pool| - 1;
      var kept := WithoutAddress(pool[..n], a);
      WithoutAddressDistinct(pool[..n], a);
      forall k | 0 <= k < |kept| && kept[k].Some? && pool[n].Some? ensures kept[k].value.address != pool[n].value.address {
        assert kept[k] in pool[..n];
      }
    }
  }

  /** A step that purges leaves the pool with one lease per address; every other step keeps it so. */
  lemma PoolStaysDistinct(s: State, step: Step)
    requires Enabled(s, step)
    ensures Purges(step) || PoolDistinct(s.book.pool) ==> PoolDistinct(Apply(s, step).book.pool)
  {
    hide Popped, Merged, PoolDistinct;
    match step
    case TryPool(i, ttl, later) => PoppedDistinct(s.book, ttl, s.now, later);
    case Cycle(i, ttl, later) => PoppedDistinct(s.book, ttl, s.now, later);
    case UnderLock(i, ttl, later, _) => PoppedDistinct(s.book, ttl, s.now, later);
    case Fetched(i, batch, ttl, _) => MergedSafe(s.book, batch, true, ttl, s.now);
    case PrefetchFetched(batch, ttl) => MergedSafe(s.book, batch, false, ttl, s.now);
    case CoolDown(a, _) => if PoolDistinct(s.book.pool) { WithoutAddressDistinct(s.book.pool, a); }
    case Discard(a) => if PoolDistinct(s.book.pool) { WithoutAddressDistinct(s.book.pool, a); }
    case _ =>
  }

  // ---- a released lease can come back before its success is recorded ----

  function Plain(pool: seq<Item>, inUse: map<nat, Lease>, successful: set<Address>): Book {
    Book(pool, inUse, successful, map[])
  }

  function Endless(a: Address): Lease {
    Lease(a, 0.0, true)
  }

  lemma PopOne(a: Address)
    ensures Popped(Plain([Some(Endless(a))], map[], {}), 0, 0.0, 0.0) == (Some(Endless(a)), Plain([], map[], {}))
  {
    var pool := [Some(Endless(a))];
    var b := Plain(pool, map[], {});
    assert pool[..0] == [];
    assert Kept(b, pool, 0, 0.0) == [Endless(a)];
    assert Expire(map[], 0.0) == map[];
    assert AsItems([Endless(a)]) == pool;
    assert Purged(b, 0, 0.0) == b;
    assert FirstFree(b, Blocked(b), pool, 0, 0.0) == 0;
    assert pool[1..] == [];
  }

  lemma PopNone()
    ensures Popped(Plain([], map[], {}), 0, 0.0, 0.0) == (None, Plain([], map[], {}))
  {
    var b := Plain([], map[], {});
    assert Expire(map[], 0.0) == map[];
    assert Kept(b, [], 0, 0.0) == [];
    assert Purged(b, 0, 0.0) == b;
  }

  lemma MergeFresh(a: Address)
    ensures Merged(Plain([], map[], {}), [Some(Endless(a))], true, 0, 0.0) == (Some(Endless(a)), Plain([], map[], {}))
  {
    var b := Plain([], map[], {});
    assert Expire(map[], 0.0) == map[];
    assert Kept(b, [], 0, 0.0) == [];
    var m := MergeStart(b, 0, 0.0);
    assert [Some(Endless(a))][..0] == [];
    assert MergeAll(b, m, [Some(Endless(a))], true, 0, 0.0) == MergeOne(b, m, Some(Endless(a)), true, 0, 0.0);
  }

  lemma Then(s: State, steps: seq<Step>, step: Step, next: State)
    requires Exec(s, steps).Some? && Enabled(Exec(s, steps).value, step) && Apply(Exec(s, steps).value, step) == next
    ensures Exec(s, steps + [step]) == Some(next)
  {
    assert (steps + [step])[..|steps|] == steps;
  }

  function Two(book: Book, first: Phase, second: Phase, lock: Option<Holder>): State {
    State(book, [first, second], Resting, lock, 0.0)
  }

  /** The steps of `ReleasedLeaseReturns`, one by one. */
  lemma ReturnSteps(a: Address)
    ensures
      var free, busy := Plain([], map[], {}), Plain([], map[0 := Endless(a)], {});
      var s0 := Two(Plain([Some(Endless(a))], map[], {}), Idle, Idle, None);
      var s1 := Two(busy, Using(a), Idle, None);
      var s2 := Two(free, Checking(a), Idle, None);
      && Enabled(s0, TryPool(0, 0, 0.0)) && Apply(s0, TryPool(0, 0, 0.0)) == s1
      && Enabled(s1, Posted(0)) && Apply(s1, Posted(0)) == s2
      && Enabled(s2, TryPool(1, 0, 0.0)) && Apply(s2, TryPool(1, 0, 0.0)) == Two(free, Checking(a), Waiting, None)
  {
    PopOne(a);
    PopNone();
    hide Popped;
    assert map[0 := Endless(a)] - {0} == map[];
  }

  lemma FetchSteps(a: Address)
    ensures
      var free, holder := Plain([], map[], {}), Some(Slot(1));
      var s3 := Two(free, Checking(a), Waiting, None);
      var s4 := Two(free, Checking(a), WantsLock, None);
      var s5 := Two(free, Checking(a), HasLock, holder);
      var s6 := Two(free, Checking(a), Fetching, holder);
      && Enabled(s3, Cycle(1, 0, 0.0)) && Apply(s3, Cycle(1, 0, 0.0)) == s4
      && Enabled(s4, TakeLock(1)) && Apply(s4, TakeLock(1)) == s5
      && Enabled(s5, UnderLock(1, 0, 0.0, true)) && Apply(s5, UnderLock(1, 0, 0.0, true)) == s6
  {
    PopNone();
    hide Popped;
  }

  lemma SharingSteps(a: Address)
    ensures
      var again := map[1 := Endless(a)];
      var batch := [Some(Endless(a))];
      var s6 := Two(Plain([], map[], {}), Checking(a), Fetching, Some(Slot(1)));
      var s7 := Two(Plain([], again, {}), Checking(a), Using(a), None);
      && Enabled(s6, Fetched(1, batch, 0, true)) && Apply(s6, Fetched(1, batch, 0, true)) == s7
      && Enabled(s7, Checked(0, true)) && Apply(s7, Checked(0, true)) == Two(Plain([], again, {a}), Idle, Using(a), None)
  {
    MergeFresh(a);
    hide Merged;
  }

  /** A lease is given back before the answer to its request is checked; a fetch in between can bring the same
      address back, so that it is recorded as successful while another slot sends through it. */
  lemma ReleasedLeaseReturns(a: Address) returns (steps: seq<Step>, s: State)
    ensures Exec(Init([Some(Endless(a))], {}, 2), steps) == Some(s)
    ensures s.phases == [Idle, Using(a)] && a in s.book.successful
  {
    var s0 := Init([Some(Endless(a))], {}, 2);
    var free, again := Plain([], map[], {}), map[1 := Endless(a)];
    assert s0 == Two(Plain([Some(Endless(a))], map[], {}), Idle, Idle, None) by { assert s0.phases == [Idle, Idle]; }
    s := Two(Plain([], again, {a}), Idle, Using(a), None);
    ReturnSteps(a);
    FetchSteps(a);
    SharingSteps(a);
    assert Exec(s0, []) == Some(s0);
    hide Exec, Apply, Enabled, Init;
    steps := [];
    Then(s0, steps, TryPool(0, 0, 0.0), Two(Plain([], map[0 := Endless(a)], {}), Using(a), Idle, None));
    steps := steps + [TryPool(0, 0, 0.0)];
    Then(s0, steps, Posted(0), Two(free, Checking(a), Idle, None));
    steps := steps + [Posted(0)];
    Then(s0, steps, TryPool(1, 0, 0.0), Two(free, Checking(a), Waiting, None));
    steps := steps + [TryPool(1, 0, 0.0)];
    Then(s0, steps, Cycle(1, 0, 0.0), Two(free, Checking(a), WantsLock, None));
    steps := steps + [Cycle(1, 0, 0.0)];
    Then(s0, steps, TakeLock(1), Two(free, Checking(a), HasLock, Some(Slot(1))));
    steps := steps + [TakeLock(1)];
    Then(s0, steps, UnderLock(1, 0, 0.0, true), Two(free, Checking(a), Fetching, Some(Slot(1))));
    steps := steps + [UnderLock(1, 0, 0.0, true)];
    Then(s0, steps, Fetched(1, [Some(Endless(a))], 0, true), Two(Plain([], again, {}), Checking(a), Using(a), None));
    steps := steps + [Fetched(1, [Some(Endless(a))], 0, true)];
    Then(s0, steps, Checked(0, true), s);
    steps := steps + [Checked(0, true)];
  }
}
