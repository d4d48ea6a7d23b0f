/** The shared pool of proxy leases: which leases are kept, handed out, merged in, and blocked. */
module ProxyPool {
  import opened Wrappers
  import opened Sorting

  type Address = string

  /** An `expires` of 0 or less means that the lease does not expire. */
  datatype Lease = Lease(address: Address, expires: real, poolable: bool)

  /** An entry of the pool or of a fetched batch; none when it cannot be read as a lease. */
  type Item = Option<Lease>

  /** Slots are numbered; `inUse` maps a slot to the lease it holds. */
  datatype Book = Book(pool: seq<Item>, inUse: map<nat, Lease>, successful: set<Address>, cooldowns: map<Address, real>)

  function ActiveAddresses(b: Book): set<Address> {
    set i | i in b.inUse :: b.inUse[i].address
  }

  function Blocked(b: Book): set<Address> {
    ActiveAddresses(b) + b.successful
  }

  predicate Cooling(b: Book, a: Address, now: real) {
    a in b.cooldowns && b.cooldowns[a] > now
  }

  predicate Lasting(l: Lease, ttl: nat, now: real) {
    l.expires <= 0.0 || l.expires - now >= ttl as real
  }

  predicate Sound(b: Book, l: Lease, ttl: nat, now: real) {
    Lasting(l, ttl, now) && !Cooling(b, l.address, now)
  }

  function AddressesOf(leases: seq<Lease>): set<Address> {
    set i | 0 <= i < |leases| :: leases[i].address
  }

  ghost predicate DistinctAddresses(leases: seq<Lease>) {
    forall i, j :: 0 <= i < j < |leases| ==> leases[i].address != leases[j].address
  }

  function AsItems(leases: seq<Lease>): (r: seq<Item>)
    ensures |r| == |leases| && forall i {:trigger r[i]} :: 0 <= i < |r| ==> r[i] == Some(leases[i])
  {
    seq(|leases|, i requires 0 <= i < |leases| => Some(leases[i]))
  }

  lemma AddressesGrow(leases: seq<Lease>, l: Lease)
    ensures AddressesOf(leases + [l]) == AddressesOf(leases) + {l.address}
  {
    var more := leases + [l];
    forall a | a in AddressesOf(leases) + {l.address} ensures a in AddressesOf(more) {
      if a == l.address {
        assert more[|leases|].address == a;
      } else {
        var i :| 0 <= i < |leases| && leases[i].address == a;
        assert more[i].address == a;
      }
    }
  }

  // ---- purging ----

  /** The sound poolable leases, one for each address, in pool order. */
  function Kept(b: Book, pool: seq<Item>, ttl: nat, now: real): (r: seq<Lease>)
    ensures DistinctAddresses(r)
    ensures forall l :: l in r ==> Some(l) in pool && l.poolable && Sound(b, l, ttl, now)
    ensures forall l :: Some(l) in pool && l.poolable && Sound(b, l, ttl, now) ==> l.address in AddressesOf(r)
  {
    if |pool| == 0 then []
    else
      var before, item := Kept(b, pool[..|pool| - 1], ttl, now), pool[|pool| - 1];
      assert forall l :: Some(l) in pool <==> Some(l) in pool[..|pool| - 1] || Some(l) == item;
      if item.Some? && item.value.poolable && Sound(b, item.value, ttl, now) && item.value.address !in AddressesOf(before) then
        AddressesGrow(before, item.value);
        before + [item.value]
      else before
  }

  function Expire(cooldowns: map<Address, real>, now: real): map<Address, real> {
    map a | a in cooldowns && cooldowns[a] > now :: cooldowns[a]
  }

  function Purged(b: Book, ttl: nat, now: real): Book {
    b.(pool := AsItems(Kept(b, b.pool, ttl, now)), cooldowns := Expire(b.cooldowns, now))
  }

  // ---- handing out ----

  predicate Free(b: Book, blocked: set<Address>, l: Lease, ttl: nat, now: real) {
    Sound(b, l, ttl, now) && l.address !in blocked
  }

  /** The position of the first lease that may be handed out, or the length. */
  function FirstFree(b: Book, blocked: set<Address>, pool: seq<Item>, ttl: nat, now: real): (k: nat)
    ensures k <= |pool|
    ensures k < |pool| ==> pool[k].Some? && Free(b, blocked, pool[k].value, ttl, now)
    ensures forall j :: 0 <= j < k ==> pool[j].None? || !Free(b, blocked, pool[j].value, ttl, now)
  {
    if |pool| == 0 then 0
    else if pool[0].Some? && Free(b, blocked, pool[0].value, ttl, now) then 0
    else 1 + FirstFree(b, blocked, pool[1..], ttl, now)
  }

  /** Whether the scan up to position k asks for a cooldown, which drops the expired ones. */
  predicate AsksCooldown(pool: seq<Item>, k: nat, ttl: nat, now: real) {
    exists j :: 0 <= j < k && j < |pool| && pool[j].Some? && Lasting(pool[j].value, ttl, now)
  }

  /** Hands out the first free lease; what stands before it is dropped from the pool. */
  function Scanned(b: Book, blocked: set<Address>, ttl: nat, now: real): (Item, Book) {
    var k := FirstFree(b, blocked, b.pool, ttl, now);
    var left := b.(cooldowns := if AsksCooldown(b.pool, k + 1, ttl, now) then Expire(b.cooldowns, now) else b.cooldowns);
    if k < |b.pool| then (b.pool[k], left.(pool := b.pool[k + 1..])) else (None, left.(pool := []))
  }

  /** Purges, then scans; the scan reads the clock again, at `later`. */
  function Popped(b: Book, ttl: nat, now: real, later: real): (Item, Book) {
    Scanned(Purged(b, ttl, now), Blocked(b), ttl, later)
  }

  // ---- merging a fetched batch ----

  datatype Merge = Merge(leases: seq<Lease>, selected: Item, existing: set<Address>)

  function MergeOne(b: Book, m: Merge, item: Item, selectFirst: bool, ttl: nat, now: real): Merge {
    if item.None? || !Sound(b, item.value, ttl, now) || item.value.address in m.existing then m
    else if selectFirst && m.selected.None? then m.(selected := item, existing := m.existing + {item.value.address})
    else if !item.value.poolable then m
    else m.(leases := m.leases + [item.value], existing := m.existing + {item.value.address})
  }

  function MergeAll(b: Book, m: Merge, fetched: seq<Item>, selectFirst: bool, ttl: nat, now: real): Merge {
    if |fetched| == 0 then m
    else MergeOne(b, MergeAll(b, m, fetched[..|fetched| - 1], selectFirst, ttl, now), fetched[|fetched| - 1], selectFirst, ttl, now)
  }

  function MergeStart(b: Book, ttl: nat, now: real): Merge {
    var kept := Kept(b, b.pool, ttl, now);
    Merge(kept, None, AddressesOf(kept) + Blocked(b))
  }

  function Merged(b: Book, fetched: seq<Item>, selectFirst: bool, ttl: nat, now: real): (Item, Book) {
    var m := MergeAll(b, MergeStart(b, ttl, now), fetched, selectFirst, ttl, now);
    (m.selected, b.(pool := AsItems(m.leases), cooldowns := Expire(b.cooldowns, now)))
  }

  /** The pool stays free of duplicates, everything in it and the selection is accounted for, and nothing that
      was blocked comes in. */
  ghost predicate MergeSafe(b: Book, m: Merge, ttl: nat, now: real) {
    && DistinctAddresses(m.leases)
    && AddressesOf(m.leases) <= m.existing && Blocked(b) <= m.existing
    && (m.selected.Some? ==> && m.selected.value.address !in Blocked(b) && m.selected.value.address !in AddressesOf(m.leases)
                             && m.selected.value.address in m.existing && Sound(b, m.selected.value, ttl, now))
    && (forall l :: l in m.leases ==> l in Kept(b, b.pool, ttl, now) || (l.address !in Blocked(b) && Sound(b, l, ttl, now)))
  }

  lemma MergeOneSafe(b: Book, m: Merge, item: Item, selectFirst: bool, ttl: nat, now: real)
    requires MergeSafe(b, m, ttl, now)
    ensures MergeSafe(b, MergeOne(b, m, item, selectFirst, ttl, now), ttl, now)
  {
    hide Blocked, Kept, Sound;
    if item.Some? {
      AddressesGrow(m.leases, item.value);
      var more := m.leases + [item.value];
      assert item.value.address !in m.existing ==> forall i :: 0 <= i < |m.leases| ==> m.leases[i].address in AddressesOf(m.leases);
    }
  }

  lemma {:induction false} MergeAllSafe(b: Book, m: Merge, fetched: seq<Item>, selectFirst: bool, ttl: nat, now: real)
    requires MergeSafe(b, m, ttl, now)
    ensures MergeSafe(b, MergeAll(b, m, fetched, selectFirst, ttl, now), ttl, now)
    ensures !selectFirst && m.selected.None? ==> MergeAll(b, m, fetched, selectFirst, ttl, now).selected.None?
  {
    hide MergeSafe;
    if |fetched| > 0 {
      MergeAllSafe(b, m, fetched[..|fetched| - 1], selectFirst, ttl, now);
      MergeOneSafe(b, MergeAll(b, m, fetched[..|fetched| - 1], selectFirst, ttl, now), fetched[|fetched| - 1], selectFirst, ttl, now);
    }
  }

  // ---- what is found and taken in ----

  /** The lease may be handed out: it lasts for ttl more, does not cool down, and nobody uses or has used its address. */
  ghost predicate MayServe(b: Book, l: Lease, ttl: nat, now: real) {
    && (l.expires > 0.0 ==> now + ttl as real <= l.expires)
    && (l.address in b.cooldowns ==> b.cooldowns[l.address] <= now)
    && (forall i :: i in b.inUse ==> b.inUse[i].address != l.address)
    && l.address !in b.successful
  }

  lemma MayServeIff(b: Book, l: Lease, ttl: nat, now: real)
    ensures MayServe(b, l, ttl, now) <==> Sound(b, l, ttl, now) && l.address !in Blocked(b)
  {
  }

  /** A pop comes back empty-handed exactly when no lease left by the purge may serve; else it hands out one that may. */
  lemma PopFindsIff(b: Book, ttl: nat, now: real, later: real)
    requires later >= now
    ensures
      var found := Popped(b, ttl, now, later).0;
      && (found.None? <==> forall l :: l in Kept(b, b.pool, ttl, now) ==> !MayServe(b, l, ttl, later))
      && (found.Some? ==> found.value in Kept(b, b.pool, ttl, now) && MayServe(b, found.value, ttl, later))
  {
    var kept, purged := Kept(b, b.pool, ttl, now), Purged(b, ttl, now);
    var k := FirstFree(purged, Blocked(b), purged.pool, ttl, later);
    hide Kept, Blocked;
    forall l ensures MayServe(b, l, ttl, later) <==> Free(purged, Blocked(b), l, ttl, later) {
      MayServeIff(b, l, ttl, later);
    }
    hide MayServe, Free;
    forall l | l in kept && k == |purged.pool| ensures !MayServe(b, l, ttl, later) {
      var j :| 0 <= j < |kept| && kept[j] == l;
      assert purged.pool[j] == Some(l);
    }
    assert k < |purged.pool| ==> purged.pool[k] == Some(kept[k]) && kept[k] in kept;
  }

  /** A fetched item that is new: it may serve and the purged pool does not have its address. */
  ghost predicate IsNew(b: Book, item: Item, ttl: nat, now: real) {
    item.Some? && MayServe(b, item.value, ttl, now) && item.value.address !in AddressesOf(Kept(b, b.pool, ttl, now))
  }

  /** A merge that selects has the first new item of the batch; every other selects nothing. */
  ghost predicate SelectsFirst(b: Book, fetched: seq<Item>, selected: Item, selectFirst: bool, ttl: nat, now: real) {
    if exists k :: 0 <= k < |fetched| && selectFirst && IsNew(b, fetched[k], ttl, now) then
      exists k :: && 0 <= k < |fetched| && IsNew(b, fetched[k], ttl, now) && selected == fetched[k]
                  && forall j :: 0 <= j < k ==> !IsNew(b, fetched[j], ttl, now)
    else selected.None?
  }

  ghost predicate Covers(b: Book, fetched: seq<Item>, m: Merge, ttl: nat, now: real) {
    forall l :: Some(l) in fetched && l.poolable && MayServe(b, l, ttl, now) ==>
      l.address in AddressesOf(m.leases) || (m.selected.Some? && m.selected.value.address == l.address)
  }

  /** What counts as present is just what is blocked, pooled or selected. */
  ghost predicate ExistingAccounted(b: Book, m: Merge) {
    forall a :: a in m.existing <==>
      a in Blocked(b) || a in AddressesOf(m.leases) || (m.selected.Some? && m.selected.value.address == a)
  }

  ghost predicate NothingNewYet(b: Book, m: Merge, selectFirst: bool, ttl: nat, now: real) {
    selectFirst && m.selected.None? ==> m.leases == Kept(b, b.pool, ttl, now)
  }

  ghost predicate TakenIn(b: Book, fetched: seq<Item>, m: Merge, selectFirst: bool, ttl: nat, now: real) {
    && SelectsFirst(b, fetched, m.selected, selectFirst, ttl, now) && Covers(b, fetched, m, ttl, now)
    && Kept(b, b.pool, ttl, now) <= m.leases
    && ExistingAccounted(b, m) && NothingNewYet(b, m, selectFirst, ttl, now)
  }

  /** Every batch is taken in completely: with selection its first new item is selected, and each poolable lease that
      may serve is pooled or selected, up to its address; what the purged pool held stays in front. */
  lemma {:induction false} MergeTakesIn(b: Book, fetched: seq<Item>, selectFirst: bool, ttl: nat, now: real)
    ensures TakenIn(b, fetched, MergeAll(b, MergeStart(b, ttl, now), fetched, selectFirst, ttl, now), selectFirst, ttl, now)
  {
    var start := MergeStart(b, ttl, now);
    if |fetched| > 0 {
      var n := |fetched| - 1;
      MergeTakesIn(b, fetched[..n], selectFirst, ttl, now);
      TakesOne(b, fetched[..n], fetched[n], MergeAll(b, start, fetched[..n], selectFirst, ttl, now), selectFirst, ttl, now);
      assert fetched[..n] + [fetched[n]] == fetched;
      hide MergeOne, TakenIn, Kept;
    }
  }

  /** Whether the next item gets selected. */
  lemma SelectsNext(b: Book, fetched: seq<Item>, item: Item, m: Merge, selectFirst: bool, ttl: nat, now: real)
    requires TakenIn(b, fetched, m, selectFirst, ttl, now)
    ensures SelectsFirst(b, fetched + [item], MergeOne(b, m, item, selectFirst, ttl, now).selected, selectFirst, ttl, now)
  {
    var all := fetched + [item];
    if item.Some? {
      MayServeIff(b, item.value, ttl, now);
    }
    hide MayServe, Kept, Blocked, AddressesOf, Covers;
    assert selectFirst && m.selected.None? ==>
      (IsNew(b, item, ttl, now) <==> item.Some? && Sound(b, item.value, ttl, now) && item.value.address !in m.existing);
    hide IsNew, Sound, ExistingAccounted;
    assert forall k :: 0 <= k < |fetched| ==> all[k] == fetched[k];
    assert all[|fetched|] == item;
  }

  lemma CoversNext(b: Book, fetched: seq<Item>, item: Item, m: Merge, selectFirst: bool, ttl: nat, now: real)
    requires TakenIn(b, fetched, m, selectFirst, ttl, now)
    ensures
      var m' := MergeOne(b, m, item, selectFirst, ttl, now);
      && Covers(b, fetched + [item], m', ttl, now) && Kept(b, b.pool, ttl, now) <= m'.leases
      && ExistingAccounted(b, m') && NothingNewYet(b, m', selectFirst, ttl, now)
  {
    if item.Some? {
      MayServeIff(b, item.value, ttl, now);
      AddressesGrow(m.leases, item.value);
    }
    hide MayServe, Kept, Blocked, AddressesOf, SelectsFirst, Sound;
  }

  lemma TakesOne(b: Book, fetched: seq<Item>, item: Item, m: Merge, selectFirst: bool, ttl: nat, now: real)
    requires TakenIn(b, fetched, m, selectFirst, ttl, now)
    ensures TakenIn(b, fetched + [item], MergeOne(b, m, item, selectFirst, ttl, now), selectFirst, ttl, now)
  {
    SelectsNext(b, fetched, item, m, selectFirst, ttl, now);
    CoversNext(b, fetched, item, m, selectFirst, ttl, now);
    hide MergeOne, SelectsFirst, Covers, Kept, ExistingAccounted, NothingNewYet;
  }

  // ---- the other operations ----

  function MarkedInUse(b: Book, slot: nat, l: Lease): Book {
    b.(inUse := b.inUse[slot := l])
  }

  function Released(b: Book, slot: nat): Book {
    b.(inUse := b.inUse - {slot})
  }

  function Succeeded(b: Book, a: Address): Book {
    b.(successful := b.successful + {a})
  }

  function Cooled(b: Book, a: Address, seconds: real, now: real): Book {
    if seconds <= 0.0 then b
    else
      var previous := if a in b.cooldowns then b.cooldowns[a] else 0.0;
      var until := now + seconds;
      b.(cooldowns := b.cooldowns[a := if previous >= until then previous else until])
  }

  function WithoutAddress(pool: seq<Item>, a: Address): seq<Item> {
    if |pool| == 0 then []
    else
      var before, item := WithoutAddress(pool[..|pool| - 1], a), pool[|pool| - 1];
      if item.None? || item.value.address == a then before else before + [item]
  }

  /** Exactly the leases of other addresses stay. */
  lemma {:induction false} WithoutAddressIs(pool: seq<Item>, a: Address)
    ensures forall l :: Some(l) in WithoutAddress(pool, a) <==> Some(l) in pool && l.address != a
    ensures None !in WithoutAddress(pool, a)
  {
    if |pool| > 0 {
      WithoutAddressIs(pool[..|pool| - 1], a);
      assert forall x :: x in pool <==> x in pool[..|pool| - 1] || x == pool[|pool| - 1];
    }
  }

  function Discarded(b: Book, a: Address): Book {
    b.(pool := WithoutAddress(b.pool, a))
  }

  /** No two leases of the pool have the same address. */
  ghost predicate PoolDistinct(pool: seq<Item>) {
    forall i, j :: 0 <= i < j < |pool| && pool[i].Some? && pool[j].Some? ==> pool[i].value.address != pool[j].value.address
  }

  // ---- the same in place ----

  lemma AskNow(pool: seq<Item>, k: nat, ttl: nat, now: real)
    requires k < |pool| && pool[k].Some? && Lasting(pool[k].value, ttl, now)
    ensures AsksCooldown(pool, k + 1, ttl, now)
  {
  }

  lemma AskLater(pool: seq<Item>, k: nat, ttl: nat, now: real)
    requires k < |pool| && (pool[k].Some? ==> !Lasting(pool[k].value, ttl, now))
    ensures AsksCooldown(pool, k + 1, ttl, now) <==> AsksCooldown(pool, k, ttl, now)
  {
  }

  lemma AsksWithin(pool: seq<Item>, k: nat, ttl: nat, now: real)
    requires k == |pool|
    ensures AsksCooldown(pool, k + 1, ttl, now) <==> AsksCooldown(pool, k, ttl, now)
  {
  }

  lemma ExpireTwice(b: Book, a: Address, now: real)
    ensures Expire(Expire(b.cooldowns, now), now) == Expire(b.cooldowns, now)
    ensures Cooling(b.(cooldowns := Expire(b.cooldowns, now)), a, now) == Cooling(b, a, now)
  {
  }

  class ProxyLedger {
    var pool: seq<Item>
    var inUse: map<nat, Lease>
    var successful: set<Address>
    var cooldowns: map<Address, real>

    ghost function View(): Book
      reads this
    {
      Book(pool, inUse, successful, cooldowns)
    }

    constructor (items: seq<Item>)
      ensures View() == Book(items, map[], {}, map[])
    {
      pool, inUse, successful, cooldowns := items, map[], {}, map[];
    }

    method InCooldown(a: Address, now: real) returns (cooling: bool)
      modifies `cooldowns
      ensures cooldowns == Expire(old(cooldowns), now)
      ensures cooling == Cooling(old(View()), a, now)
    {
      cooldowns := Expire(cooldowns, now);
      cooling := a in cooldowns && cooldowns[a] > now;
    }

    method Purge(ttl: nat, now: real) returns (seen: set<Address>)
      modifies `pool, `cooldowns
      ensures View() == Purged(old(View()), ttl, now)
      ensures seen == AddressesOf(Kept(old(View()), old(pool), ttl, now))
    {
      ghost var was := View();
      cooldowns := Expire(cooldowns, now);
      seen := {};
      var kept: seq<Lease> := [];
      for k := 0 to |pool|
        invariant pool == was.pool && cooldowns == Expire(was.cooldowns, now)
        invariant kept == Kept(was, was.pool[..k], ttl, now) && seen == AddressesOf(kept)
      {
        assert was.pool[..k + 1][..k] == was.pool[..k];
        var item := pool[k];
        if item.None? || !item.value.poolable || item.value.address in seen {
          continue;
        }
        var cooling := InCooldown(item.value.address, now);
        assert cooling == Cooling(was, item.value.address, now);
        assert Expire(Expire(was.cooldowns, now), now) == Expire(was.cooldowns, now);
        if cooling || !Lasting(item.value, ttl, now) {
          continue;
        }
        AddressesGrow(kept, item.value);
        seen := seen + {item.value.address};
        kept := kept + [item.value];
      }
      assert was.pool[..|was.pool|] == was.pool;
      pool := AsItems(kept);
    }

    method ScanFree(blocked: set<Address>, ttl: nat, now: real) returns (lease: Item)
      modifies `pool, `cooldowns
      ensures (lease, View()) == Scanned(old(View()), blocked, ttl, now)
    {
      ghost var was := View();
      ghost var k := 0;
      ghost var free := FirstFree(was, blocked, was.pool, ttl, now);
      while |pool| > 0
        invariant k <= free && pool == was.pool[k..] && inUse == was.inUse && successful == was.successful
        invariant cooldowns == if AsksCooldown(was.pool, k, ttl, now) then Expire(was.cooldowns, now) else was.cooldowns
      {
        var item := pool[0];
        assert item == was.pool[k] && pool[1..] == was.pool[k + 1..];
        pool := pool[1..];
        if item.Some? && Lasting(item.value, ttl, now) {
          AskNow(was.pool, k, ttl, now);
          ExpireTwice(was, item.value.address, now);
          var cooling := InCooldown(item.value.address, now);
          if !cooling && item.value.address !in blocked {
            assert free == k;
            return item;
          }
        } else {
          AskLater(was.pool, k, ttl, now);
        }
        k := k + 1;
      }
      AsksWithin(was.pool, k, ttl, now);
      return None;
    }

    method PopAvailable(ttl: nat, now: real, later: real) returns (lease: Item)
      modifies `pool, `cooldowns
      ensures (lease, View()) == Popped(old(View()), ttl, now, later)
    {
      var blocked := (set i | i in inUse :: inUse[i].address) + successful;
      assert blocked == Blocked(View());
      hide Purged, Scanned, Kept, Blocked;
      var seen := Purge(ttl, now);
      lease := ScanFree(blocked, ttl, later);
    }

    method MergeFetched(fetched: seq<Item>, selectFirst: bool, ttl: nat, now: real) returns (selected: Item)
      modifies `pool, `cooldowns
      ensures (selected, View()) == Merged(old(View()), fetched, selectFirst, ttl, now)
    {
      ghost var was := View();
      var blocked := (set i | i in inUse :: inUse[i].address) + successful;
      assert blocked == Blocked(was);
      var existing := Purge(ttl, now);
      existing := existing + blocked;
      selected := None;
      ghost var leases := Kept(was, was.pool, ttl, now);
      for k := 0 to |fetched|
        invariant pool == AsItems(leases) && inUse == was.inUse && successful == was.successful
        invariant cooldowns == Expire(was.cooldowns, now)
        invariant MergeAll(was, MergeStart(was, ttl, now), fetched[..k], selectFirst, ttl, now) == Merge(leases, selected, existing)
      {
        assert fetched[..k + 1][..k] == fetched[..k];
        var item := fetched[k];
        if item.None? || !Lasting(item.value, ttl, now) {
          continue;
        }
        var cooling := InCooldown(item.value.address, now);
        assert cooling == Cooling(was, item.value.address, now);
        assert Expire(Expire(was.cooldowns, now), now) == Expire(was.cooldowns, now);
        if cooling || item.value.address in existing {
          continue;
        }
        if selectFirst && selected.None? {
          selected := item;
          existing := existing + {item.value.address};
        } else if item.value.poolable {
          leases := leases + [item.value];
          pool := pool + [item];
          existing := existing + {item.value.address};
        }
      }
      assert fetched[..|fetched|] == fetched;
    }

    method MarkInUse(slot: nat, lease: Lease)
      modifies `inUse
      ensures View() == MarkedInUse(old(View()), slot, lease)
    {
      inUse := inUse[slot := lease];
    }

    method ReleaseInUse(slot: nat) returns (released: Item)
      modifies `inUse
      ensures View() == Released(old(View()), slot)
      ensures released == if slot in old(inUse) then Some(old(inUse)[slot]) else None
    {
      released := if slot in inUse then Some(inUse[slot]) else None;
      inUse := inUse - {slot};
    }

    method MarkSuccessful(a: Address) returns (changed: bool)
      modifies `successful
      ensures View() == Succeeded(old(View()), a)
      ensures changed <==> a !in old(successful)
    {
      changed := a !in successful;
      successful := successful + {a};
    }

    method MarkInCooldown(a: Address, seconds: real, now: real)
      modifies `cooldowns
      ensures View() == Cooled(old(View()), a, seconds, now)
      ensures forall x :: x in old(cooldowns) ==> x in cooldowns && cooldowns[x] >= old(cooldowns)[x]
      ensures seconds <= 0.0 ==> cooldowns == old(cooldowns)
      ensures seconds > 0.0 ==>
                && a in cooldowns && cooldowns[a] >= now + seconds
                && cooldowns[a] in {now + seconds, if a in old(cooldowns) then old(cooldowns)[a] else 0.0}
                && cooldowns == old(cooldowns)[a := cooldowns[a]]
    {
      if seconds > 0.0 {
        var previous := if a in cooldowns then cooldowns[a] else 0.0;
        var until := now + seconds;
        cooldowns := cooldowns[a := if previous >= until then previous else until];
      }
    }

    method DiscardUnresponsive(a: Address)
      modifies `pool
      ensures View() == Discarded(old(View()), a)
    {
      ghost var was := pool;
      var retained: seq<Item> := [];
      for k := 0 to |pool|
        invariant pool == was && retained == WithoutAddress(was[..k], a)
      {
        assert was[..k + 1][..k] == was[..k];
        if pool[k].Some? && pool[k].value.address != a {
          retained := retained + [pool[k]];
        }
      }
      assert was[..|was|] == was;
      pool := retained;
    }
  }
}
