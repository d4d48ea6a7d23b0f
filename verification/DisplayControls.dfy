/** Display conditions of a parsed survey, turned around in place: every question that a condition
    refers to receives a control entry naming the question it controls. */
module DisplayControls {
  import opened Wrappers
  import opened Sorting
  import opened SurveyLogic

  /** A parsed question record. `controls` is none when the record has no such list. */
  datatype Info = Info(num: int, conditions: seq<Condition>, controls: Option<seq<Control>>, hasDependent: bool) {
    function Targets(): seq<Control> {
      if controls.Some? then controls.value else []
    }
  }

  // ---- normalized option indices ----

  /** The nonnegative indices, each at its first occurrence. */
  function Normalize(options: seq<int>): (r: seq<int>)
    ensures forall x :: x in r <==> x in options && x >= 0
    ensures Distinct(r)
  {
    if |options| == 0 then []
    else
      var before, x := Normalize(options[..|options| - 1]), options[|options| - 1];
      assert forall y :: y in options <==> y in options[..|options| - 1] || y == x;
      if x < 0 || x in before then before else before + [x]
  }

  method NormalizeIndices(options: seq<int>) returns (r: seq<int>)
    ensures r == Normalize(options)
  {
    r := [];
    var seen: set<int> := {};
    for k := 0 to |options|
      invariant r == Normalize(options[..k])
      invariant forall x :: x in seen <==> x in r
    {
      assert options[..k + 1][..k] == options[..k];
      if options[k] >= 0 && options[k] !in seen {
        seen := seen + {options[k]};
        r := r + [options[k]];
      }
    }
    assert options[..|options|] == options;
  }

  // ---- what one condition does ----

  /** A condition together with the number of the question it stands in. */
  datatype Link = Link(target: int, condition: Condition)

  /** The first record with the given positive number. */
  function FirstAt(infos: seq<Info>, num: int): (r: Option<nat>)
    ensures r.Some? ==> r.value < |infos| && infos[r.value].num == num > 0
    ensures r.Some? ==> forall i :: 0 <= i < r.value ==> infos[i].num != num
    ensures r.None? && num > 0 ==> forall i :: 0 <= i < |infos| ==> infos[i].num != num
  {
    if |infos| == 0 || num <= 0 then None
    else
      var before := FirstAt(infos[..|infos| - 1], num);
      if before.Some? then before
      else if infos[|infos| - 1].num == num then Some(|infos| - 1)
      else None
  }

  predicate SameEntry(c: Control, target: int, indices: seq<int>) {
    c.Control? && c.target == target && c.options == indices
  }

  predicate Listed(targets: seq<Control>, target: int, indices: seq<int>) {
    exists k :: 0 <= k < |targets| && SameEntry(targets[k], target, indices)
  }

  function AddEntry(targets: seq<Control>, link: Link): seq<Control>
    requires link.condition.Condition?
  {
    var indices := Normalize(link.condition.options);
    if indices == [] || Listed(targets, link.target, indices) then targets
    else targets + [Control(link.target, link.condition.mode, indices)]
  }

  function Add(infos: seq<Info>, link: Link): (r: seq<Info>)
    ensures |r| == |infos|
    ensures forall i {:trigger r[i]} :: 0 <= i < |infos| ==> r[i].num == infos[i].num && r[i].conditions == infos[i].conditions
  {
    if !Usable(link.condition) then infos
    else
      match FirstAt(infos, link.condition.source)
      case None => infos
      case Some(p) => infos[p := infos[p].(controls := Some(AddEntry(infos[p].Targets(), link)))]
  }

  function AddAll(infos: seq<Info>, links: seq<Link>): (r: seq<Info>)
    ensures |r| == |infos|
    ensures forall i {:trigger r[i]} :: 0 <= i < |infos| ==> r[i].num == infos[i].num && r[i].conditions == infos[i].conditions
  {
    if |links| == 0 then infos else Add(AddAll(infos, links[..|links| - 1]), links[|links| - 1])
  }

  function LinksOf(info: Info): (r: seq<Link>)
    ensures |r| == |info.conditions|
    ensures forall i {:trigger r[i]} :: 0 <= i < |r| ==> r[i] == Link(info.num, info.conditions[i])
  {
    seq(|info.conditions|, i requires 0 <= i < |info.conditions| => Link(info.num, info.conditions[i]))
  }

  function AllLinks(infos: seq<Info>): seq<Link> {
    if |infos| == 0 then [] else AllLinks(infos[..|infos| - 1]) + LinksOf(infos[|infos| - 1])
  }

  // ---- the final sort ----

  predicate IndicesAtMost(a: seq<int>, b: seq<int>) {
    |a| == 0 || (|b| > 0 && (a[0] < b[0] || (a[0] == b[0] && IndicesAtMost(a[1..], b[1..]))))
  }

  function TargetKey(c: Control): int {
    if c.Control? then c.target else 0
  }

  function IndexKey(c: Control): seq<int> {
    if c.Control? then c.options else []
  }

  predicate EntryAtMost(a: Control, b: Control) {
    TargetKey(a) < TargetKey(b) || (TargetKey(a) == TargetKey(b) && IndicesAtMost(IndexKey(a), IndexKey(b)))
  }

  function Finish(info: Info): Info {
    var targets := info.Targets();
    if |targets| > 0 then info.(controls := Some(Sort(EntryAtMost, targets)), hasDependent := true)
    else info.(controls := Some([]), hasDependent := false)
  }

  function FinishAll(infos: seq<Info>): (r: seq<Info>)
    ensures |r| == |infos| && forall i {:trigger r[i]} :: 0 <= i < |infos| ==> r[i] == Finish(infos[i])
  {
    seq(|infos|, i requires 0 <= i < |infos| => Finish(infos[i]))
  }

  function Attached(infos: seq<Info>): (r: seq<Info>)
    ensures |r| == |infos|
  {
    FinishAll(AddAll(infos, AllLinks(infos)))
  }

  // ---- the pass over the records, in place ----

  method FindEntry(targets: seq<Control>, target: int, indices: seq<int>) returns (duplicate: bool)
    ensures duplicate <==> Listed(targets, target, indices)
  {
    for k := 0 to |targets|
      invariant forall j :: 0 <= j < k ==> !SameEntry(targets[j], target, indices)
    {
      if targets[k].Control? && targets[k].target == target && targets[k].options == indices {
        return true;
      }
    }
    return false;
  }

  method AddCondition(a: array<Info>, target: int, c: Condition)
    modifies a
    ensures a[..] == Add(old(a[..]), Link(target, c))
  {
    if c.Condition? && c.source > 0 {
      var found := FirstAt(a[..], c.source);
      if found.Some? {
        var p := found.value;
        var targets := a[p].Targets();
        var indices := NormalizeIndices(c.options);
        var duplicate := FindEntry(targets, target, indices);
        if indices != [] && !duplicate {
          targets := targets + [Control(target, c.mode, indices)];
        }
        a[p] := a[p].(controls := Some(targets));
      }
    }
  }

  lemma AddLast(infos: seq<Info>, links: seq<Link>, link: Link)
    ensures AddAll(infos, links + [link]) == Add(AddAll(infos, links), link)
  {
    assert (links + [link])[..|links|] == links;
  }

  lemma {:induction false} AddMany(infos: seq<Info>, xs: seq<Link>, ys: seq<Link>)
    ensures AddAll(infos, xs + ys) == AddAll(AddAll(infos, xs), ys)
  {
    if |ys| == 0 {
      assert xs + ys == xs;
    } else {
      AddMany(infos, xs, ys[..|ys| - 1]);
      assert (xs + ys)[..|xs + ys| - 1] == xs + ys[..|ys| - 1];
    }
  }

  /** The conditions of one record, one after the other. */
  method AddConditions(a: array<Info>, target: int, conditions: seq<Condition>)
    modifies a
    ensures a[..] == AddAll(old(a[..]), LinksOf(Info(target, conditions, None, false)))
  {
    ghost var was, links := a[..], LinksOf(Info(target, conditions, None, false));
    hide Add, AddAll, FirstAt, AddEntry;
    NoLinks(was);
    for j := 0 to |conditions|
      invariant a[..] == AddAll(was, links[..j])
    {
      AddCondition(a, target, conditions[j]);
      AddLast(was, links[..j], links[j]);
      assert links[..j] + [links[j]] == links[..j + 1];
    }
    assert links[..|links|] == links;
  }

  lemma NoLinks(infos: seq<Info>)
    ensures AddAll(infos, []) == infos && AllLinks([]) == []
  {
  }

  lemma AllLinksStep(infos: seq<Info>, i: nat)
    requires i < |infos|
    ensures AllLinks(infos[..i + 1]) == AllLinks(infos[..i]) + LinksOf(infos[i])
  {
    assert infos[..i + 1][..i] == infos[..i];
  }

  lemma OneMore(infos: seq<Info>, i: nat)
    requires i < |infos|
    ensures AddAll(AddAll(infos, AllLinks(infos[..i])), LinksOf(infos[i])) == AddAll(infos, AllLinks(infos[..i + 1]))
    ensures AddAll(infos, AllLinks(infos[..i]))[i].num == infos[i].num
    ensures AddAll(infos, AllLinks(infos[..i]))[i].conditions == infos[i].conditions
  {
    hide AddAll, AllLinks, LinksOf;
    AllLinksStep(infos, i);
    AddMany(infos, AllLinks(infos[..i]), LinksOf(infos[i]));
  }

  method AddAllConditions(a: array<Info>)
    modifies a
    ensures a[..] == AddAll(old(a[..]), AllLinks(old(a[..])))
  {
    ghost var was := a[..];
    NoLinks(was);
    hide AddAll, AllLinks;
    for i := 0 to a.Length
      invariant a[..] == AddAll(was, AllLinks(was[..i]))
    {
      OneMore(was, i);
      assert a[i] == a[..][i];
      assert LinksOf(Info(a[i].num, a[i].conditions, None, false)) == LinksOf(was[i]);
      AddConditions(a, a[i].num, a[i].conditions);
    }
    assert was[..a.Length] == was;
  }

  /** The last loop: every record's controls are sorted and flagged. */
  method FinishInPlace(a: array<Info>)
    modifies a
    ensures a.Length == |FinishAll(old(a[..]))| && forall k :: 0 <= k < a.Length ==> a[k] == FinishAll(old(a[..]))[k]
  {
    hide Finish;
    ghost var was := a[..];
    for i := 0 to a.Length
      invariant forall k :: 0 <= k < i ==> a[k] == Finish(was[k])
      invariant forall k :: i <= k < a.Length ==> a[k] == was[k]
    {
      a[i] := Finish(a[i]);
    }
  }

  method AttachDisplayConditionMetadata(a: array<Info>)
    modifies a
    ensures a[..] == Attached(old(a[..]))
  {
    hide AddAll, AllLinks, FinishAll;
    AddAllConditions(a);
    FinishInPlace(a);
  }

  // ---- controls are the inverse of conditions ----

  /** The link puts an entry (target, indices) into record p. */
  ghost predicate Creates(infos: seq<Info>, link: Link, p: nat, target: int, indices: seq<int>) {
    && Usable(link.condition) && FirstAt(infos, link.condition.source) == Some(p)
    && link.target == target && indices != [] && Normalize(link.condition.options) == indices
  }

  /** Some question with number `target` depends on record p through these option indices. */
  ghost predicate DependsOn(infos: seq<Info>, p: nat, target: int, indices: seq<int>) {
    exists j, c :: 0 <= j < |infos| && c in infos[j].conditions && infos[j].num == target
                   && Creates(infos, Link(target, c), p, target, indices)
  }

  lemma {:induction false} SameFirst(infos: seq<Info>, others: seq<Info>, num: int)
    requires |infos| == |others| && forall i :: 0 <= i < |infos| ==> infos[i].num == others[i].num
    ensures FirstAt(infos, num) == FirstAt(others, num)
  {
    if |infos| > 0 {
      SameFirst(infos[..|infos| - 1], others[..|infos| - 1], num);
    }
  }

  lemma ListedGrows(targets: seq<Control>, c: Control, target: int, indices: seq<int>)
    ensures Listed(targets + [c], target, indices) <==> Listed(targets, target, indices) || SameEntry(c, target, indices)
  {
    var more := targets + [c];
    if SameEntry(c, target, indices) {
      assert SameEntry(more[|targets|], target, indices);
    }
    if Listed(targets, target, indices) {
      var k :| 0 <= k < |targets| && SameEntry(targets[k], target, indices);
      assert SameEntry(more[k], target, indices);
    }
  }

  lemma AddLists(infos: seq<Info>, link: Link, p: nat, target: int, indices: seq<int>)
    requires p < |infos|
    ensures Listed(Add(infos, link)[p].Targets(), target, indices)
       <==> Listed(infos[p].Targets(), target, indices) || Creates(infos, link, p, target, indices)
  {
    if Usable(link.condition) && FirstAt(infos, link.condition.source) == Some(p) {
      hide FirstAt;
      var added := Normalize(link.condition.options);
      ListedGrows(infos[p].Targets(), Control(link.target, link.condition.mode, added), target, indices);
    }
  }

  lemma {:induction false} AddAllLists(infos: seq<Info>, links: seq<Link>, p: nat, target: int, indices: seq<int>)
    requires p < |infos|
    ensures Listed(AddAll(infos, links)[p].Targets(), target, indices)
       <==> (|| Listed(infos[p].Targets(), target, indices)
             || exists k :: 0 <= k < |links| && Creates(infos, links[k], p, target, indices))
  {
    if |links| > 0 {
      var n := |links| - 1;
      var before := AddAll(infos, links[..n]);
      AddAllLists(infos, links[..n], p, target, indices);
      AddLists(before, links[n], p, target, indices);
      if links[n].condition.Condition? {
        SameFirst(infos, before, links[n].condition.source);
      }
      assert Creates(before, links[n], p, target, indices) <==> Creates(infos, links[n], p, target, indices);
      hide Creates, Listed, Add;
      assert forall k :: 0 <= k < n ==> links[..n][k] == links[k];
      assert AddAll(infos, links) == Add(before, links[n]);
    }
  }

  lemma {:induction false} LinkFromCondition(infos: seq<Info>, j: nat, c: Condition)
    requires j < |infos| && c in infos[j].conditions
    ensures Link(infos[j].num, c) in AllLinks(infos)
  {
    var n := |infos| - 1;
    if j < n {
      LinkFromCondition(infos[..n], j, c);
    } else {
      var k :| 0 <= k < |infos[j].conditions| && infos[j].conditions[k] == c;
      assert LinksOf(infos[j])[k] == Link(infos[j].num, c);
    }
  }

  lemma {:induction false} ConditionOfLink(infos: seq<Info>, link: Link) returns (j: nat)
    requires link in AllLinks(infos)
    ensures j < |infos| && infos[j].num == link.target && link.condition in infos[j].conditions
  {
    var n := |infos| - 1;
    if link in AllLinks(infos[..n]) {
      j := ConditionOfLink(infos[..n], link);
    } else {
      j := n;
      assert link in LinksOf(infos[n]);
    }
  }

  lemma LinksAreConditions(infos: seq<Info>, p: nat, target: int, indices: seq<int>)
    ensures (exists k :: 0 <= k < |AllLinks(infos)| && Creates(infos, AllLinks(infos)[k], p, target, indices))
       <==> DependsOn(infos, p, target, indices)
  {
    var links := AllLinks(infos);
    if DependsOn(infos, p, target, indices) {
      var j, c :| 0 <= j < |infos| && c in infos[j].conditions && infos[j].num == target
                  && Creates(infos, Link(target, c), p, target, indices);
      LinkFromCondition(infos, j, c);
      var k :| 0 <= k < |links| && links[k] == Link(target, c);
      assert Creates(infos, links[k], p, target, indices);
    }
    if k :| 0 <= k < |links| && Creates(infos, links[k], p, target, indices) {
      var j := ConditionOfLink(infos, links[k]);
      assert links[k] == Link(target, links[k].condition);
    }
  }

  lemma FinishLists(info: Info, target: int, indices: seq<int>)
    ensures Listed(Finish(info).Targets(), target, indices) <==> Listed(info.Targets(), target, indices)
  {
    var before, after := info.Targets(), Finish(info).Targets();
    if |before| > 0 {
      SameElements(after, before);
      if k :| 0 <= k < |before| && SameEntry(before[k], target, indices) {
        assert before[k] in after;
      }
      if k :| 0 <= k < |after| && SameEntry(after[k], target, indices) {
        assert after[k] in before;
      }
    }
  }

  /** A record lists (target, indices) afterwards exactly when it did before, or a question numbered `target` has a
      condition with these normalized indices on it. */
  lemma ControlsInvertConditions(infos: seq<Info>, p: nat, target: int, indices: seq<int>)
    requires p < |infos|
    ensures Listed(Attached(infos)[p].Targets(), target, indices)
       <==> Listed(infos[p].Targets(), target, indices) || DependsOn(infos, p, target, indices)
  {
    var linked := AddAll(infos, AllLinks(infos));
    FinishLists(linked[p], target, indices);
    hide AddAll, AllLinks, Listed, DependsOn, Finish, Creates;
    AddAllLists(infos, AllLinks(infos), p, target, indices);
    LinksAreConditions(infos, p, target, indices);
  }

  // ---- no duplicates, sorted, flags ----

  ghost predicate DistinctEntries(targets: seq<Control>) {
    forall i, j :: 0 <= i < j < |targets| && targets[i].Control? ==>
      !SameEntry(targets[j], targets[i].target, targets[i].options)
  }

  lemma {:induction false} AddAllDistinct(infos: seq<Info>, links: seq<Link>, p: nat)
    requires p < |infos| && DistinctEntries(infos[p].Targets())
    ensures DistinctEntries(AddAll(infos, links)[p].Targets())
  {
    if |links| > 0 {
      var n := |links| - 1;
      AddAllDistinct(infos, links[..n], p);
      hide AddAll;
      AddDistinct(AddAll(infos, links[..n]), links[n], p);
      AddLast(infos, links[..n], links[n]);
      assert links[..n] + [links[n]] == links;
    }
  }

  lemma AddDistinct(infos: seq<Info>, link: Link, p: nat)
    requires p < |infos| && DistinctEntries(infos[p].Targets())
    ensures DistinctEntries(Add(infos, link)[p].Targets())
  {
    hide FirstAt;
    var targets := infos[p].Targets();
    assert !Usable(link.condition) || Add(infos, link)[p].Targets() in [targets, AddEntry(targets, link)];
    if Usable(link.condition) && !Listed(targets, link.target, Normalize(link.condition.options)) {
      assert forall k :: 0 <= k < |targets| ==> !SameEntry(targets[k], link.target, Normalize(link.condition.options));
    }
  }

  lemma {:induction false} IndicesTotal(a: seq<int>, b: seq<int>)
    ensures IndicesAtMost(a, b) || IndicesAtMost(b, a)
  {
    if |a| > 0 && |b| > 0 {
      IndicesTotal(a[1..], b[1..]);
    }
  }

  lemma {:induction false} IndicesTransitive(a: seq<int>, b: seq<int>, c: seq<int>)
    requires IndicesAtMost(a, b) && IndicesAtMost(b, c)
    ensures IndicesAtMost(a, c)
  {
    if |a| > 0 && a[0] == b[0] == c[0] {
      IndicesTransitive(a[1..], b[1..], c[1..]);
    }
  }

  lemma EntryPreorder()
    ensures TotalPreorder(EntryAtMost)
  {
    forall x, y ensures EntryAtMost(x, y) || EntryAtMost(y, x) {
      IndicesTotal(IndexKey(x), IndexKey(y));
    }
    forall x, y, z | EntryAtMost(x, y) && EntryAtMost(y, z) ensures EntryAtMost(x, z) {
      if TargetKey(x) == TargetKey(z) {
        IndicesTransitive(IndexKey(x), IndexKey(y), IndexKey(z));
      }
    }
  }

  /** Index list a comes before b: it is a front of it, or is less at the first difference. */
  ghost predicate Lexical(a: seq<int>, b: seq<int>) {
    a <= b || exists k :: 0 <= k < |a| && k < |b| && a[..k] == b[..k] && a[k] < b[k]
  }

  lemma {:induction false} IndicesAreLexical(a: seq<int>, b: seq<int>)
    ensures IndicesAtMost(a, b) <==> Lexical(a, b)
  {
    if |a| > 0 && |b| > 0 {
      IndicesAreLexical(a[1..], b[1..]);
      if k :| 0 <= k < |a| && k < |b| && a[..k] == b[..k] && a[k] < b[k] && k > 0 {
        assert a[..k][0] == a[0] && b[..k][0] == b[0];
        assert a[1..][..k - 1] == a[..k][1..] == b[..k][1..] == b[1..][..k - 1];
        assert Lexical(a[1..], b[1..]);
      }
      if a[0] == b[0] {
        if k :| 0 <= k < |a| - 1 && k < |b| - 1 && a[1..][..k] == b[1..][..k] && a[1..][k] < b[1..][k] {
          assert a[..k + 1] == [a[0]] + a[1..][..k] == b[..k + 1];
          assert a[k + 1] < b[k + 1];
        }
        assert a[1..] <= b[1..] <==> a <= b by {
          assert a == [a[0]] + a[1..] && b == [b[0]] + b[1..];
        }
      } else {
        assert a[0] < b[0] ==> a[..0] == b[..0] && a[0] < b[0];
      }
    }
  }

  /** The entries of a record ascend by target and then by index list. */
  lemma EntriesAscend(infos: seq<Info>, p: nat, i: nat, j: nat)
    requires p < |infos| && DistinctEntries(infos[p].Targets())
    requires i < j < |Attached(infos)[p].Targets()|
    requires Attached(infos)[p].Targets()[i].Control? && Attached(infos)[p].Targets()[j].Control?
    ensures
      var a, b := Attached(infos)[p].Targets()[i], Attached(infos)[p].Targets()[j];
      a.target < b.target || (a.target == b.target && Lexical(a.options, b.options))
  {
    ControlsAreSortedAndDistinct(infos, p);
    hide Attached, DistinctEntries;
    var a, b := Attached(infos)[p].Targets()[i], Attached(infos)[p].Targets()[j];
    assert EntryAtMost(a, b);
    IndicesAreLexical(a.options, b.options);
  }

  predicate Apart(x: Control, y: Control) {
    x.Control? ==> !SameEntry(y, x.target, x.options)
  }

  /** The entries of a record end up sorted by (target, indices) and, if they started without duplicates, without
      any; and the flag says whether there are any. */
  lemma ControlsAreSortedAndDistinct(infos: seq<Info>, p: nat)
    requires p < |infos| && DistinctEntries(infos[p].Targets())
    ensures
      var info := Attached(infos)[p];
      && info.num == infos[p].num && info.conditions == infos[p].conditions && info.controls.Some?
      && SortedBy(EntryAtMost, info.controls.value) && DistinctEntries(info.controls.value)
      && (info.hasDependent <==> info.controls.value != [])
  {
    var linked := AddAll(infos, AllLinks(infos));
    AddAllDistinct(infos, AllLinks(infos), p);
    assert linked[p].num == infos[p].num && linked[p].conditions == infos[p].conditions;
    hide AddAll, AllLinks;
    SortedApart(linked[p].Targets());
    hide EntryAtMost, DistinctEntries, Sort;
    assert SortedBy(EntryAtMost, []);
    assert Attached(infos)[p] == Finish(linked[p]);
  }

  lemma SortedApart(targets: seq<Control>)
    requires DistinctEntries(targets)
    ensures SortedBy(EntryAtMost, Sort(EntryAtMost, targets)) && DistinctEntries(Sort(EntryAtMost, targets))
    ensures targets == [] ==> DistinctEntries([])
  {
    EntryPreorder();
    SortSorts(EntryAtMost, targets);
    SortStable(EntryAtMost, Apart, targets);
    var sorted := Sort(EntryAtMost, targets);
    forall i, j | 0 <= i < j < |sorted| && sorted[i].Control? ensures !SameEntry(sorted[j], sorted[i].target, sorted[i].options) {
      IndicesTotal(IndexKey(sorted[i]), IndexKey(sorted[i]));
    }
  }

  // ---- the check of the controls follows from the check of the conditions ----

  /** The link makes the control entry, mode included. */
  ghost predicate MadeBy(infos: seq<Info>, link: Link, p: nat, t: Control) {
    t.Control? && Creates(infos, link, p, t.target, t.options) && t.mode == link.condition.mode
  }

  lemma {:induction false} EntryOrigin(infos: seq<Info>, links: seq<Link>, p: nat, t: Control) returns (k: nat)
    requires p < |infos| && t in AddAll(infos, links)[p].Targets() && t !in infos[p].Targets()
    ensures k < |links| && MadeBy(infos, links[k], p, t)
  {
    if |links| == 0 {
      assert false;
    } else {
      var n := |links| - 1;
      var before := AddAll(infos, links[..n]);
      if t in before[p].Targets() {
        k := EntryOrigin(infos, links[..n], p, t);
      } else {
        k := n;
        assert AddAll(infos, links) == Add(before, links[n]);
        AddOrigin(before, links[n], p, t);
        SameFirst(infos, before, links[n].condition.source);
      }
    }
  }

  lemma AddOrigin(infos: seq<Info>, link: Link, p: nat, t: Control)
    requires p < |infos| && t in Add(infos, link)[p].Targets() && t !in infos[p].Targets()
    ensures MadeBy(infos, link, p, t)
  {
    hide FirstAt;
  }

  /** The check of display conditions passes on every question with a positive number. */
  ghost predicate ConditionsAccepted(infos: seq<Info>) {
    forall j, c :: 0 <= j < |infos| && infos[j].num > 0 && c in infos[j].conditions ==>
      ConditionReason(infos[j].num, c) == Accepted
  }

  ghost predicate ControlsAccepted(infos: seq<Info>) {
    forall p, t :: 0 <= p < |infos| && infos[p].num > 0 && t in infos[p].Targets() ==>
      ControlReason(infos[p].num, t) == Accepted
  }

  /** A record without a positive number carries a condition that reaches some question. */
  ghost predicate StrayCondition(infos: seq<Info>) {
    exists j, c :: 0 <= j < |infos| && infos[j].num <= 0 && c in infos[j].conditions && Reaches(infos, c)
  }

  ghost predicate Reaches(infos: seq<Info>, c: Condition) {
    Usable(c) && FirstAt(infos, c.source).Some? && Normalize(c.options) != []
  }

  lemma AcceptedEntry(infos: seq<Info>, p: nat, t: Control)
    requires p < |infos| && infos[p].num > 0 && infos[p].Targets() == []
    requires ConditionsAccepted(infos) && !StrayCondition(infos)
    requires t in AddAll(infos, AllLinks(infos))[p].Targets()
    ensures ControlReason(infos[p].num, t) == Accepted
  {
    var k := EntryOrigin(infos, AllLinks(infos), p, t);
    var link := AllLinks(infos)[k];
    var j := ConditionOfLink(infos, link);
    hide AddAll, AllLinks;
    assert Reaches(infos, link.condition);
    assert infos[j].num > 0;
    assert ConditionReason(infos[j].num, link.condition) == Accepted;
  }

  lemma StrayEntry(infos: seq<Info>)
    requires StrayCondition(infos)
    ensures !ControlsAccepted(Attached(infos))
  {
    var j, c :| 0 <= j < |infos| && infos[j].num <= 0 && c in infos[j].conditions && Reaches(infos, c);
    var p := FirstAt(infos, c.source).value;
    var target, indices := infos[j].num, Normalize(c.options);
    assert Creates(infos, Link(target, c), p, target, indices);
    assert DependsOn(infos, p, target, indices);
    ControlsInvertConditions(infos, p, target, indices);
    var targets := Attached(infos)[p].Targets();
    var k :| 0 <= k < |targets| && SameEntry(targets[k], target, indices);
    assert targets[k] in targets;
    assert Attached(infos)[p].num == infos[p].num by {
      assert Attached(infos)[p] == Finish(AddAll(infos, AllLinks(infos))[p]);
    }
  }

  /** With no controls to begin with, whenever all display conditions are accepted, so are all controls made from
      them, except exactly when a record without a positive number carries a condition that reaches a question. */
  lemma ControlCheckFollows(infos: seq<Info>)
    requires ConditionsAccepted(infos)
    requires Uncontrolled(infos)
    ensures ControlsAccepted(Attached(infos)) <==> !StrayCondition(infos)
  {
    if StrayCondition(infos) {
      StrayEntry(infos);
    } else {
      var linked := AddAll(infos, AllLinks(infos));
      forall p, t | 0 <= p < |infos| && infos[p].num > 0 && t in Attached(infos)[p].Targets()
        ensures ControlReason(infos[p].num, t) == Accepted
      {
        assert Attached(infos)[p] == Finish(linked[p]);
        SameElements(Sort(EntryAtMost, linked[p].Targets()), linked[p].Targets());
        AcceptedEntry(infos, p, t);
      }
      assert forall p :: 0 <= p < |infos| ==> Attached(infos)[p].num == linked[p].num;
    }
  }

  // ---- whose mode an entry carries ----

  /** The first link to make an entry for this target and these indices makes t, mode included. */
  ghost predicate FirstMakes(infos: seq<Info>, links: seq<Link>, p: nat, t: Control) {
    exists k: nat :: k < |links| && MadeBy(infos, links[k], p, t)
                     && forall j :: 0 <= j < k ==> !Creates(infos, links[j], p, t.target, t.options)
  }

  lemma FirstMakesStep(infos: seq<Info>, links: seq<Link>, link: Link, p: nat, t: Control)
    requires t.Control?
    ensures FirstMakes(infos, links + [link], p, t)
       <==> (|| FirstMakes(infos, links, p, t)
             || (MadeBy(infos, link, p, t) && forall j :: 0 <= j < |links| ==> !Creates(infos, links[j], p, t.target, t.options)))
  {
    hide Creates, MadeBy;
    var more := links + [link];
    assert more[|links|] == link && forall j :: 0 <= j < |links| ==> more[j] == links[j];
    if FirstMakes(infos, links, p, t) {
      var k: nat :| k < |links| && MadeBy(infos, links[k], p, t)
                    && forall j :: 0 <= j < k ==> !Creates(infos, links[j], p, t.target, t.options);
      assert MadeBy(infos, more[k], p, t);
    }
    if MadeBy(infos, link, p, t) && forall j :: 0 <= j < |links| ==> !Creates(infos, links[j], p, t.target, t.options) {
      assert MadeBy(infos, more[|links|], p, t);
    }
  }

  lemma AddMembers(infos: seq<Info>, link: Link, p: nat, t: Control)
    requires p < |infos| && t.Control?
    ensures t in Add(infos, link)[p].Targets()
       <==> t in infos[p].Targets() || (MadeBy(infos, link, p, t) && !Listed(infos[p].Targets(), t.target, t.options))
  {
    hide FirstAt;
  }

  lemma SameLink(infos: seq<Info>, links: seq<Link>, link: Link, p: nat, target: int, indices: seq<int>)
    ensures Creates(AddAll(infos, links), link, p, target, indices) <==> Creates(infos, link, p, target, indices)
  {
    if link.condition.Condition? {
      SameFirst(infos, AddAll(infos, links), link.condition.source);
    }
  }

  lemma {:induction false} AddAllMembers(infos: seq<Info>, links: seq<Link>, p: nat, t: Control)
    requires p < |infos| && t.Control?
    ensures t in AddAll(infos, links)[p].Targets()
       <==> (|| t in infos[p].Targets()
             || (!Listed(infos[p].Targets(), t.target, t.options) && FirstMakes(infos, links, p, t)))
  {
    if |links| > 0 {
      var earlier, link := links[..|links| - 1], links[|links| - 1];
      var before := AddAll(infos, earlier);
      assert AddAll(infos, links) == Add(before, link) && earlier + [link] == links;
      AddAllMembers(infos, earlier, p, t);
      AddMembers(before, link, p, t);
      AddAllLists(infos, earlier, p, t.target, t.options);
      FirstMakesStep(infos, earlier, link, p, t);
      SameLink(infos, earlier, link, p, t.target, t.options);
      hide AddAll, Add, Creates, Listed, FirstMakes;
    }
  }

  lemma FinishMembers(infos: seq<Info>, p: nat, t: Control)
    requires p < |infos|
    ensures t in Attached(infos)[p].Targets() <==> t in AddAll(infos, AllLinks(infos))[p].Targets()
  {
    var linked := AddAll(infos, AllLinks(infos));
    hide AddAll, AllLinks;
    assert Attached(infos)[p] == Finish(linked[p]);
    SameElements(Sort(EntryAtMost, linked[p].Targets()), linked[p].Targets());
  }

  /** A record carries an entry afterwards exactly when it did before, or it had none for this target and these
      indices and the first of all conditions that ask for one has the entry's mode. */
  lemma ControlIsFirstMade(infos: seq<Info>, p: nat, t: Control)
    requires p < |infos| && t.Control?
    ensures t in Attached(infos)[p].Targets()
       <==> (|| t in infos[p].Targets()
             || (!Listed(infos[p].Targets(), t.target, t.options) && FirstMakes(infos, AllLinks(infos), p, t)))
  {
    FinishMembers(infos, p, t);
    AddAllMembers(infos, AllLinks(infos), p, t);
  }

  /** The entry that a condition of record j asks for. */
  function Demanded(infos: seq<Info>, j: nat, c: Condition): Control
    requires j < |infos| && c.Condition?
  {
    Control(infos[j].num, c.mode, Normalize(c.options))
  }

  /** Every condition that reaches a record is found there with its own mode. */
  ghost predicate ModesKept(infos: seq<Info>) {
    forall j, c :: 0 <= j < |infos| && c in infos[j].conditions && Reaches(infos, c) ==>
      Demanded(infos, j, c) in Attached(infos)[FirstAt(infos, c.source).value].Targets()
  }

  /** Two conditions ask for the same indices of the same source, for the same target number. */
  predicate Collide(infos: seq<Info>, i: nat, c: Condition, j: nat, d: Condition)
    requires i < |infos| && j < |infos| && c.Condition? && d.Condition?
  {
    infos[i].num == infos[j].num && c.source == d.source && Normalize(c.options) == Normalize(d.options)
  }

  ghost predicate CollidingModesAgree(infos: seq<Info>) {
    forall i, j, c, d :: 0 <= i < |infos| && 0 <= j < |infos| && c in infos[i].conditions && d in infos[j].conditions ==>
      Reaches(infos, c) && Reaches(infos, d) && Collide(infos, i, c, j, d) ==> c.mode == d.mode
  }

  ghost predicate Uncontrolled(infos: seq<Info>) {
    forall p :: 0 <= p < |infos| ==> infos[p].Targets() == []
  }

  lemma EntriesByKey(targets: seq<Control>, s: Control, t: Control)
    requires DistinctEntries(targets)
    ensures s in targets && t in targets && s.Control? && SameEntry(t, s.target, s.options) ==> s == t
  {
  }

  /** Of two colliding conditions with different modes at most one is found again. */
  lemma OneModeSurvives(infos: seq<Info>, i: nat, c: Condition, j: nat, d: Condition)
    requires Uncontrolled(infos) && i < |infos| && j < |infos| && Reaches(infos, c)
    requires d.Condition? && Collide(infos, i, c, j, d) && c.mode != d.mode
    ensures
      var targets := Attached(infos)[FirstAt(infos, c.source).value].Targets();
      Demanded(infos, i, c) !in targets || Demanded(infos, j, d) !in targets
  {
    var p := FirstAt(infos, c.source).value;
    var targets, s, t := Attached(infos)[p].Targets(), Demanded(infos, i, c), Demanded(infos, j, d);
    ControlsAreSortedAndDistinct(infos, p);
    hide Attached, EntryAtMost;
    EntriesByKey(targets, s, t);
  }

  lemma {:induction false} AgreedModeSurvives(infos: seq<Info>, j: nat, c: Condition)
    requires Uncontrolled(infos) && CollidingModesAgree(infos)
    requires j < |infos| && c in infos[j].conditions && Reaches(infos, c)
    ensures Demanded(infos, j, c) in Attached(infos)[FirstAt(infos, c.source).value].Targets()
  {
    var p, t := FirstAt(infos, c.source).value, Demanded(infos, j, c);
    assert Creates(infos, Link(t.target, c), p, t.target, t.options);
    assert DependsOn(infos, p, t.target, t.options);
    ControlsInvertConditions(infos, p, t.target, t.options);
    var targets := Attached(infos)[p].Targets();
    var k :| 0 <= k < |targets| && SameEntry(targets[k], t.target, t.options);
    var i, d := MakerOf(infos, p, targets[k]);
    FirstHere(infos, d.source, c.source);
    assert Collide(infos, i, c, j, d);
  }

  lemma MakerOf(infos: seq<Info>, p: nat, t: Control) returns (j: nat, c: Condition)
    requires Uncontrolled(infos) && p < |infos| && t in Attached(infos)[p].Targets()
    ensures j < |infos| && c in infos[j].conditions && Reaches(infos, c) && FirstAt(infos, c.source) == Some(p)
    ensures t == Demanded(infos, j, c)
  {
    FinishMembers(infos, p, t);
    var m := EntryOrigin(infos, AllLinks(infos), p, t);
    j := ConditionOfLink(infos, AllLinks(infos)[m]);
    c := AllLinks(infos)[m].condition;
  }

  lemma FirstHere(infos: seq<Info>, x: int, y: int)
    requires FirstAt(infos, x).Some? && FirstAt(infos, x) == FirstAt(infos, y)
    ensures x == y
  {
  }

  /** With no controls to begin with, every condition keeps its mode exactly when no two conditions of equally
      numbered questions ask for the same indices of the same source in different modes. */
  lemma ModesKeptIff(infos: seq<Info>)
    requires Uncontrolled(infos)
    ensures ModesKept(infos) <==> CollidingModesAgree(infos)
  {
    if CollidingModesAgree(infos) {
      forall j, c | 0 <= j < |infos| && c in infos[j].conditions && Reaches(infos, c)
        ensures Demanded(infos, j, c) in Attached(infos)[FirstAt(infos, c.source).value].Targets()
      {
        AgreedModeSurvives(infos, j, c);
      }
    }
    if ModesKept(infos) {
      forall i, j, c, d | 0 <= i < |infos| && 0 <= j < |infos| && c in infos[i].conditions && d in infos[j].conditions
                          && Reaches(infos, c) && Reaches(infos, d) && Collide(infos, i, c, j, d)
        ensures c.mode == d.mode
      {
        if c.mode != d.mode {
          OneModeSurvives(infos, i, c, j, d);
        }
      }
    }
  }

  // ---- conditions as the page parser makes them ----

  /** One part of a relation text: the source number and the option numbers, counted from one. What cannot be
      read is zero. */
  datatype Chunk = Chunk(source: int, numbers: seq<int>)

  function IndicesOf(chunk: Chunk): seq<int> {
    Normalize(seq(|chunk.numbers|, i requires 0 <= i < |chunk.numbers| => chunk.numbers[i] - 1))
  }

  function Parsed(chunks: seq<Chunk>): seq<Condition> {
    if |chunks| == 0 then []
    else
      var before, last := Parsed(chunks[..|chunks| - 1]), chunks[|chunks| - 1];
      var c := Condition(last.source, SELECTED, IndicesOf(last));
      if last.source <= 0 || c.options == [] || c in before then before else before + [c]
  }

  method OptionIndices(chunk: Chunk) returns (r: seq<int>)
    ensures r == IndicesOf(chunk)
  {
    r := [];
    var seen: set<int> := {};
    ghost var shifted := seq(|chunk.numbers|, i requires 0 <= i < |chunk.numbers| => chunk.numbers[i] - 1);
    for k := 0 to |chunk.numbers|
      invariant r == Normalize(shifted[..k])
      invariant forall x :: x in seen <==> x in r
    {
      assert shifted[..k + 1][..k] == shifted[..k];
      var index := chunk.numbers[k] - 1;
      if chunk.numbers[k] > 0 && index !in seen {
        seen := seen + {index};
        r := r + [index];
      }
    }
    assert shifted[..|shifted|] == shifted;
  }

  method ExtractDisplayConditions(chunks: seq<Chunk>) returns (conditions: seq<Condition>)
    ensures conditions == Parsed(chunks)
  {
    conditions := [];
    var seen: set<(int, seq<int>)> := {};
    hide IndicesOf;
    for k := 0 to |chunks|
      invariant conditions == Parsed(chunks[..k])
      invariant forall s, o :: (s, o) in seen <==> Condition(s, SELECTED, o) in conditions
    {
      assert chunks[..k + 1][..k] == chunks[..k];
      var indices := OptionIndices(chunks[k]);
      if chunks[k].source > 0 && indices != [] && (chunks[k].source, indices) !in seen {
        seen := seen + {(chunks[k].source, indices)};
        conditions := conditions + [Condition(chunks[k].source, SELECTED, indices)];
      }
    }
    assert chunks[..|chunks|] == chunks;
  }

  /** The chunk stands for this condition. */
  predicate Denotes(chunk: Chunk, c: Condition) {
    chunk.source > 0 && IndicesOf(chunk) != [] && c == Condition(chunk.source, SELECTED, IndicesOf(chunk))
  }

  /** The parser keeps each condition that some chunk stands for, once, and nothing else. */
  lemma {:induction false} ParsedDenote(chunks: seq<Chunk>)
    ensures Distinct(Parsed(chunks))
    ensures forall c :: c in Parsed(chunks) <==> exists k :: 0 <= k < |chunks| && Denotes(chunks[k], c)
  {
    if |chunks| > 0 {
      var n := |chunks| - 1;
      var before := Parsed(chunks[..n]);
      ParsedDenote(chunks[..n]);
      hide IndicesOf;
      forall c ensures c in Parsed(chunks) <==> exists k :: 0 <= k < |chunks| && Denotes(chunks[k], c) {
        assert (exists k :: 0 <= k < n && Denotes(chunks[..n][k], c)) <==> exists k :: 0 <= k < n && Denotes(chunks[k], c) by {
          assert forall k :: 0 <= k < n ==> chunks[..n][k] == chunks[k];
        }
      }
    }
  }

  lemma {:induction false} NormalizeFixed(options: seq<int>)
    requires Distinct(options) && forall x :: x in options ==> x >= 0
    ensures Normalize(options) == options
  {
    if |options| > 0 {
      var n := |options| - 1;
      assert forall x :: x in options[..n] ==> x in options;
      NormalizeFixed(options[..n]);
      assert options[n] in options && options == options[..n] + [options[n]];
    }
  }

  ghost predicate IsParsed(infos: seq<Info>, pages: seq<seq<Chunk>>) {
    |pages| == |infos| && Uncontrolled(infos) && forall j :: 0 <= j < |infos| ==> infos[j].conditions == Parsed(pages[j])
  }

  /** Some question numbered t.target has a chunk that names record p and exactly the indices of t. */
  ghost predicate Requested(infos: seq<Info>, pages: seq<seq<Chunk>>, p: nat, t: Control)
    requires |pages| == |infos|
  {
    exists j, k :: 0 <= j < |infos| && 0 <= k < |pages[j]| && t.Control? && infos[j].num == t.target
                   && Denotes(pages[j][k], Condition(pages[j][k].source, t.mode, t.options))
                   && FirstAt(infos, pages[j][k].source) == Some(p)
  }

  lemma RequestMakes(infos: seq<Info>, pages: seq<seq<Chunk>>, p: nat, t: Control)
    requires IsParsed(infos, pages) && p < |infos| && Requested(infos, pages, p, t)
    ensures t in Attached(infos)[p].Targets()
  {
    var j, k :| 0 <= j < |infos| && 0 <= k < |pages[j]| && t.Control? && infos[j].num == t.target
                && Denotes(pages[j][k], Condition(pages[j][k].source, t.mode, t.options))
                && FirstAt(infos, pages[j][k].source) == Some(p);
    var c := Condition(pages[j][k].source, t.mode, t.options);
    ParsedDenote(pages[j]);
    NormalizeFixed(t.options);
    forall i, d | 0 <= i < |infos| && d in infos[i].conditions ensures d.Condition? && d.mode == SELECTED {
      ParsedDenote(pages[i]);
    }
    hide Parsed, Attached, FirstAt;
    AgreedModeSurvives(infos, j, c);
  }

  lemma MadeIsRequested(infos: seq<Info>, pages: seq<seq<Chunk>>, p: nat, t: Control)
    requires IsParsed(infos, pages) && p < |infos| && t in Attached(infos)[p].Targets()
    ensures Requested(infos, pages, p, t)
  {
    FinishMembers(infos, p, t);
    var m := EntryOrigin(infos, AllLinks(infos), p, t);
    var link := AllLinks(infos)[m];
    var j := ConditionOfLink(infos, link);
    ParsedDenote(pages[j]);
    hide Attached, AllLinks, AddAll, Parsed, FirstAt;
    var k :| 0 <= k < |pages[j]| && Denotes(pages[j][k], link.condition);
    NormalizeFixed(link.condition.options);
  }

  /** For conditions that the page parser made, the controls are their exact inverse, mode included. */
  lemma ParsedControlsInvert(infos: seq<Info>, pages: seq<seq<Chunk>>, p: nat, t: Control)
    requires IsParsed(infos, pages) && p < |infos|
    ensures t in Attached(infos)[p].Targets() <==> Requested(infos, pages, p, t)
  {
    if Requested(infos, pages, p, t) {
      RequestMakes(infos, pages, p, t);
    } else if t in Attached(infos)[p].Targets() {
      MadeIsRequested(infos, pages, p, t);
    }
  }
}
