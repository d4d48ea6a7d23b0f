/** Allocating configuration rows: every configured question is given an index into the parallel arrays of its
    type, while one pass appends to those arrays. */
module ConfigIndex {
  import opened Wrappers
  import opened Sorting
  import opened Quotas

  datatype Kind =
    | SingleKind | DropdownKind | MultipleKind | MatrixKind | ScaleKind | ScoreKind | SliderKind | OrderKind
    | TextKind | MultiTextKind | OtherKind

  /** The groups of parallel arrays; scale and score questions share one. */
  datatype Table = SingleTable | DropdownTable | MultipleTable | MatrixTable | ScaleTable | SliderTable | TextTable

  /** One value of one array: a row of matrix weights, no weights, or something this model does not look into. */
  datatype Value = Token(text: string) | RowWeights(weights: seq<real>) | NoWeights

  /** Where the weights of a matrix question come from. */
  datatype MatrixSource = PerRow(rows: seq<Option<seq<Weight>>>) | ForAll(row: seq<Weight>) | Unset

  /** `fields` holds one value per parallel array of the entry's type, ready to be appended;
      `rejected` says that one of its checks fails. */
  datatype Entry = Entry(num: Option<int>, kind: Kind, location: bool, rows: int, options: int,
                         source: MatrixSource, fields: seq<Value>, rejected: bool)

  /** The name and index under which a question is found again. */
  datatype Mapped = Mapped(name: string, index: int)

  function NumberOf(e: Entry, position: nat): int {
    if e.num.Some? then e.num.value else position + 1
  }

  function TableOf(kind: Kind): Option<Table> {
    match kind
    case SingleKind => Some(SingleTable)
    case DropdownKind => Some(DropdownTable)
    case MultipleKind => Some(MultipleTable)
    case MatrixKind => Some(MatrixTable)
    case ScaleKind => Some(ScaleTable)
    case ScoreKind => Some(ScaleTable)
    case SliderKind => Some(SliderTable)
    case OrderKind => None
    case TextKind => Some(TextTable)
    case MultiTextKind => Some(TextTable)
    case OtherKind => None
  }

  /** Which kinds share arrays: scale with score, text with multiple text; ordering and unknown kinds have none. */
  lemma KindsSharing(a: Kind, b: Kind)
    ensures TableOf(a) == TableOf(b) <==>
      a == b || {a, b} <= {ScaleKind, ScoreKind} || {a, b} <= {TextKind, MultiTextKind} || {a, b} <= {OrderKind, OtherKind}
    ensures TableOf(a).None? <==> a in {OrderKind, OtherKind}
  {
  }

  function NameOf(e: Entry): string {
    match e.kind
    case SingleKind => "single"
    case DropdownKind => "dropdown"
    case MultipleKind => "multiple"
    case MatrixKind => "matrix"
    case ScaleKind => "scale"
    case ScoreKind => "score"
    case SliderKind => "slider"
    case OrderKind => "order"
    case TextKind => if e.location then "location" else "text"
    case MultiTextKind => if e.location then "location" else "text"
    case OtherKind => ""
  }

  /** How many parallel arrays a table has. */
  function Width(t: Table): nat {
    match t
    case SingleTable => 3
    case DropdownTable => 2
    case MultipleTable => 2
    case MatrixTable => 1
    case ScaleTable => 1
    case SliderTable => 1
    case TextTable => 8
  }

  predicate IsLocation(e: Entry) {
    TableOf(e.kind) == Some(TextTable) && e.location
  }

  predicate WellFormed(e: Entry) {
    TableOf(e.kind).Some? && !e.kind.MatrixKind? ==> |e.fields| == Width(TableOf(e.kind).value)
  }

  // ---- matrix rows ----

  function RowCount(e: Entry): nat {
    if e.rows < 1 then 1 else e.rows
  }

  function OptionCount(e: Entry): nat
    ensures OptionCount(e) >= 1
  {
    if e.options < 1 then 1 else e.options
  }

  /** A raw row, fitted to the option count with weight 1 for what is missing, over its total; equal shares
      for a row that is missing or empty. */
  function RowOf(raw: Option<seq<Weight>>, n: nat): seq<real> {
    Normalized(FitRow(if raw.Some? then Convertible(raw.value) else [], n))
  }

  function FitRow(numbers: seq<Weight>, n: nat): (ws: seq<Weight>)
    ensures |ws| == n
  {
    seq(n, i requires 0 <= i < n => if i < |numbers| then numbers[i] else Finite(1.0))
  }

  /** Values that are no numbers are left out. */
  function Convertible(ws: seq<Weight>): seq<Weight> {
    if |ws| == 0 then []
    else
      var before := Convertible(ws[..|ws| - 1]);
      if ws[|ws| - 1].Finite? then before + [ws[|ws| - 1]] else before
  }

  /** The raw row used at position r: its own, or beyond the list the last one given. */
  function RawRow(rows: seq<Option<seq<Weight>>>, r: nat): Option<seq<Weight>> {
    if r < |rows| then rows[r] else LastGiven(rows)
  }

  function LastGiven(rows: seq<Option<seq<Weight>>>): Option<seq<Weight>> {
    if |rows| == 0 then None
    else if rows[|rows| - 1].Some? then rows[|rows| - 1]
    else LastGiven(rows[..|rows| - 1])
  }

  function MatrixRow(e: Entry, r: nat): Value {
    match e.source
    case PerRow(rows) => RowWeights(RowOf(RawRow(rows, r), OptionCount(e)))
    case ForAll(row) => RowWeights(RowOf(Some(row), OptionCount(e)))
    case Unset => NoWeights
  }

  function MatrixRows(e: Entry): (r: seq<Value>)
    ensures |r| == RowCount(e) && forall i {:trigger r[i]} :: 0 <= i < |r| ==> r[i] == MatrixRow(e, i)
  {
    seq(RowCount(e), i requires 0 <= i < RowCount(e) => MatrixRow(e, i))
  }

  method BuildMatrixRows(e: Entry) returns (out: seq<Value>)
    ensures out == MatrixRows(e)
    ensures |out| == if e.rows >= 1 then e.rows else 1
  {
    out := [];
    match e.source {
      case PerRow(rows) =>
        var last: Option<seq<Weight>> := None;
        hide RowOf;
        for r := 0 to RowCount(e)
          invariant |out| == r && forall i :: 0 <= i < r ==> out[i] == MatrixRow(e, i)
          invariant last == LastGiven(if r < |rows| then rows[..r] else rows)
        {
          var raw := if r < |rows| then rows[r] else last;
          out := out + [RowWeights(RowOf(raw, OptionCount(e)))];
          if raw.Some? {
            last := raw;
          }
          if r < |rows| {
            assert rows[..r + 1][..r] == rows[..r];
            assert r + 1 == |rows| ==> rows[..r + 1] == rows;
          }
        }
      case ForAll(row) =>
        for r := 0 to RowCount(e)
          invariant |out| == r && forall i :: 0 <= i < r ==> out[i] == MatrixRow(e, i)
        {
          out := out + [RowWeights(RowOf(Some(row), OptionCount(e)))];
        }
      case Unset =>
        for r := 0 to RowCount(e)
          invariant |out| == r && forall i :: 0 <= i < r ==> out[i] == MatrixRow(e, i)
        {
          out := out + [NoWeights];
        }
    }
  }

  /** Values that are all numbers are all kept; and of any list just the numbers are, with their multiplicity. */
  lemma {:induction false} ConvertibleKeeps(ws: seq<Weight>)
    ensures forall x :: multiset(Convertible(ws))[Finite(x)] == multiset(ws)[Finite(x)]
    ensures Unusable !in Convertible(ws)
    ensures (forall w :: w in ws ==> w.Finite?) ==> Convertible(ws) == ws
  {
    if |ws| > 0 {
      var n := |ws| - 1;
      ConvertibleKeeps(ws[..n]);
      assert ws == ws[..n] + [ws[n]];
    }
  }

  /** The last row that is given, if any is. */
  lemma {:induction false} LastGivenIsLast(rows: seq<Option<seq<Weight>>>)
    ensures LastGiven(rows).None? <==> forall r :: 0 <= r < |rows| ==> rows[r].None?
    ensures LastGiven(rows).Some? ==>
      exists r :: 0 <= r < |rows| && rows[r] == LastGiven(rows) && forall l :: r < l < |rows| ==> rows[l].None?
  {
    if |rows| > 0 {
      var n := |rows| - 1;
      LastGivenIsLast(rows[..n]);
      assert forall r :: 0 <= r < n ==> rows[..n][r] == rows[r];
    }
  }

  /** The value of option i in a row of numbers: missing ones count as one, and so do all of an empty or missing row. */
  function RowValue(numbers: seq<Weight>, i: nat): real {
    if i < |numbers| && numbers[i].Finite? then numbers[i].value else 1.0
  }

  /** A row gives every option its share of the row's numbers. */
  lemma RowIsProportional(raw: Option<seq<Weight>>, n: nat)
    requires n > 0
    ensures
      var numbers := if raw.Some? then Convertible(raw.value) else [];
      SharesOf(RowOf(raw, n), seq(n, i requires 0 <= i < n => RowValue(numbers, i)))
  {
    var numbers := if raw.Some? then Convertible(raw.value) else [];
    if raw.Some? {
      ConvertibleKeeps(raw.value);
    }
    NormalizedIsProportional(FitRow(numbers, n));
    FittedValues(numbers, n);
    hide SharesOf, Normalized, Convertible, FitRow;
  }

  /** Every row of a matrix question gives each of its options, of which there is at least one, its share of the numbers
      in the raw row: its own, or the last one given beyond the list, or the one row given for all. */
  lemma MatrixRowsAreProportional(e: Entry, r: nat)
    requires r < |MatrixRows(e)| && !e.source.Unset?
    ensures
      var n := if e.options >= 1 then e.options else 1;
      var raw := match e.source
        case PerRow(rows) => (if r < |rows| then rows[r] else LastGiven(rows))
        case ForAll(row) => Some(row)
        case Unset => None;
      var numbers := if raw.Some? then Convertible(raw.value) else [];
      && MatrixRows(e)[r].RowWeights?
      && SharesOf(MatrixRows(e)[r].weights, seq(n, i requires 0 <= i < n => RowValue(numbers, i)))
  {
    match e.source
    case PerRow(rows) => RowIsProportional(RawRow(rows, r), OptionCount(e));
    case ForAll(row) => RowIsProportional(Some(row), OptionCount(e));
  }

  lemma FittedValues(numbers: seq<Weight>, n: nat)
    requires Unusable !in numbers
    ensures Values(FitRow(numbers, n)) == seq(n, i requires 0 <= i < n => RowValue(numbers, i))
  {
    assert forall i :: 0 <= i < |numbers| ==> numbers[i] in numbers;
  }

  // ---- what one entry appends ----

  /** The values entry `e` appends to array `c` of table `t`. */
  function Appended(e: Entry, t: Table, c: nat): seq<Value>
    requires c < Width(t) && WellFormed(e)
  {
    if TableOf(e.kind) != Some(t) then []
    else if e.kind.MatrixKind? then MatrixRows(e)
    else [e.fields[c]]
  }

  function AppendCount(e: Entry, t: Table): nat {
    if TableOf(e.kind) != Some(t) then 0 else if e.kind.MatrixKind? then RowCount(e) else 1
  }

  lemma AppendedCount(e: Entry, t: Table, c: nat)
    requires c < Width(t) && WellFormed(e)
    ensures |Appended(e, t, c)| == AppendCount(e, t)
  {
  }

  /** How far the entry advances the counter of table `t`. */
  function Advance(e: Entry, t: Table): nat {
    if IsLocation(e) then 0 else AppendCount(e, t)
  }

  ghost predicate AllWellFormed(entries: seq<Entry>) {
    forall e :: e in entries ==> WellFormed(e)
  }

  /** An array after all entries. */
  function Column(entries: seq<Entry>, t: Table, c: nat): seq<Value>
    requires c < Width(t) && forall e :: e in entries ==> WellFormed(e)
  {
    if |entries| == 0 then [] else Column(entries[..|entries| - 1], t, c) + Appended(entries[|entries| - 1], t, c)
  }

  function Size(entries: seq<Entry>, t: Table): nat {
    if |entries| == 0 then 0 else Size(entries[..|entries| - 1], t) + AppendCount(entries[|entries| - 1], t)
  }

  function Counter(entries: seq<Entry>, t: Table): nat {
    if |entries| == 0 then 0 else Counter(entries[..|entries| - 1], t) + Advance(entries[|entries| - 1], t)
  }

  /** The index an entry is given after `before`; -1 when it has none. */
  function IndexOf(e: Entry, before: seq<Entry>): int {
    match TableOf(e.kind)
    case None => -1
    case Some(t) => if IsLocation(e) then -1 else Counter(before, t)
  }

  function IndexMap(entries: seq<Entry>): map<int, Mapped> {
    if |entries| == 0 then map[]
    else
      var n := |entries| - 1;
      var before := IndexMap(entries[..n]);
      if entries[n].kind.OtherKind? then before
      else before[NumberOf(entries[n], n) := Mapped(NameOf(entries[n]), IndexOf(entries[n], entries[..n]))]
  }

  // ---- the pass ----

  /** The arrays of one table, one sequence per array. */
  type Columns = seq<seq<Value>>

  /** One more entry, seen from each of the definitions. */
  lemma OneMoreColumn(entries: seq<Entry>, e: Entry, t: Table, c: nat)
    requires AllWellFormed(entries) && WellFormed(e) && c < Width(t)
    ensures AllWellFormed(entries + [e])
    ensures Column(entries + [e], t, c) == Column(entries, t, c) + Appended(e, t, c)
    ensures TableOf(e.kind) != Some(t) ==> Column(entries + [e], t, c) == Column(entries, t, c)
  {
    assert (entries + [e])[..|entries|] == entries;
  }

  lemma OneMoreCount(entries: seq<Entry>, e: Entry, t: Table)
    ensures Counter(entries + [e], t) == Counter(entries, t) + Advance(e, t)
    ensures Size(entries + [e], t) == Size(entries, t) + AppendCount(e, t)
  {
    assert (entries + [e])[..|entries|] == entries;
  }

  lemma OneMoreIndex(entries: seq<Entry>, e: Entry)
    ensures IndexMap(entries + [e]) ==
            if e.kind.OtherKind? then IndexMap(entries)
            else IndexMap(entries)[NumberOf(e, |entries|) := Mapped(NameOf(e), IndexOf(e, entries))]
  {
    assert (entries + [e])[..|entries|] == entries;
  }

  class ConfigTarget {
    var columns: map<Table, Columns>
    var index: map<int, Mapped>
    var counters: map<Table, nat>

    ghost predicate HoldsTable(entries: seq<Entry>, t: Table)
      requires AllWellFormed(entries)
      reads this
    {
      && t in columns && |columns[t]| == Width(t)
      && forall c: nat :: c < Width(t) ==> columns[t][c] == Column(entries, t, c)
    }

    ghost predicate Holds(entries: seq<Entry>)
      reads this
    {
      && AllWellFormed(entries)
      && (forall t: Table :: HoldsTable(entries, t))
      && (forall t: Table :: t in counters && counters[t] == Counter(entries, t))
      && index == IndexMap(entries)
    }

    /** The values of one entry go behind each array of its table. */
    method Append(t: Table, e: Entry, ghost entries: seq<Entry>)
      requires AllWellFormed(entries) && WellFormed(e) && TableOf(e.kind) == Some(t)
      requires HoldsTable(entries, t)
      modifies `columns
      ensures columns.Keys == old(columns.Keys) && forall u :: u in columns && u != t ==> columns[u] == old(columns[u])
      ensures t in columns && |columns[t]| == Width(t)
      ensures forall c: nat :: c < Width(t) ==> columns[t][c] == Column(entries, t, c) + Appended(e, t, c)
    {
      var rows: seq<Value> := [];
      if e.kind.MatrixKind? {
        rows := BuildMatrixRows(e);
      }
      var before := columns[t];
      var grown := seq(Width(t), c requires 0 <= c < Width(t) && |before| == Width(t) && (e.kind.MatrixKind? || |e.fields| == Width(t)) =>
        before[c] + if e.kind.MatrixKind? then rows else [e.fields[c]]);
      columns := columns[t := grown];
    }

    method AddEntry(e: Entry, position: nat, ghost entries: seq<Entry>)
      requires Holds(entries) && position == |entries| && WellFormed(e)
      modifies this
      ensures Holds(entries + [e])
    {
      var num := NumberOf(e, position);
      OneMoreIndex(entries, e);
      forall t: Table ensures Counter(entries + [e], t) == Counter(entries, t) + Advance(e, t) {
        OneMoreCount(entries, e, t);
      }
      forall t: Table, c: nat | c < Width(t)
        ensures AllWellFormed(entries + [e]) && Column(entries + [e], t, c) == Column(entries, t, c) + Appended(e, t, c)
        ensures TableOf(e.kind) != Some(t) ==> Column(entries + [e], t, c) == Column(entries, t, c)
      {
        OneMoreColumn(entries, e, t, c);
      }
      hide Column, Counter, IndexMap, MatrixRows;
      assert AllWellFormed(entries + [e]);
      match TableOf(e.kind) {
        case None =>
          if e.kind.OrderKind? {
            index := index[num := Mapped("order", -1)];
          }
        case Some(t) =>
          assert HoldsTable(entries, t);
          if IsLocation(e) {
            index := index[num := Mapped("location", -1)];
          } else {
            index := index[num := Mapped(NameOf(e), counters[t])];
            counters := counters[t := counters[t] + if e.kind.MatrixKind? then RowCount(e) else 1];
          }
          Append(t, e, entries);
      }
      forall t: Table ensures HoldsTable(entries + [e], t) {
        assert old(HoldsTable(entries, t));
      }
      forall t: Table ensures t in counters && counters[t] == Counter(entries + [e], t) {
        assert t in old(counters) && old(counters)[t] == Counter(entries, t);
      }
    }

    constructor ()
      ensures Holds([])
    {
      columns := map t: Table | true :: seq(Width(t), _ => []);
      counters := map t: Table | Width(t) > 0 :: 0;
      index := map[];
    }

    /** All entries in turn; the first rejected one ends the pass. */
    method Configure(entries: seq<Entry>) returns (ok: bool)
      requires Holds([]) && AllWellFormed(entries)
      modifies this
      ensures ok <==> forall e :: e in entries ==> !e.rejected
      ensures ok ==> Holds(entries)
    {
      for k := 0 to |entries|
        invariant Holds(entries[..k]) && forall e :: e in entries[..k] ==> !e.rejected
      {
        if entries[k].rejected {
          return false;
        }
        assert entries[..k] + [entries[k]] == entries[..k + 1];
        AddEntry(entries[k], k, entries[..k]);
      }
      assert entries[..|entries|] == entries;
      return true;
    }
  }

  // ---- what an index addresses ----

  ghost predicate DistinctNumbers(entries: seq<Entry>) {
    forall i, j :: 0 <= i < j < |entries| ==> NumberOf(entries[i], i) != NumberOf(entries[j], j)
  }

  /** The position where the values of entry i start in the arrays of its table. */
  function Start(entries: seq<Entry>, i: nat, t: Table): nat
    requires i < |entries|
  {
    Size(entries[..i], t)
  }

  lemma {:induction false} ColumnSize(entries: seq<Entry>, t: Table, c: nat)
    requires AllWellFormed(entries) && c < Width(t)
    ensures |Column(entries, t, c)| == Size(entries, t)
  {
    if |entries| > 0 {
      ColumnSize(entries[..|entries| - 1], t, c);
      AppendedCount(entries[|entries| - 1], t, c);
    }
  }

  /** `part` stands at position `at` of `all`. */
  ghost predicate StandsAt<T>(part: seq<T>, at: nat, all: seq<T>) {
    at + |part| <= |all| && all[at..at + |part|] == part
  }

  lemma StandsInFront<T>(part: seq<T>, at: nat, all: seq<T>, more: seq<T>)
    requires StandsAt(part, at, all)
    ensures StandsAt(part, at, all + more)
  {
    assert (all + more)[at..at + |part|] == all[at..at + |part|];
  }

  lemma StandsBehind<T>(all: seq<T>, part: seq<T>)
    ensures StandsAt(part, |all|, all + part)
  {
  }

  lemma ColumnSplits(entries: seq<Entry>, t: Table, c: nat)
    requires AllWellFormed(entries) && 0 < |entries| && c < Width(t)
    ensures
      var n := |entries| - 1;
      && AllWellFormed(entries[..n]) && WellFormed(entries[n])
      && Column(entries, t, c) == Column(entries[..n], t, c) + Appended(entries[n], t, c)
  {
  }

  lemma StandsStill(entries: seq<Entry>, i: nat, t: Table, c: nat)
    requires AllWellFormed(entries) && i < |entries| - 1 && c < Width(t) && WellFormed(entries[i])
    requires AllWellFormed(entries[..|entries| - 1])
    requires StandsAt(Appended(entries[i], t, c), Start(entries, i, t), Column(entries[..|entries| - 1], t, c))
    ensures StandsAt(Appended(entries[i], t, c), Start(entries, i, t), Column(entries, t, c))
  {
    var n := |entries| - 1;
    hide *;
    ColumnSplits(entries, t, c);
    StandsInFront(Appended(entries[i], t, c), Start(entries, i, t), Column(entries[..n], t, c), Appended(entries[n], t, c));
  }

  lemma StandsLast(entries: seq<Entry>, t: Table, c: nat)
    requires AllWellFormed(entries) && |entries| > 0 && c < Width(t) && WellFormed(entries[|entries| - 1])
    ensures StandsAt(Appended(entries[|entries| - 1], t, c), Start(entries, |entries| - 1, t), Column(entries, t, c))
  {
    var n := |entries| - 1;
    ColumnSplits(entries, t, c);
    hide Column, Appended, StandsAt, Size;
    ColumnSize(entries[..n], t, c);
    StandsBehind(Column(entries[..n], t, c), Appended(entries[n], t, c));
  }

  /** What entry i appended stands at its start. */
  lemma {:induction false} ColumnAt(entries: seq<Entry>, i: nat, t: Table, c: nat)
    requires AllWellFormed(entries) && i < |entries| && c < Width(t) && WellFormed(entries[i])
    ensures StandsAt(Appended(entries[i], t, c), Start(entries, i, t), Column(entries, t, c))
  {
    var n := |entries| - 1;
    hide Column, Appended, StandsAt, Size, WellFormed;
    if i < n {
      ColumnAt(entries[..n], i, t, c);
      assert entries[..n][..i] == entries[..i];
      StandsStill(entries, i, t, c);
    } else {
      StandsLast(entries, t, c);
    }
  }

  /** The map holds, for each entry, the index computed when its turn came. */
  lemma {:induction false} IndexMapAt(entries: seq<Entry>, i: nat)
    requires DistinctNumbers(entries) && i < |entries| && !entries[i].kind.OtherKind?
    ensures
      var num := NumberOf(entries[i], i);
      num in IndexMap(entries) && IndexMap(entries)[num] == Mapped(NameOf(entries[i]), IndexOf(entries[i], entries[..i]))
  {
    var n := |entries| - 1;
    if i < n {
      IndexMapAt(entries[..n], i);
      assert entries[..n][..i] == entries[..i];
      assert NumberOf(entries[i], i) != NumberOf(entries[n], n);
    }
  }

  /** Entries without numbers are found under their position, counted from one. */
  lemma UnnumberedByPosition(entries: seq<Entry>, i: nat)
    requires i < |entries| && !entries[i].kind.OtherKind? && forall e :: e in entries ==> e.num.None?
    ensures i + 1 in IndexMap(entries)
    ensures IndexMap(entries)[i + 1] == Mapped(NameOf(entries[i]), IndexOf(entries[i], entries[..i]))
  {
    forall j | 0 <= j < |entries| ensures NumberOf(entries[j], j) == j + 1 {
      assert entries[j] in entries;
    }
    hide IndexMap, IndexOf;
    IndexMapAt(entries, i);
  }

  function Locations(entries: seq<Entry>): nat {
    if |entries| == 0 then 0 else Locations(entries[..|entries| - 1]) + if IsLocation(entries[|entries| - 1]) then 1 else 0
  }

  /** A counter lags behind its arrays by the location entries; only the text counter does. */
  lemma {:induction false} CounterLag(entries: seq<Entry>, t: Table)
    ensures Counter(entries, t) + (if t.TextTable? then Locations(entries) else 0) == Size(entries, t)
  {
    if |entries| > 0 {
      CounterLag(entries[..|entries| - 1], t);
    }
  }

  lemma {:induction false} LocationsNoneIff(entries: seq<Entry>)
    ensures Locations(entries) == 0 <==> forall e :: e in entries ==> !IsLocation(e)
  {
    if |entries| > 0 {
      var front := entries[..|entries| - 1];
      LocationsNoneIff(front);
      assert forall e :: e in entries <==> e in front || e == entries[|entries| - 1];
    }
  }

  /** For distinct numbers, the index of a question other than a text addresses exactly what its entry appended,
      in every parallel array of its type. */
  lemma IndexAddressesEntry(entries: seq<Entry>, i: nat, t: Table, c: nat)
    requires AllWellFormed(entries) && DistinctNumbers(entries)
    requires i < |entries| && TableOf(entries[i].kind) == Some(t) && !t.TextTable? && c < Width(t)
    ensures
      var num := NumberOf(entries[i], i);
      && num in IndexMap(entries) && IndexMap(entries)[num].name == NameOf(entries[i])
      && var at, own := IndexMap(entries)[num].index, Appended(entries[i], t, c);
         at >= 0 && StandsAt(own, at, Column(entries, t, c))
  {
    IndexMapAt(entries, i);
    CounterLag(entries[..i], t);
    assert WellFormed(entries[i]);
    hide IndexMap, Column, Counter, Size, Appended;
    ColumnAt(entries, i, t, c);
  }

  /** The index of a text question lags behind the place of its values by the location entries before it, so it
      addresses them exactly when no location entry comes before. */
  lemma TextIndexIff(entries: seq<Entry>, i: nat)
    requires AllWellFormed(entries) && DistinctNumbers(entries)
    requires i < |entries| && TableOf(entries[i].kind) == Some(TextTable) && !entries[i].location
    ensures
      var num := NumberOf(entries[i], i);
      && num in IndexMap(entries)
      && IndexMap(entries)[num] == Mapped("text", Start(entries, i, TextTable) - Locations(entries[..i]))
      && (IndexMap(entries)[num].index == Start(entries, i, TextTable) <==> forall e :: e in entries[..i] ==> !IsLocation(e))
  {
    IndexMapAt(entries, i);
    CounterLag(entries[..i], TextTable);
    LocationsNoneIff(entries[..i]);
    hide IndexMap, Counter, Size, Locations;
  }

  /** With no location entry before it, a text question's index addresses its values in all eight arrays. */
  lemma TextIndexAddressesEntry(entries: seq<Entry>, i: nat, c: nat)
    requires AllWellFormed(entries) && DistinctNumbers(entries) && c < Width(TextTable)
    requires i < |entries| && TableOf(entries[i].kind) == Some(TextTable) && !entries[i].location
    requires forall e :: e in entries[..i] ==> !IsLocation(e)
    ensures
      var num := NumberOf(entries[i], i);
      && num in IndexMap(entries)
      && IndexMap(entries)[num].index >= 0 && c < |entries[i].fields|
      && StandsAt([entries[i].fields[c]], IndexMap(entries)[num].index, Column(entries, TextTable, c))
  {
    TextIndexIff(entries, i);
    assert WellFormed(entries[i]);
    ColumnAt(entries, i, TextTable, c);
    hide IndexMap, Column, Start, StandsAt;
    assert Appended(entries[i], TextTable, c) == [entries[i].fields[c]];
  }

  /** The last entry that reaches beyond position k, when the table does. */
  lemma {:induction false} OwnerExists(entries: seq<Entry>, t: Table, k: nat) returns (i: nat)
    requires k < Size(entries, t)
    ensures i < |entries| && Start(entries, i, t) <= k < Start(entries, i, t) + AppendCount(entries[i], t)
  {
    var n := |entries| - 1;
    if k < Size(entries[..n], t) {
      i := OwnerExists(entries[..n], t, k);
      assert entries[..n][..i] == entries[..i];
    } else {
      i := n;
    }
  }

  lemma {:induction false} StartsAscend(entries: seq<Entry>, i: nat, j: nat, t: Table)
    requires i < j < |entries|
    ensures Start(entries, i, t) + AppendCount(entries[i], t) <= Start(entries, j, t)
    decreases j
  {
    assert entries[..j][..j - 1] == entries[..j - 1];
    if i < j - 1 {
      StartsAscend(entries, i, j - 1, t);
    }
  }

  /** Row k of the matrix weights belongs to the block [index, index + rows) of this question. */
  ghost predicate OwnsRow(entries: seq<Entry>, j: nat, k: nat)
    requires j < |entries|
  {
    var num := NumberOf(entries[j], j);
    && num in IndexMap(entries) && IndexMap(entries)[num].name == "matrix"
    && IndexMap(entries)[num].index <= k < IndexMap(entries)[num].index + RowCount(entries[j])
  }

  /** Matrix blocks are disjoint, in the order of the entries, and cover the matrix weights: every row belongs to
      the block of exactly one matrix question. */
  lemma MatrixBlocksCover(entries: seq<Entry>, k: nat) returns (i: nat)
    requires AllWellFormed(entries) && DistinctNumbers(entries) && k < |Column(entries, MatrixTable, 0)|
    ensures i < |entries| && entries[i].kind.MatrixKind?
    ensures forall j: nat :: j < |entries| && entries[j].kind.MatrixKind? ==> (OwnsRow(entries, j, k) <==> j == i)
  {
    hide *;
    i := RowOwner(entries, k);
    forall j: nat | j < |entries| && entries[j].kind.MatrixKind? ensures OwnsRow(entries, j, k) <==> j == i {
      OneOwner(entries, i, j, k);
    }
  }

  lemma RowOwner(entries: seq<Entry>, k: nat) returns (i: nat)
    requires AllWellFormed(entries) && k < |Column(entries, MatrixTable, 0)|
    ensures i < |entries| && entries[i].kind.MatrixKind?
    ensures Start(entries, i, MatrixTable) <= k < Start(entries, i, MatrixTable) + RowCount(entries[i])
  {
    hide Column, Size;
    ColumnSize(entries, MatrixTable, 0);
    i := OwnerExists(entries, MatrixTable, k);
  }

  lemma OneOwner(entries: seq<Entry>, i: nat, j: nat, k: nat)
    requires DistinctNumbers(entries) && i < |entries| && j < |entries|
    requires entries[i].kind.MatrixKind? && entries[j].kind.MatrixKind?
    requires Start(entries, i, MatrixTable) <= k < Start(entries, i, MatrixTable) + RowCount(entries[i])
    ensures OwnsRow(entries, j, k) <==> j == i
  {
    hide Size, IndexMap, DistinctNumbers;
    MatrixStart(entries, j);
    if j < i {
      StartsAscend(entries, j, i, MatrixTable);
    }
    if i < j {
      StartsAscend(entries, i, j, MatrixTable);
    }
  }

  lemma MatrixStart(entries: seq<Entry>, j: nat)
    requires DistinctNumbers(entries) && j < |entries| && entries[j].kind.MatrixKind?
    ensures
      var num := NumberOf(entries[j], j);
      num in IndexMap(entries) && IndexMap(entries)[num] == Mapped("matrix", Start(entries, j, MatrixTable))
  {
    hide IndexMap, Counter, Size, Locations, DistinctNumbers;
    IndexMapAt(entries, j);
    CounterLag(entries[..j], MatrixTable);
  }

  /** A location question before a text question: the text question is sent to the location's values. */
  lemma LocationShiftsTexts(location: Entry, text: Entry)
    requires WellFormed(location) && WellFormed(text)
    requires location.kind.TextKind? && location.location && location.num == Some(1)
    requires text.kind.TextKind? && !text.location && text.num == Some(2)
    ensures
      var entries := [location, text];
      && AllWellFormed(entries) && IndexMap(entries)[2] == Mapped("text", 0)
      && Column(entries, TextTable, 0) == [location.fields[0], text.fields[0]]
  {
    var entries := [location, text];
    assert entries[..1] == [location] && [location][..0] == [];
    assert Counter([location], TextTable) == 0;
    assert Column([location], TextTable, 0) == [] + [location.fields[0]];
    assert Column(entries, TextTable, 0) == Column([location], TextTable, 0) + [text.fields[0]];
  }
}
