/** The submit text of a filled-in survey: a nested encoding by delimiters, and a decoder for it. */
module WireFormat {
  import opened Wrappers
  import opened Sorting
  import opened Text

  // ---- escaping ----

  /** The replacements, in the order in which they are made. */
  const REPLACEMENTS: seq<(char, char)> :=
    [('$', '\U{03BE}'), ('}', '\U{FF5D}'), ('^', '\U{02C6}'), ('|', '\U{00A6}'), ('!', '\U{FF01}'), ('<', '\U{FF1C}')]

  const WIDE_COMMA := '\U{FF0C}'

  /** What all replacements together do to a character. */
  function Substitute(c: char): (r: char)
    ensures r == c || (!IsSpace(c) && !IsSpace(r))
  {
    match c
    case '$' => '\U{03BE}'
    case '}' => '\U{FF5D}'
    case '^' => '\U{02C6}'
    case '|' => '\U{00A6}'
    case '!' => '\U{FF01}'
    case '<' => '\U{FF1C}'
    case _ => c
  }

  function SubstituteAll(s: string): (r: string)
    ensures |r| == |s|
    ensures forall i {:trigger r[i]} :: 0 <= i < |s| ==> r[i] == Substitute(s[i])
  {
    seq(|s|, i requires 0 <= i < |s| => Substitute(s[i]))
  }

  function Escaped(value: string): string {
    SubstituteAll(Strip(value))
  }

  function AfterReplacements(s: string, k: nat): string
    requires k <= |REPLACEMENTS|
  {
    if k == 0 then s else Replace(AfterReplacements(s, k - 1), REPLACEMENTS[k - 1].0, REPLACEMENTS[k - 1].1)
  }

  /** No replacement produces a character that a later one looks for, so one after the other they
      amount to a single simultaneous substitution. */
  lemma ReplacementsAreSimultaneous(s: string)
    ensures AfterReplacements(s, |REPLACEMENTS|) == SubstituteAll(s)
  {
    assert |REPLACEMENTS| == 6;
    var s1 := Replace(s, '$', '\U{03BE}');
    var s2 := Replace(s1, '}', '\U{FF5D}');
    var s3 := Replace(s2, '^', '\U{02C6}');
    var s4 := Replace(s3, '|', '\U{00A6}');
    var s5 := Replace(s4, '!', '\U{FF01}');
    var s6 := Replace(s5, '<', '\U{FF1C}');
    assert AfterReplacements(s, 3) == s3 by {
      assert AfterReplacements(s, 0) == s;
      assert AfterReplacements(s, 1) == s1;
      assert AfterReplacements(s, 2) == s2;
    }
    assert AfterReplacements(s, 4) == s4;
    assert AfterReplacements(s, 5) == s5;
    assert AfterReplacements(s, 6) == s6;
    forall i | 0 <= i < |s| ensures s6[i] == SubstituteAll(s)[i] {
      assert s1[i] == if s[i] == '$' then '\U{03BE}' else s[i];
    }
  }

  method EscapeSubmitText(value: string) returns (text: string)
    ensures text == Escaped(value)
  {
    text := Strip(value);
    if text == "" {
      return "";
    }
    ghost var was := text;
    for k := 0 to |REPLACEMENTS|
      invariant text == AfterReplacements(was, k)
    {
      text := Replace(text, REPLACEMENTS[k].0, REPLACEMENTS[k].1);
    }
    ReplacementsAreSimultaneous(was);
  }

  predicate Delimiter(c: char) {
    c == '$' || c == '}' || c == '^' || c == '|' || c == '!' || c == '<'
  }

  lemma StripTrimmed(s: string)
    requires Trimmed(s)
    ensures Strip(s) == s
  {
  }

  /** An escaped text holds no delimiter and is its own escape. */
  lemma EscapedIsClean(value: string)
    ensures forall c :: c in Escaped(value) ==> !Delimiter(c)
    ensures Escaped(Escaped(value)) == Escaped(value)
  {
    var s := Strip(value);
    StripTrims(value);
    hide Strip;
    assert Trimmed(SubstituteAll(s));
    StripTrimmed(SubstituteAll(s));
    assert SubstituteAll(SubstituteAll(s)) == SubstituteAll(s);
  }

  // ---- actions and their answers ----

  predicate SliderCharacter(c: char) {
    NumeralCharacter(c) || c == '+' || c == '.' || 'a' <= c <= 'z'
  }

  /** The text of a number as the program writes it. */
  type NumberText = s: string | s != "" && forall c :: c in s ==> SliderCharacter(c) witness "0"

  datatype Kind = Choice | Select | TextKind | Matrix | Slider | Order | OtherKind

  datatype Action = Action(num: int, kind: Kind, selected: seq<int>, fills: seq<(int, string)>, texts: seq<string>,
                           matrix: seq<int>, slider: Option<NumberText>)

  /** The escaped text filled in beside an option: the last nonempty one given for it. */
  function FillFor(fills: seq<(int, string)>, index: int): string {
    if |fills| == 0 then ""
    else
      var last := fills[|fills| - 1];
      if last.0 == index && Escaped(last.1) != "" then Escaped(last.1) else FillFor(fills[..|fills| - 1], index)
  }

  function OptionPart(index: int, fill: string): string {
    if fill == "" then IntText(index + 1) else IntText(index + 1) + "^" + fill
  }

  function OptionParts(selected: seq<int>, fills: seq<(int, string)>): (r: seq<string>)
    ensures |r| == |selected|
    ensures forall i {:trigger r[i]} :: 0 <= i < |r| ==> r[i] == OptionPart(selected[i], FillFor(fills, selected[i]))
  {
    seq(|selected|, i requires 0 <= i < |selected| => OptionPart(selected[i], FillFor(fills, selected[i])))
  }

  function Lookup(table: map<int, string>, index: int): string {
    if index in table then table[index] else ""
  }

  method FillTable(fills: seq<(int, string)>) returns (table: map<int, string>)
    ensures forall i :: Lookup(table, i) == FillFor(fills, i)
  {
    hide Escaped;
    table := map[];
    for k := 0 to |fills|
      invariant forall i :: Lookup(table, i) == FillFor(fills[..k], i)
    {
      assert fills[..k + 1][..k] == fills[..k];
      var text := EscapeSubmitText(fills[k].1);
      ghost var before := table;
      if text != "" {
        table := table[fills[k].0 := text];
      }
      forall i ensures Lookup(table, i) == FillFor(fills[..k + 1], i) {
        assert Lookup(before, i) == FillFor(fills[..k], i);
      }
    }
    assert fills[..|fills|] == fills;
  }

  method FormatSelectedIndices(selected: seq<int>, fills: seq<(int, string)>) returns (r: string)
    ensures r == Join(OptionParts(selected, fills), '|')
  {
    var table := FillTable(fills);
    var parts: seq<string> := [];
    hide FillFor, IntText, Join;
    for k := 0 to |selected|
      invariant |parts| == k
      invariant forall i :: 0 <= i < k ==> parts[i] == OptionPart(selected[i], FillFor(fills, selected[i]))
    {
      var value := IntText(selected[k] + 1);
      var fill := Lookup(table, selected[k]);
      if fill != "" {
        value := value + "^" + fill;
      }
      parts := parts + [value];
    }
    assert parts == OptionParts(selected, fills);
    return Join(parts, '|');
  }

  function EscapedTexts(texts: seq<string>): (r: seq<string>)
    ensures |r| == |texts| && forall i {:trigger r[i]} :: 0 <= i < |r| ==> r[i] == Escaped(texts[i])
  {
    seq(|texts|, i requires 0 <= i < |texts| => Escaped(texts[i]))
  }

  function RowPart(row: int, item: int): string {
    IntText(row + 1) + "!" + IntText(item + 1)
  }

  function RowParts(items: seq<int>): (r: seq<string>)
    ensures |r| == |items| && forall i {:trigger r[i]} :: 0 <= i < |r| ==> r[i] == RowPart(i, items[i])
  {
    seq(|items|, i requires 0 <= i < |items| => RowPart(i, items[i]))
  }

  function NumberParts(items: seq<int>): (r: seq<string>)
    ensures |r| == |items| && forall i {:trigger r[i]} :: 0 <= i < |r| ==> r[i] == IntText(items[i] + 1)
  {
    seq(|items|, i requires 0 <= i < |items| => IntText(items[i] + 1))
  }

  function AnswerText(a: Action): string {
    match a.kind
    case Choice => Join(OptionParts(a.selected, a.fills), '|')
    case Select => Join(OptionParts(a.selected, a.fills), '|')
    case TextKind => Join(EscapedTexts(a.texts), '^')
    case Matrix => Join(RowParts(a.matrix), ',')
    case Slider => if a.slider.Some? then a.slider.value else ""
    case Order => Join(NumberParts(a.selected), ',')
    case OtherKind => ""
  }

  /** What the submit text carries of an answer. */
  function Carried(text: string): string {
    Replace(text, WIDE_COMMA, ',')
  }

  /** What survives of a text a user typed. */
  function Kept(value: string): string {
    Carried(Escaped(value))
  }

  // ---- decoding one answer, by the kind of its question ----

  datatype Chosen = Chosen(index: int, fill: string)

  function ReadOption(part: string): Chosen {
    var pieces := Split(part, '^');
    Chosen(ReadInt(pieces[0]) - 1, if |pieces| > 1 then pieces[1] else "")
  }

  function ReadOptions(answer: string): seq<Chosen> {
    var parts := Split(answer, '|');
    seq(|parts|, i requires 0 <= i < |parts| => ReadOption(parts[i]))
  }

  function ReadTexts(answer: string): seq<string> {
    Split(answer, '^')
  }

  function ReadRow(part: string): (int, int) {
    var pieces := Split(part, '!');
    (ReadInt(pieces[0]) - 1, if |pieces| > 1 then ReadInt(pieces[1]) - 1 else 0)
  }

  function ReadRows(answer: string): seq<(int, int)> {
    var parts := Split(answer, ',');
    seq(|parts|, i requires 0 <= i < |parts| => ReadRow(parts[i]))
  }

  function ReadNumbers(answer: string): seq<int> {
    var parts := Split(answer, ',');
    seq(|parts|, i requires 0 <= i < |parts| => ReadInt(parts[i]) - 1)
  }

  // ---- properties of the parts ----

  lemma {:induction false} FillIsClean(fills: seq<(int, string)>, index: int)
    ensures forall c :: c in FillFor(fills, index) ==> !Delimiter(c)
  {
    if |fills| > 0 {
      EscapedIsClean(fills[|fills| - 1].1);
      FillIsClean(fills[..|fills| - 1], index);
    }
  }

  lemma NumeralHas(n: int, c: char)
    requires !NumeralCharacter(c)
    ensures c !in IntText(n)
  {
  }

  lemma CarriedOptionPart(index: int, fill: string)
    ensures Carried(OptionPart(index, fill)) == OptionPart(index, Carried(fill))
  {
    NumeralHas(index + 1, WIDE_COMMA);
    ReplaceAbsent(IntText(index + 1), WIDE_COMMA, ',');
    ReplaceConcat(IntText(index + 1) + "^", fill, WIDE_COMMA, ',');
    ReplaceConcat(IntText(index + 1), "^", WIDE_COMMA, ',');
    ReplaceAbsent("^", WIDE_COMMA, ',');
  }

  lemma CarriedClean(s: string)
    requires forall c :: c in s ==> !Delimiter(c)
    ensures forall c :: c in Carried(s) ==> !Delimiter(c)
  {
  }

  lemma OptionPartReads(index: int, fill: string)
    requires forall c :: c in fill ==> !Delimiter(c)
    ensures ReadOption(OptionPart(index, fill)) == Chosen(index, fill)
    ensures '|' !in OptionPart(index, fill)
  {
    var number := IntText(index + 1);
    NumeralHas(index + 1, '^');
    NumeralHas(index + 1, '|');
    ReadIntText(index + 1);
    if fill == "" {
      SplitPiece(number, '^');
    } else {
      SplitAtDelimiter(number, fill, '^');
      SplitPiece(fill, '^');
      assert number + "^" + fill == number + ['^'] + fill;
    }
  }

  /** The options of a choice come back, each with its fill up to the fixed substitutions. */
  lemma ChoiceRoundTrip(a: Action)
    requires (a.kind.Choice? || a.kind.Select?) && a.selected != []
    ensures
      var read := ReadOptions(Carried(AnswerText(a)));
      && |read| == |a.selected|
      && forall i :: 0 <= i < |read| ==> read[i] == Chosen(a.selected[i], Carried(FillFor(a.fills, a.selected[i])))
  {
    var parts := OptionParts(a.selected, a.fills);
    var carried := ReplaceAll(parts, WIDE_COMMA, ',');
    ReplaceJoin(parts, '|', WIDE_COMMA, ',');
    forall i | 0 <= i < |parts|
      ensures ReadOption(carried[i]) == Chosen(a.selected[i], Carried(FillFor(a.fills, a.selected[i])))
      ensures '|' !in carried[i]
    {
      var fill := FillFor(a.fills, a.selected[i]);
      CarriedOptionPart(a.selected[i], fill);
      FillIsClean(a.fills, a.selected[i]);
      CarriedClean(fill);
      OptionPartReads(a.selected[i], Carried(fill));
      assert carried[i] == Carried(parts[i]);
    }
    SplitJoin(carried, '|');
  }

  /** Every typed text comes back up to the fixed substitutions. */
  lemma TextRoundTrip(a: Action)
    requires a.kind.TextKind? && a.texts != []
    ensures
      var read := ReadTexts(Carried(AnswerText(a)));
      && |read| == |a.texts|
      && forall i :: 0 <= i < |read| ==> read[i] == Kept(a.texts[i])
  {
    var parts := EscapedTexts(a.texts);
    var carried := ReplaceAll(parts, WIDE_COMMA, ',');
    ReplaceJoin(parts, '^', WIDE_COMMA, ',');
    forall i | 0 <= i < |parts| ensures '^' !in carried[i] && carried[i] == Kept(a.texts[i]) {
      EscapedIsClean(a.texts[i]);
      CarriedClean(parts[i]);
      assert Delimiter('^');
    }
    SplitJoin(carried, '^');
  }

  lemma RowPartReads(row: int, item: int)
    ensures ReadRow(RowPart(row, item)) == (row, item)
    ensures forall c :: c in RowPart(row, item) ==> NumeralCharacter(c) || c == '!'
  {
    NumeralHas(row + 1, '!');
    NumeralHas(item + 1, '!');
    ReadIntText(row + 1);
    ReadIntText(item + 1);
    SplitAtDelimiter(IntText(row + 1), IntText(item + 1), '!');
    SplitPiece(IntText(item + 1), '!');
    assert RowPart(row, item) == IntText(row + 1) + ['!'] + IntText(item + 1);
  }

  lemma MatrixRoundTrip(a: Action)
    requires a.kind.Matrix? && a.matrix != []
    ensures
      var read := ReadRows(Carried(AnswerText(a)));
      && |read| == |a.matrix|
      && forall i :: 0 <= i < |read| ==> read[i] == (i, a.matrix[i])
  {
    var parts := RowParts(a.matrix);
    forall i | 0 <= i < |parts|
      ensures ReadRow(parts[i]) == (i, a.matrix[i])
      ensures ',' !in parts[i] && WIDE_COMMA !in parts[i]
    {
      RowPartReads(i, a.matrix[i]);
    }
    JoinCharacters(parts, ',', WIDE_COMMA);
    ReplaceAbsent(Join(parts, ','), WIDE_COMMA, ',');
    SplitJoin(parts, ',');
  }

  lemma OrderRoundTrip(a: Action)
    requires a.kind.Order? && a.selected != []
    ensures ReadNumbers(Carried(AnswerText(a))) == a.selected
  {
    var parts := NumberParts(a.selected);
    forall i | 0 <= i < |parts|
      ensures ReadInt(parts[i]) == a.selected[i] + 1
      ensures ',' !in parts[i] && WIDE_COMMA !in parts[i]
    {
      ReadIntText(a.selected[i] + 1);
    }
    JoinCharacters(parts, ',', WIDE_COMMA);
    ReplaceAbsent(Join(parts, ','), WIDE_COMMA, ',');
    SplitJoin(parts, ',');
  }

  lemma SliderRoundTrip(a: Action)
    requires a.kind.Slider? && a.slider.Some?
    ensures Carried(AnswerText(a)) == a.slider.value
  {
    ReplaceAbsent(a.slider.value, WIDE_COMMA, ',');
  }

  /** An action leaves an entry in the submit text exactly when it carries something. */
  lemma AnswerEmptyIff(a: Action)
    ensures AnswerText(a) == "" <==>
            match a.kind
            case Choice => a.selected == []
            case Select => a.selected == []
            case TextKind => a.texts == [] || (|a.texts| == 1 && Strip(a.texts[0]) == "")
            case Matrix => a.matrix == []
            case Slider => a.slider.None?
            case Order => a.selected == []
            case OtherKind => true
  {
    JoinEmptyIff(OptionParts(a.selected, a.fills), '|');
    JoinEmptyIff(EscapedTexts(a.texts), '^');
    JoinEmptyIff(RowParts(a.matrix), ',');
    JoinEmptyIff(NumberParts(a.selected), ',');
    hide Join, IntText, Strip;
    if |a.selected| == 1 {
      assert OptionParts(a.selected, a.fills)[0] != "" && NumberParts(a.selected)[0] != "";
    }
    if |a.matrix| == 1 {
      assert RowParts(a.matrix)[0] != "";
    }
    if |a.texts| == 1 {
      assert EscapedTexts(a.texts)[0] == Escaped(a.texts[0]);
    }
  }

  // ---- the whole submit text ----

  /** The metadata of a question that matters when it is skipped. */
  datatype Skippable = Skippable(num: int, typeCode: string, options: int, rows: int)

  const SKIPPED := "-3"
  const SKIPPED_TEXT := "(\U{8DF3}\U{8FC7})"

  function Copies(s: string, n: nat): (r: seq<string>)
    ensures |r| == n && forall i {:trigger r[i]} :: 0 <= i < n ==> r[i] == s
  {
    seq(n, _ => s)
  }

  function SkippedRows(n: nat): (r: seq<string>)
    ensures |r| == n && forall i {:trigger r[i]} :: 0 <= i < n ==> r[i] == IntText(i + 1) + "!" + SKIPPED
  {
    seq(n, i requires 0 <= i < n => IntText(i + 1) + "!" + SKIPPED)
  }

  function AtLeastOne(n: int): nat {
    if n < 1 then 1 else n
  }

  function SkippedText(q: Skippable): string {
    if q.typeCode in ["3", "4", "5", "7"] then SKIPPED
    else if q.typeCode == "11" then Join(Copies(SKIPPED, AtLeastOne(q.options)), ',')
    else if q.typeCode == "6" then Join(SkippedRows(AtLeastOne(q.rows)), ',')
    else if q.typeCode in ["1", "2", "8", "9", "33", "34"] then SKIPPED_TEXT
    else SKIPPED
  }

  /** The last action for a positive number. */
  function ActionFor(actions: seq<Action>, num: int): Option<Action> {
    if |actions| == 0 || num <= 0 then None
    else if actions[|actions| - 1].num == num then Some(actions[|actions| - 1])
    else ActionFor(actions[..|actions| - 1], num)
  }

  function QuestionFor(questions: seq<Skippable>, num: int): Option<Skippable> {
    if |questions| == 0 || num <= 0 then None
    else if questions[|questions| - 1].num == num then Some(questions[|questions| - 1])
    else QuestionFor(questions[..|questions| - 1], num)
  }

  function EntryText(actions: seq<Action>, questions: seq<Skippable>, num: int): string {
    match ActionFor(actions, num)
    case Some(a) => AnswerText(a)
    case None =>
      match QuestionFor(questions, num)
      case Some(q) => SkippedText(q)
      case None => SKIPPED
  }

  /** The positive members, each at its first occurrence. */
  function Once(nums: seq<int>): (r: seq<int>)
    ensures forall x :: x in r <==> x in nums && x > 0
    ensures Distinct(r)
  {
    if |nums| == 0 then []
    else
      var before, x := Once(nums[..|nums| - 1]), nums[|nums| - 1];
      assert forall y :: y in nums <==> y in nums[..|nums| - 1] || y == x;
      if x <= 0 || x in before then before else before + [x]
  }

  function Numbers(actions: seq<Action>): (r: seq<int>)
    ensures |r| == |actions| && forall i {:trigger r[i]} :: 0 <= i < |r| ==> r[i] == actions[i].num
  {
    seq(|actions|, i requires 0 <= i < |actions| => actions[i].num)
  }

  function OrderedNumbers(actions: seq<Action>, skipped: seq<int>): seq<int> {
    Sort(IntAtMost, Once(Numbers(actions) + skipped))
  }

  datatype SubmitError = NothingToSubmit

  datatype Entry = Entry(num: int, answer: string)

  /** The entries for `nums`, without those whose answer is empty. */
  function Entries(actions: seq<Action>, questions: seq<Skippable>, nums: seq<int>): seq<Entry> {
    if |nums| == 0 then []
    else
      var before, num := Entries(actions, questions, nums[..|nums| - 1]), nums[|nums| - 1];
      var answer := EntryText(actions, questions, num);
      if answer == "" then before else before + [Entry(num, Carried(answer))]
  }

  function EntryPart(e: Entry): string {
    IntText(e.num) + "$" + e.answer
  }

  function EntryParts(entries: seq<Entry>): (r: seq<string>)
    ensures |r| == |entries| && forall i {:trigger r[i]} :: 0 <= i < |r| ==> r[i] == EntryPart(entries[i])
  {
    seq(|entries|, i requires 0 <= i < |entries| => EntryPart(entries[i]))
  }

  function SubmissionEntries(actions: seq<Action>, questions: seq<Skippable>, skipped: seq<int>): seq<Entry> {
    Entries(actions, questions, OrderedNumbers(actions, skipped))
  }

  function Submission(actions: seq<Action>, questions: seq<Skippable>, skipped: seq<int>): Result<string, SubmitError> {
    var entries := SubmissionEntries(actions, questions, skipped);
    if entries == [] then Failure(NothingToSubmit) else Success(Join(EntryParts(entries), '}'))
  }

  method SubmitDataFromActions(actions: seq<Action>, questions: seq<Skippable>, skipped: seq<int>)
    returns (r: Result<string, SubmitError>)
    ensures r == Submission(actions, questions, skipped)
  {
    var nums := OrderedNumbers(actions, skipped);
    var parts: seq<string> := [];
    hide OrderedNumbers, EntryText, Carried, EntryPart;
    for k := 0 to |nums|
      invariant parts == EntryParts(Entries(actions, questions, nums[..k]))
    {
      assert nums[..k + 1][..k] == nums[..k];
      var answer := EntryText(actions, questions, nums[k]);
      if answer != "" {
        parts := parts + [EntryPart(Entry(nums[k], Carried(answer)))];
      }
    }
    assert nums[..|nums|] == nums;
    if parts == [] {
      return Failure(NothingToSubmit);
    }
    return Success(Join(parts, '}'));
  }

  // ---- and back ----

  function ReadEntry(part: string): Entry {
    var pieces := Split(part, '$');
    Entry(ReadInt(pieces[0]), if |pieces| > 1 then pieces[1] else "")
  }

  function ReadSubmission(text: string): seq<Entry> {
    var parts := Split(text, '}');
    seq(|parts|, i requires 0 <= i < |parts| => ReadEntry(parts[i]))
  }

  predicate OuterClean(s: string) {
    '$' !in s && '}' !in s
  }

  lemma JoinOuterClean(parts: seq<string>, d: char)
    requires d != '$' && d != '}' && forall p :: p in parts ==> OuterClean(p)
    ensures OuterClean(Join(parts, d))
  {
    JoinCharacters(parts, d, '$');
    JoinCharacters(parts, d, '}');
  }

  lemma OptionsOuterClean(selected: seq<int>, fills: seq<(int, string)>)
    ensures OuterClean(Join(OptionParts(selected, fills), '|'))
  {
    hide Join;
    forall i | 0 <= i < |selected| ensures OuterClean(OptionParts(selected, fills)[i]) {
      FillIsClean(fills, selected[i]);
      assert Delimiter('$') && Delimiter('}');
    }
    JoinOuterClean(OptionParts(selected, fills), '|');
  }

  lemma TextsOuterClean(texts: seq<string>)
    ensures OuterClean(Join(EscapedTexts(texts), '^'))
  {
    hide Join;
    forall i | 0 <= i < |texts| ensures OuterClean(EscapedTexts(texts)[i]) {
      EscapedIsClean(texts[i]);
      assert Delimiter('$') && Delimiter('}');
    }
    JoinOuterClean(EscapedTexts(texts), '^');
  }

  lemma NumeralsOuterClean(items: seq<int>)
    ensures OuterClean(Join(RowParts(items), ','))
    ensures OuterClean(Join(NumberParts(items), ','))
  {
    hide Join;
    forall i | 0 <= i < |items| ensures OuterClean(RowParts(items)[i]) {
      RowPartReads(i, items[i]);
    }
    JoinOuterClean(RowParts(items), ',');
    JoinOuterClean(NumberParts(items), ',');
  }

  lemma AnswerOuterClean(a: Action)
    ensures OuterClean(AnswerText(a))
  {
    hide Join;
    OptionsOuterClean(a.selected, a.fills);
    TextsOuterClean(a.texts);
    NumeralsOuterClean(a.matrix);
    NumeralsOuterClean(a.selected);
  }

  lemma SkippedOuterClean(q: Skippable)
    ensures OuterClean(SkippedText(q))
  {
    JoinOuterClean(Copies(SKIPPED, AtLeastOne(q.options)), ',');
    JoinOuterClean(SkippedRows(AtLeastOne(q.rows)), ',');
  }

  lemma EntryTextOuterClean(actions: seq<Action>, questions: seq<Skippable>, num: int)
    ensures OuterClean(Carried(EntryText(actions, questions, num)))
  {
    match ActionFor(actions, num)
    case Some(a) => AnswerOuterClean(a);
    case None =>
      match QuestionFor(questions, num)
      case Some(q) => SkippedOuterClean(q);
      case None =>
  }

  lemma {:induction false} EntriesOuterClean(actions: seq<Action>, questions: seq<Skippable>, nums: seq<int>)
    ensures forall e :: e in Entries(actions, questions, nums) ==> OuterClean(e.answer)
  {
    if |nums| > 0 {
      EntriesOuterClean(actions, questions, nums[..|nums| - 1]);
      EntryTextOuterClean(actions, questions, nums[|nums| - 1]);
    }
  }

  lemma EntryReads(e: Entry)
    requires OuterClean(e.answer)
    ensures ReadEntry(EntryPart(e)) == e && '}' !in EntryPart(e)
  {
    NumeralHas(e.num, '$');
    NumeralHas(e.num, '}');
    ReadIntText(e.num);
    SplitAtDelimiter(IntText(e.num), e.answer, '$');
    SplitPiece(e.answer, '$');
    assert EntryPart(e) == IntText(e.num) + ['$'] + e.answer;
  }

  /** Reading a submit text gives back exactly its entries, in order. */
  lemma SubmissionRoundTrip(actions: seq<Action>, questions: seq<Skippable>, skipped: seq<int>, text: string)
    requires Submission(actions, questions, skipped) == Success(text)
    ensures ReadSubmission(text) == SubmissionEntries(actions, questions, skipped)
  {
    var entries := SubmissionEntries(actions, questions, skipped);
    var parts := EntryParts(entries);
    EntriesOuterClean(actions, questions, OrderedNumbers(actions, skipped));
    assert forall i :: 0 <= i < |entries| ==> entries[i] in entries;
    hide SubmissionEntries, EntryPart, ReadEntry, OuterClean;
    forall i | 0 <= i < |parts| ensures ReadEntry(parts[i]) == entries[i] && '}' !in parts[i] {
      EntryReads(entries[i]);
    }
    SplitJoin(parts, '}');
  }

  function EntryNumbers(entries: seq<Entry>): (r: seq<int>)
    ensures |r| == |entries| && forall i {:trigger r[i]} :: 0 <= i < |r| ==> r[i] == entries[i].num
  {
    seq(|entries|, i requires 0 <= i < |entries| => entries[i].num)
  }

  lemma {:induction false} EntriesCover(actions: seq<Action>, questions: seq<Skippable>, nums: seq<int>)
    ensures forall e :: e in Entries(actions, questions, nums) <==>
              e.num in nums && EntryText(actions, questions, e.num) != "" && e.answer == Carried(EntryText(actions, questions, e.num))
  {
    if |nums| > 0 {
      var n := |nums| - 1;
      EntriesCover(actions, questions, nums[..n]);
      hide EntryText, Carried;
      assert forall x :: x in nums <==> x in nums[..n] || x == nums[n];
    }
  }

  lemma NumbersGrow(entries: seq<Entry>, last: Entry)
    requires Ascending(EntryNumbers(entries)) && forall e :: e in entries ==> e.num < last.num
    ensures Ascending(EntryNumbers(entries + [last]))
  {
    var nums := EntryNumbers(entries);
    assert forall i :: 0 <= i < |entries| ==> entries[i] in entries && nums[i] < last.num;
    assert EntryNumbers(entries + [last]) == nums + [last.num];
  }

  lemma {:induction false} EntriesFollow(actions: seq<Action>, questions: seq<Skippable>, nums: seq<int>)
    requires Ascending(nums)
    ensures Ascending(EntryNumbers(Entries(actions, questions, nums)))
  {
    if |nums| > 0 {
      var n := |nums| - 1;
      var before, last := Entries(actions, questions, nums[..n]), Entry(nums[n], Carried(EntryText(actions, questions, nums[n])));
      EntriesFollow(actions, questions, nums[..n]);
      EntriesCover(actions, questions, nums[..n]);
      hide EntryText, Carried, EntryNumbers;
      assert forall e :: e in before ==> e.num in nums[..n];
      NumbersGrow(before, last);
    }
  }

  lemma NumbersAscend(actions: seq<Action>, skipped: seq<int>)
    ensures
      var nums := OrderedNumbers(actions, skipped);
      && Ascending(nums)
      && (forall x :: x in nums <==> x > 0 && (x in skipped || exists i :: 0 <= i < |actions| && actions[i].num == x))
  {
    var once := Once(Numbers(actions) + skipped);
    var nums := OrderedNumbers(actions, skipped);
    IntAtMostPreorder();
    SortSorts(IntAtMost, once);
    DistinctPermutes(once, nums);
    SameElements(nums, once);
    hide Once;
    forall x ensures x in Numbers(actions) <==> exists i :: 0 <= i < |actions| && actions[i].num == x {
      if i :| 0 <= i < |actions| && actions[i].num == x {
        assert Numbers(actions)[i] == x;
      }
    }
  }

  /** The entries of a submission, in ascending order of number: one for every positive number that was
      answered or skipped and whose answer or skip marker is not empty. */
  lemma SubmissionCovers(actions: seq<Action>, questions: seq<Skippable>, skipped: seq<int>)
    ensures Ascending(EntryNumbers(SubmissionEntries(actions, questions, skipped)))
    ensures forall e :: e in SubmissionEntries(actions, questions, skipped) <==>
              && e.num > 0 && (e.num in skipped || exists i :: 0 <= i < |actions| && actions[i].num == e.num)
              && EntryText(actions, questions, e.num) != "" && e.answer == Carried(EntryText(actions, questions, e.num))
  {
    NumbersAscend(actions, skipped);
    hide OrderedNumbers, Entries;
    EntriesCover(actions, questions, OrderedNumbers(actions, skipped));
    EntriesFollow(actions, questions, OrderedNumbers(actions, skipped));
  }

  /** Decoding `answer` by the kind of its question gives what `a` answered. */
  ghost predicate Recovers(a: Action, answer: string) {
    match a.kind
    case Choice => RecoversOptions(a, ReadOptions(answer))
    case Select => RecoversOptions(a, ReadOptions(answer))
    case TextKind => |ReadTexts(answer)| == |a.texts| && forall i :: 0 <= i < |a.texts| ==> ReadTexts(answer)[i] == Kept(a.texts[i])
    case Matrix => |ReadRows(answer)| == |a.matrix| && forall i :: 0 <= i < |a.matrix| ==> ReadRows(answer)[i] == (i, a.matrix[i])
    case Slider => a.slider == Some(answer)
    case Order => ReadNumbers(answer) == a.selected
    case OtherKind => false
  }

  ghost predicate RecoversOptions(a: Action, read: seq<Chosen>) {
    && |read| == |a.selected|
    && forall i :: 0 <= i < |read| ==> read[i] == Chosen(a.selected[i], Carried(FillFor(a.fills, a.selected[i])))
  }

  lemma AnswerRecovered(a: Action)
    requires AnswerText(a) != ""
    ensures Recovers(a, Carried(AnswerText(a)))
  {
    AnswerEmptyIff(a);
    hide ReadOptions, ReadTexts, ReadRows, ReadNumbers, Kept, Carried, AnswerText;
    match a.kind
    case Choice => ChoiceRoundTrip(a);
    case Select => ChoiceRoundTrip(a);
    case TextKind => TextRoundTrip(a);
    case Matrix => MatrixRoundTrip(a);
    case Slider => SliderRoundTrip(a);
    case Order => OrderRoundTrip(a);
    case OtherKind =>
  }

  /** Every action that answers something is recovered from the submit text: outer format first, then its kind. */
  lemma AnswersSurvive(actions: seq<Action>, questions: seq<Skippable>, skipped: seq<int>, text: string, k: nat)
    returns (e: Entry)
    requires Submission(actions, questions, skipped) == Success(text)
    requires k < |actions| && actions[k].num > 0 && AnswerText(actions[k]) != ""
    requires ActionFor(actions, actions[k].num) == Some(actions[k])
    ensures e in ReadSubmission(text) && e.num == actions[k].num && Recovers(actions[k], e.answer)
  {
    e := Entry(actions[k].num, Carried(AnswerText(actions[k])));
    SubmissionRoundTrip(actions, questions, skipped, text);
    SubmissionCovers(actions, questions, skipped);
    AnswerRecovered(actions[k]);
    hide Recovers, Submission, SubmissionEntries, ReadSubmission, AnswerText, Carried;
  }

  // ---- what is sent for skipped questions ----

  /** The part reads as "row!-3". */
  ghost predicate MarksRow(part: string, row: int) {
    var pieces := Split(part, '!');
    |pieces| == 2 && ReadInt(pieces[0]) == row && pieces[1] == "-3"
  }

  /** The marker of a skipped question, by its type: a pair of row number and "-3" for each row of a matrix, "-3" for
      each option of an ordering, the skip phrase for texts, "-3" for everything else; never less than one part. */
  ghost predicate Marks(q: Skippable, answer: string) {
    var parts := Split(answer, ',');
    if q.typeCode == "6" then
      |parts| == (if q.rows >= 1 then q.rows else 1) && forall i :: 0 <= i < |parts| ==> MarksRow(parts[i], i + 1)
    else if q.typeCode == "11" then
      |parts| == (if q.options >= 1 then q.options else 1) && forall i :: 0 <= i < |parts| ==> parts[i] == "-3"
    else if q.typeCode in {"1", "2", "8", "9", "33", "34"} then answer == "(\U{8DF3}\U{8FC7})"
    else answer == "-3"
  }

  lemma SkippedRowReads(row: int)
    ensures
      var part := IntText(row) + "!" + SKIPPED;
      MarksRow(part, row) && ',' !in part && WIDE_COMMA !in part
  {
    var part := IntText(row) + "!" + SKIPPED;
    NumeralHas(row, '!');
    NumeralHas(row, ',');
    NumeralHas(row, WIDE_COMMA);
    ReadIntText(row);
    assert part == IntText(row) + ['!'] + SKIPPED;
    SplitAtDelimiter(IntText(row), SKIPPED, '!');
    SplitPiece(SKIPPED, '!');
  }

  lemma CarriedJoin(parts: seq<string>)
    requires |parts| > 0 && forall p :: p in parts ==> ',' !in p && WIDE_COMMA !in p
    ensures Split(Carried(Join(parts, ',')), ',') == parts
  {
    JoinCharacters(parts, ',', WIDE_COMMA);
    ReplaceAbsent(Join(parts, ','), WIDE_COMMA, ',');
    SplitJoin(parts, ',');
  }

  lemma SkippedMatrixMarks(q: Skippable)
    requires q.typeCode == "6"
    ensures Marks(q, Carried(SkippedText(q)))
  {
    var parts := SkippedRows(AtLeastOne(q.rows));
    forall i | 0 <= i < |parts| ensures MarksRow(parts[i], i + 1) && ',' !in parts[i] && WIDE_COMMA !in parts[i] {
      SkippedRowReads(i + 1);
    }
    hide MarksRow, Carried;
    CarriedJoin(parts);
  }

  lemma SkippedTextMarks(q: Skippable)
    ensures Marks(q, Carried(SkippedText(q)))
  {
    hide Split, Join, MarksRow;
    if q.typeCode == "6" {
      SkippedMatrixMarks(q);
    } else if q.typeCode == "11" {
      CarriedJoin(Copies(SKIPPED, AtLeastOne(q.options)));
    } else {
      ReplaceAbsent(SkippedText(q), WIDE_COMMA, ',');
    }
  }

  /** Question k is the last one given with its number. */
  ghost predicate DescribesNumber(questions: seq<Skippable>, k: nat, num: int) {
    k < |questions| && questions[k].num == num && forall j :: k < j < |questions| ==> questions[j].num != num
  }

  /** The answer is the marker of the question with this number; "-3" when no question is given for it. */
  ghost predicate MarksNumber(questions: seq<Skippable>, num: int, answer: string) {
    && (forall k: nat :: DescribesNumber(questions, k, num) ==> Marks(questions[k], answer))
    && ((forall k :: 0 <= k < |questions| ==> questions[k].num != num) ==> answer == "-3")
  }

  lemma {:induction false} QuestionForIsLast(questions: seq<Skippable>, num: int)
    requires num > 0
    ensures QuestionFor(questions, num).None? <==> forall k :: 0 <= k < |questions| ==> questions[k].num != num
    ensures forall k: nat :: DescribesNumber(questions, k, num) ==> QuestionFor(questions, num) == Some(questions[k])
  {
    if |questions| > 0 {
      var n := |questions| - 1;
      QuestionForIsLast(questions[..n], num);
      forall k: nat | DescribesNumber(questions, k, num) ensures QuestionFor(questions, num) == Some(questions[k]) {
        assert k < n ==> DescribesNumber(questions[..n], k, num);
      }
    }
  }

  lemma {:induction false} NoActionFor(actions: seq<Action>, num: int)
    requires forall i :: 0 <= i < |actions| ==> actions[i].num != num
    ensures ActionFor(actions, num).None?
  {
    if |actions| > 0 {
      NoActionFor(actions[..|actions| - 1], num);
    }
  }

  lemma MarkerOf(actions: seq<Action>, questions: seq<Skippable>, num: int)
    requires num > 0 && forall i :: 0 <= i < |actions| ==> actions[i].num != num
    ensures EntryText(actions, questions, num) != "" && MarksNumber(questions, num, Carried(EntryText(actions, questions, num)))
  {
    NoActionFor(actions, num);
    QuestionForIsLast(questions, num);
    hide DescribesNumber, QuestionFor, ActionFor, Split, Join, Marks;
    match QuestionFor(questions, num)
    case Some(q) =>
      SkippedTextMarks(q);
      SkippedTextNotEmpty(q);
    case None =>
      ReplaceAbsent(SKIPPED, WIDE_COMMA, ',');
  }

  lemma SkippedTextNotEmpty(q: Skippable)
    ensures SkippedText(q) != ""
  {
    JoinEmptyIff(Copies(SKIPPED, AtLeastOne(q.options)), ',');
    JoinEmptyIff(SkippedRows(AtLeastOne(q.rows)), ',');
    assert Copies(SKIPPED, AtLeastOne(q.options))[0] == SKIPPED;
    assert |SkippedRows(AtLeastOne(q.rows))[0]| > 1;
  }

  /** For every skipped number that was not answered the submit text holds an entry, and any entry for it is the
      marker of its question. */
  lemma MarkersSurvive(actions: seq<Action>, questions: seq<Skippable>, skipped: seq<int>, text: string, num: int)
    requires Submission(actions, questions, skipped) == Success(text)
    requires num > 0 && num in skipped && forall i :: 0 <= i < |actions| ==> actions[i].num != num
    ensures exists e :: e in ReadSubmission(text) && e.num == num
    ensures forall e :: e in ReadSubmission(text) && e.num == num ==> MarksNumber(questions, num, e.answer)
  {
    hide *;
    SubmissionRoundTrip(actions, questions, skipped, text);
    SubmissionCovers(actions, questions, skipped);
    MarkerOf(actions, questions, num);
    var e := Entry(num, Carried(EntryText(actions, questions, num)));
    assert e in ReadSubmission(text);
  }
}
