/** Strings as the submit format uses them: splitting and joining at a delimiter, decimal numerals,
    character replacement, and stripping of white space. */
module Text {

  // ---- joining and splitting ----

  function Join(parts: seq<string>, d: char): string {
    if |parts| == 0 then "" else if |parts| == 1 then parts[0] else parts[0] + [d] + Join(parts[1..], d)
  }

  /** The pieces between the occurrences of `d`; always at least one. */
  function Split(s: string, d: char): (r: seq<string>)
    ensures |r| > 0
  {
    if s == "" then [""]
    else
      var rest := Split(s[1..], d);
      if s[0] == d then [""] + rest else [[s[0]] + rest[0]] + rest[1..]
  }

  lemma {:induction false} SplitAtDelimiter(p: string, s: string, d: char)
    requires d !in p
    ensures Split(p + [d] + s, d) == [p] + Split(s, d)
  {
    var whole := p + [d] + s;
    if p == "" {
      assert whole[1..] == s;
    } else {
      SplitAtDelimiter(p[1..], s, d);
      assert whole[1..] == p[1..] + [d] + s;
      assert [p[0]] + p[1..] == p;
    }
  }

  lemma {:induction false} SplitPiece(p: string, d: char)
    requires d !in p
    ensures Split(p, d) == [p]
  {
    if p != "" {
      SplitPiece(p[1..], d);
      assert [p[0]] + p[1..] == p;
    }
  }

  /** Splitting undoes joining when no piece contains the delimiter. */
  lemma {:induction false} SplitJoin(parts: seq<string>, d: char)
    requires |parts| > 0 && forall p :: p in parts ==> d !in p
    ensures Split(Join(parts, d), d) == parts
  {
    if |parts| == 1 {
      SplitPiece(parts[0], d);
    } else {
      SplitJoin(parts[1..], d);
      SplitAtDelimiter(parts[0], Join(parts[1..], d), d);
    }
  }

  /** A joined string consists of the characters of its pieces and the delimiter. */
  lemma {:induction false} JoinCharacters(parts: seq<string>, d: char, c: char)
    requires c != d && forall p :: p in parts ==> c !in p
    ensures c !in Join(parts, d)
  {
    if |parts| > 1 {
      JoinCharacters(parts[1..], d, c);
    }
  }

  lemma JoinEmptyIff(parts: seq<string>, d: char)
    ensures Join(parts, d) == "" <==> parts == [] || parts == [""]
  {
    if |parts| > 1 {
      assert d in Join(parts, d);
    }
  }

  // ---- replacing characters ----

  function Replace(s: string, a: char, b: char): (r: string)
    ensures |r| == |s|
    ensures forall i {:trigger r[i]} :: 0 <= i < |s| ==> r[i] == if s[i] == a then b else s[i]
  {
    seq(|s|, i requires 0 <= i < |s| => if s[i] == a then b else s[i])
  }

  function ReplaceAll(parts: seq<string>, a: char, b: char): (r: seq<string>)
    ensures |r| == |parts| && forall i {:trigger r[i]} :: 0 <= i < |parts| ==> r[i] == Replace(parts[i], a, b)
  {
    seq(|parts|, i requires 0 <= i < |parts| => Replace(parts[i], a, b))
  }

  lemma ReplaceConcat(s: string, t: string, a: char, b: char)
    ensures Replace(s + t, a, b) == Replace(s, a, b) + Replace(t, a, b)
  {
  }

  lemma ReplaceAbsent(s: string, a: char, b: char)
    requires a !in s
    ensures Replace(s, a, b) == s
  {
  }

  lemma {:induction false} ReplaceJoin(parts: seq<string>, d: char, a: char, b: char)
    requires a != d
    ensures Replace(Join(parts, d), a, b) == Join(ReplaceAll(parts, a, b), d)
  {
    if |parts| > 1 {
      ReplaceJoin(parts[1..], d, a, b);
      assert ReplaceAll(parts, a, b)[1..] == ReplaceAll(parts[1..], a, b);
      ReplaceConcat(parts[0] + [d], Join(parts[1..], d), a, b);
      ReplaceConcat(parts[0], [d], a, b);
      assert Replace([d], a, b) == [d];
    }
  }

  // ---- white space ----

  /** The characters that `strip` removes. */
  predicate IsSpace(c: char) {
    || '\U{0009}' <= c <= '\U{000D}' || '\U{001C}' <= c <= '\U{0020}' || c == '\U{0085}' || c == '\U{00A0}'
    || c == '\U{1680}' || '\U{2000}' <= c <= '\U{200A}' || c == '\U{2028}' || c == '\U{2029}'
    || c == '\U{202F}' || c == '\U{205F}' || c == '\U{3000}'
  }

  function StripLeft(s: string): string {
    if s != "" && IsSpace(s[0]) then StripLeft(s[1..]) else s
  }

  function StripRight(s: string): string {
    if s != "" && IsSpace(s[|s| - 1]) then StripRight(s[..|s| - 1]) else s
  }

  function Strip(s: string): string {
    StripRight(StripLeft(s))
  }

  predicate Trimmed(s: string) {
    s == "" || (!IsSpace(s[0]) && !IsSpace(s[|s| - 1]))
  }

  lemma {:induction false} StripLeftTrims(s: string)
    ensures StripLeft(s) == "" || !IsSpace(StripLeft(s)[0])
  {
    if s != "" {
      StripLeftTrims(s[1..]);
    }
  }

  lemma {:induction false} StripRightTrims(s: string)
    ensures StripRight(s) <= s
    ensures StripRight(s) == "" || !IsSpace(StripRight(s)[|StripRight(s)| - 1])
  {
    if s != "" {
      StripRightTrims(s[..|s| - 1]);
    }
  }

  lemma StripTrims(s: string)
    ensures Trimmed(Strip(s))
  {
    StripLeftTrims(s);
    StripRightTrims(StripLeft(s));
  }

  predicate AllSpace(s: string) {
    forall c :: c in s ==> IsSpace(c)
  }

  lemma {:induction false} StripLeftDrops(s: string) returns (a: string)
    ensures AllSpace(a) && s == a + StripLeft(s)
  {
    a := "";
    if s != "" && IsSpace(s[0]) {
      var b := StripLeftDrops(s[1..]);
      a := [s[0]] + b;
    }
  }

  lemma {:induction false} StripRightDrops(s: string) returns (b: string)
    ensures AllSpace(b) && s == StripRight(s) + b
  {
    b := "";
    if s != "" && IsSpace(s[|s| - 1]) {
      var a := StripRightDrops(s[..|s| - 1]);
      b := a + [s[|s| - 1]];
    }
  }

  /** Stripping drops white space at both ends and nothing else. */
  lemma StripDropsSpace(s: string) returns (a: string, b: string)
    ensures AllSpace(a) && AllSpace(b) && s == a + Strip(s) + b && Trimmed(Strip(s))
  {
    a := StripLeftDrops(s);
    b := StripRightDrops(StripLeft(s));
    StripTrims(s);
    hide StripLeft, StripRight;
  }

  // ---- decimal numerals ----

  const DIGITS := "0123456789"

  function Digit(n: nat): (c: char)
    requires n < 10
    ensures '0' <= c <= '9' && c as int - '0' as int == n
  {
    DIGITS[n]
  }

  predicate NumeralCharacter(c: char) {
    '0' <= c <= '9' || c == '-'
  }

  function NatText(n: nat): (s: string)
    ensures |s| > 0 && forall c :: c in s ==> '0' <= c <= '9'
  {
    if n < 10 then [Digit(n)] else NatText(n / 10) + [Digit(n % 10)]
  }

  function IntText(n: int): (s: string)
    ensures |s| > 0 && forall c :: c in s ==> NumeralCharacter(c)
  {
    if n < 0 then "-" + NatText(-n) else NatText(n)
  }

  /** Reads a numeral; what it makes of other strings does not matter. */
  function ReadNat(s: string): int {
    if s == "" then 0 else ReadNat(s[..|s| - 1]) * 10 + (s[|s| - 1] as int - '0' as int)
  }

  function ReadInt(s: string): int {
    if s != "" && s[0] == '-' then -ReadNat(s[1..]) else ReadNat(s)
  }

  lemma {:induction false} ReadNatText(n: nat)
    ensures ReadNat(NatText(n)) == n
  {
    if n < 10 {
      assert NatText(n)[..0] == "";
    } else {
      ReadNatText(n / 10);
      assert NatText(n)[..|NatText(n)| - 1] == NatText(n / 10);
    }
  }

  lemma ReadIntText(n: int)
    ensures ReadInt(IntText(n)) == n
  {
    if n < 0 {
      ReadNatText(-n);
      assert IntText(n)[1..] == NatText(-n);
    } else {
      ReadNatText(n);
      assert NatText(n)[0] in NatText(n);
    }
  }
}
