/** The string operations of the scripting language that the modelled code relies on. */
module Text {
  import opened Common
  import opened Numbers

  // --- White space -------------------------------------------------------------------------------

  /** The characters `trim` removes and the pattern `\s` matches. */
  predicate IsSpace(c: char) {
    || '\t' <= c <= '\r'
    || c == ' '
    || c == '\U{A0}'
    || c == '\U{1680}'
    || '\U{2000}' <= c <= '\U{200A}'
    || c == '\U{2028}'
    || c == '\U{2029}'
    || c == '\U{202F}'
    || c == '\U{205F}'
    || c == '\U{3000}'
    || c == '\U{FEFF}'
  }

  predicate IsBlank(s: string) {
    forall i :: 0 <= i < |s| ==> IsSpace(s[i])
  }

  function TrimStart(s: string): string {
    if s != "" && IsSpace(s[0]) then TrimStart(s[1..]) else s
  }

  function TrimEnd(s: string): string {
    if s != "" && IsSpace(s[|s| - 1]) then TrimEnd(s[..|s| - 1]) else s
  }

  function Trim(s: string): string {
    TrimEnd(TrimStart(s))
  }

  lemma {:induction false} TrimStartDropsBlanks(w: string, s: string)
    requires IsBlank(w)
    ensures TrimStart(w + s) == TrimStart(s)
  {
    if w == "" {
      assert w + s == s;
    } else {
      assert (w + s)[1..] == w[1..] + s;
      TrimStartDropsBlanks(w[1..], s);
    }
  }

  lemma {:induction false} TrimEndDropsBlanks(s: string, w: string)
    requires IsBlank(w)
    ensures TrimEnd(s + w) == TrimEnd(s)
  {
    if w == "" {
      assert s + w == s;
    } else {
      assert (s + w)[..|s + w| - 1] == s + w[..|w| - 1];
      TrimEndDropsBlanks(s, w[..|w| - 1]);
    }
  }

  /** Blanks around a text that neither starts nor ends with one are exactly what is trimmed. */
  lemma TrimPadded(before: string, s: string, after: string)
    requires IsBlank(before) && IsBlank(after)
    requires s != "" ==> !IsSpace(s[0]) && !IsSpace(s[|s| - 1])
    ensures Trim(before + s + after) == s
  {
    assert before + s + after == before + (s + after);
    TrimStartDropsBlanks(before, s + after);
    if s == "" {
      assert s + after == after + "";
      TrimStartDropsBlanks(after, "");
    } else {
      assert TrimStart(s + after) == s + after;
      TrimEndDropsBlanks(s, after);
    }
  }

  /** What is trimmed off is blank. */
  lemma {:induction false} TrimStartSplits(s: string) returns (w: string)
    ensures IsBlank(w) && s == w + TrimStart(s)
  {
    if s != "" && IsSpace(s[0]) {
      w := TrimStartSplits(s[1..]);
      w := [s[0]] + w;
    } else {
      w := "";
    }
  }

  lemma {:induction false} TrimEndSplits(s: string) returns (w: string)
    ensures IsBlank(w) && s == TrimEnd(s) + w
  {
    if s != "" && IsSpace(s[|s| - 1]) {
      w := TrimEndSplits(s[..|s| - 1]);
      w := w + [s[|s| - 1]];
    } else {
      w := "";
    }
  }

  lemma {:induction false} TrimEndShortens(s: string)
    ensures |TrimEnd(s)| <= |s|
    ensures TrimEnd(s) == s <==> s == "" || !IsSpace(s[|s| - 1])
  {
    if s != "" && IsSpace(s[|s| - 1]) { TrimEndShortens(s[..|s| - 1]); }
  }

  /** Trimming the end leaves alone what does not end with a blank. */
  lemma {:induction false} TrimEndKeeps(a: string, s: string)
    requires a != "" && !IsSpace(a[|a| - 1])
    ensures TrimEnd(a + s) == a + TrimEnd(s)
  {
    if s == "" {
      assert a + s == a;
    } else if IsSpace(s[|s| - 1]) {
      assert (a + s)[..|a + s| - 1] == a + s[..|s| - 1];
      TrimEndKeeps(a, s[..|s| - 1]);
    }
  }

  // --- Splitting and joining ---------------------------------------------------------------------

  function Split(s: string, sep: char): (parts: seq<string>)
    ensures |parts| >= 1
  {
    if s == "" then [""]
    else
      var rest := Split(s[1..], sep);
      if s[0] == sep then [""] + rest else [[s[0]] + rest[0]] + rest[1..]
  }

  function Join(parts: seq<string>, sep: char): string {
    if parts == [] then ""
    else if |parts| == 1 then parts[0]
    else parts[0] + [sep] + Join(parts[1..], sep)
  }

  ghost predicate Free(parts: seq<string>, c: char) {
    forall i :: 0 <= i < |parts| ==> c !in parts[i]
  }

  /** A separator splits, whatever stands on its two sides. */
  lemma {:induction false} SplitConcat(a: string, b: string, sep: char)
    ensures Split(a + [sep] + b, sep) == Split(a, sep) + Split(b, sep)
  {
    var s := a + [sep] + b;
    if a == "" {
      assert s[1..] == b;
    } else {
      assert s[1..] == a[1..] + [sep] + b;
      SplitConcat(a[1..], b, sep);
    }
  }

  lemma SplitAtSeparator(a: string, rest: string, sep: char)
    requires sep !in a
    ensures Split(a + [sep] + rest, sep) == [a] + Split(rest, sep)
  {
    SplitConcat(a, rest, sep);
    SplitUnseparated(a, sep);
  }

  lemma {:induction false} SplitUnseparated(a: string, sep: char)
    requires sep !in a
    ensures Split(a, sep) == [a]
  {
    if a == "" {
    } else {
      SplitUnseparated(a[1..], sep);
      assert [a[0]] + a[1..] == a;
    }
  }

  /** Splitting undoes joining when no part contains the separator. */
  lemma {:induction false} SplitJoin(parts: seq<string>, sep: char)
    requires parts != [] && Free(parts, sep)
    ensures Split(Join(parts, sep), sep) == parts
  {
    if |parts| == 1 {
      SplitUnseparated(parts[0], sep);
    } else {
      SplitJoin(parts[1..], sep);
      SplitAtSeparator(parts[0], Join(parts[1..], sep), sep);
    }
  }

  lemma JoinInjective(a: seq<string>, b: seq<string>, sep: char)
    requires a != [] && b != [] && Free(a, sep) && Free(b, sep)
    requires Join(a, sep) == Join(b, sep)
    ensures a == b
  {
    SplitJoin(a, sep);
    SplitJoin(b, sep);
  }

  /** The first occurrence of a character cuts a text in only one way. */
  lemma FirstCutUnique(a: string, b: string, a': string, b': string, c: char)
    requires c !in a && c !in a'
    requires a + [c] + b == a' + [c] + b'
    ensures a == a' && b == b'
  {
    var s, s' := a + [c] + b, a' + [c] + b';
    assert s[|a|] == c && s'[|a'|] == c;
    assert s'[|a|] == c && s[|a'|] == c;
    assert a == s[..|a|] && a' == s'[..|a'|];
    assert b == s[|a| + 1..] && b' == s'[|a'| + 1..];
  }

  // --- Occurrences ---------------------------------------------------------------------------------

  predicate IsAt(part: string, text: string, i: int) {
    0 <= i <= |text| - |part| && text[i..i + |part|] == part
  }

  /** `text.includes(part)` */
  ghost predicate Occurs(part: string, text: string) {
    exists i :: IsAt(part, text, i)
  }

  lemma PartOccurs(a: string, part: string, b: string)
    ensures IsAt(part, a + part + b, |a|) && Occurs(part, a + part + b)
  {
    var text := a + part + b;
    assert text[|a|..|a| + |part|] == part;
    assert IsAt(part, text, |a|);
  }

  lemma CharOf(part: string, text: string, i: int, j: int)
    requires IsAt(part, text, i) && 0 <= j < |part|
    ensures text[i + j] == part[j]
  {
    assert text[i..i + |part|][j] == text[i + j];
  }

  lemma FirstOnlyOnce(part: string, k: nat)
    requires 0 < k < |part| && part[0] !in part[1..]
    ensures part[k] != part[0]
  {
    assert part[1..][k - 1] == part[k];
  }

  /** A separator that has its first character only once does not start inside another one. */
  lemma NotInside(sep: string, text: string, i: int, k: int)
    requires IsAt(sep, text, i) && 0 < k < |sep| && sep[0] !in sep[1..]
    ensures !IsAt(sep, text, i + k)
  {
    FirstOnlyOnce(sep, k);
    CharOf(sep, text, i, k);
    if IsAt(sep, text, i + k) {
      CharOf(sep, text, i + k, 0);
    }
  }

  lemma NoOverlap(v: string, sep: string, w: string, i: int)
    requires sep != "" && sep[0] !in sep[1..] && IsAt(sep, v + sep + w, i)
    ensures i == |v| || i + |sep| <= |v| || i >= |v| + |sep|
  {
    PartOccurs(v, sep, w);
    if |v| < i < |v| + |sep| {
      NotInside(sep, v + sep + w, |v|, i - |v|);
    } else if i < |v| < i + |sep| {
      NotInside(sep, v + sep + w, i, |v| - i);
    }
  }

  /** Apart from the cut, such a separator occurs inside one of the parts. */
  lemma OccursBesideCut(v: string, sep: string, w: string, i: int)
    requires sep != "" && sep[0] !in sep[1..] && IsAt(sep, v + sep + w, i) && i != |v|
    ensures Occurs(sep, v) || Occurs(sep, w)
  {
    var text := v + sep + w;
    NoOverlap(v, sep, w, i);
    if i + |sep| <= |v| {
      assert v[i..i + |sep|] == text[i..i + |sep|];
      assert IsAt(sep, v, i);
    } else {
      var k := i - |v| - |sep|;
      assert w[k..k + |sep|] == text[i..i + |sep|];
      assert IsAt(sep, w, k);
    }
  }

  ghost predicate CutsOnce(v: string, sep: string, w: string) {
    forall v', w' :: v + sep + w == v' + sep + w' ==> v == v' && w == w'
  }

  lemma CutAt(v: string, sep: string, i: int)
    requires IsAt(sep, v, i)
    ensures v == v[..i] + sep + v[i + |sep|..]
  {
  }

  lemma OccurrenceBefore(v: string, sep: string, w: string, i: int)
    requires sep != "" && IsAt(sep, v, i)
    ensures !CutsOnce(v, sep, w)
  {
    var v', w' := v[..i], v[i + |sep|..] + sep + w;
    CutAt(v, sep, i);
    assert v + sep + w == v' + sep + w';
    assert |v'| != |v|;
  }

  lemma OccurrenceAfter(v: string, sep: string, w: string, i: int)
    requires sep != "" && IsAt(sep, w, i)
    ensures !CutsOnce(v, sep, w)
  {
    var v', w' := v + sep + w[..i], w[i + |sep|..];
    CutAt(w, sep, i);
    assert v + sep + w == v' + sep + w';
    assert |v'| != |v|;
  }

  lemma OccurrenceCutsTwice(v: string, sep: string, w: string)
    requires sep != "" && (Occurs(sep, v) || Occurs(sep, w))
    ensures !CutsOnce(v, sep, w)
  {
    if i :| IsAt(sep, v, i) {
      OccurrenceBefore(v, sep, w, i);
    } else {
      var i :| IsAt(sep, w, i);
      OccurrenceAfter(v, sep, w, i);
    }
  }

  lemma SameCutSameParts(v: string, w: string, v': string, w': string, sep: string)
    requires v + sep + w == v' + sep + w' && |v| == |v'|
    ensures v == v' && w == w'
  {
    var text, text' := v + sep + w, v' + sep + w';
    assert v == text[..|v|] && v' == text'[..|v|];
    assert w == text[|v| + |sep|..] && w' == text'[|v| + |sep|..];
  }

  /**
   A separator that has its first character only once cuts a text in just one way if and only if it
   occurs in neither part.
   */
  lemma SeparatorCutsOnce(v: string, sep: string, w: string)
    requires sep != "" && sep[0] !in sep[1..]
    ensures CutsOnce(v, sep, w) <==> !Occurs(sep, v) && !Occurs(sep, w)
  {
    if Occurs(sep, v) || Occurs(sep, w) {
      OccurrenceCutsTwice(v, sep, w);
    } else {
      forall v', w' | v + sep + w == v' + sep + w'
        ensures v == v' && w == w'
      {
        PartOccurs(v', sep, w');
        if |v'| == |v| {
          SameCutSameParts(v, w, v', w', sep);
        } else {
          OccursBesideCut(v, sep, w, |v'|);
        }
      }
    }
  }

  /** Index of the last occurrence of `c`, or -1. */
  function LastIndexOf(s: string, c: char): (i: int)
    ensures -1 <= i < |s|
    ensures i >= 0 ==> s[i] == c
    ensures forall j :: i < j < |s| ==> s[j] != c
  {
    if s == "" then -1
    else if s[|s| - 1] == c then |s| - 1
    else LastIndexOf(s[..|s| - 1], c)
  }

  /** The last occurrence of `c` is where a text without it is appended after one. */
  lemma LastIndexOfCut(a: string, c: char, b: string)
    requires c !in b
    ensures var s := a + [c] + b; LastIndexOf(s, c) == |a| && s[..|a|] == a && s[|a| + 1..] == b
  {
    var s := a + [c] + b;
    assert s[|a|] == c;
    assert forall j :: |a| < j < |s| ==> s[j] == b[j - |a| - 1];
  }

  // --- Decimal numerals --------------------------------------------------------------------------

  predicate IsDigit(c: char) {
    '0' <= c <= '9'
  }

  function DigitOf(n: nat): (c: char)
    requires n < 10
    ensures IsDigit(c) && ValueOfDigit(c) == n
  {
    '0' + n as char
  }

  function ValueOfDigit(c: char): (n: nat)
    requires IsDigit(c)
    ensures n < 10
  {
    (c - '0') as nat
  }

  predicate IsNumeral(s: string) {
    forall i :: 0 <= i < |s| ==> IsDigit(s[i])
  }

  function NumeralValue(s: string): nat
    requires IsNumeral(s)
  {
    if s == "" then 0 else NumeralValue(s[..|s| - 1]) * 10 + ValueOfDigit(s[|s| - 1])
  }

  /** `String(n)` for a non-negative integer. */
  function Decimal(n: nat): (s: string)
    ensures s != "" && IsNumeral(s) && NumeralValue(s) == n
  {
    if n < 10 then [DigitOf(n)]
    else
      var front := Decimal(n / 10);
      var s := front + [DigitOf(n % 10)];
      assert s[..|s| - 1] == front;
      s
  }

  lemma {:induction false} DecimalLength(n: nat, k: nat)
    requires k >= 1 && n < Pow(10, k)
    ensures |Decimal(n)| <= k
  {
    if n >= 10 {
      assert k >= 2;
      DecimalLength(n / 10, k - 1);
    }
  }

  function DigitPrefix(s: string): (d: string)
    ensures IsNumeral(d)
  {
    if s != "" && IsDigit(s[0]) then [s[0]] + DigitPrefix(s[1..]) else ""
  }

  const TWO_TO_194: int := 0x4_0000_0000_0000_0000_0000_0000_0000_0000_0000_0000_0000_0000

  /** 2^1024 - 2^970: from here on a double reads as infinite. */
  const INFINITE_FROM: int := 0x3F_FFFF_FFFF_FFFF * TWO_TO_194 * TWO_TO_194 * TWO_TO_194 * TWO_TO_194 * TWO_TO_194

  lemma SquareOfPow(k: nat, p: nat)
    requires p == Pow(2, k)
    ensures Pow(2, 2 * k) == p * p
  {
    PowAdd(2, k, k);
  }

  lemma TwoTo194()
    ensures Pow(2, 194) == TWO_TO_194
  {
    assert Pow(2, 6) == 64 by { assert Pow(2, 3) == 8; SquareOfPow(3, 8); }
    SquareOfPow(6, 64);
    SquareOfPow(12, 0x1000);
    SquareOfPow(24, 0x100_0000);
    SquareOfPow(48, 0x1_0000_0000_0000);
    assert Pow(2, 97) == 2 * Pow(2, 96);
    SquareOfPow(97, 2 * 0x1_0000_0000_0000 * 0x1_0000_0000_0000);
  }

  lemma TwoTo970()
    ensures Pow(2, 970) == TWO_TO_194 * TWO_TO_194 * TWO_TO_194 * TWO_TO_194 * TWO_TO_194
  {
    TwoTo194();
    PowAdd(2, 194, 194);
    PowAdd(2, 388, 194);
    PowAdd(2, 582, 194);
    PowAdd(2, 776, 194);
  }

  /** The bound is half a step of a double above the largest one, which is 2^1024 - 2^971. */
  lemma InfiniteFromExactly()
    ensures INFINITE_FROM == Pow(2, 1024) - Pow(2, 970)
  {
    TwoTo970();
    assert Pow(2, 54) == 0x40_0000_0000_0000 by {
      assert Pow(2, 3) == 8;
      SquareOfPow(3, 8);
      SquareOfPow(6, 64);
      SquareOfPow(12, 0x1000);
      SquareOfPow(24, 0x100_0000);
      PowAdd(2, 48, 6);
    }
    PowAdd(2, 54, 970);
  }

  /** `Number.parseInt(s, 10)`: leading blanks, an optional sign, then as many digits as there are. */
  function ParseInt(s: string): Option<int> {
    var t := TrimStart(s);
    var negative := t != "" && t[0] == '-';
    var signed := negative || (t != "" && t[0] == '+');
    var digits := DigitPrefix(if signed then t[1..] else t);
    if digits == "" then None
    else
      var magnitude: int := NumeralValue(digits);
      Some(if negative then -magnitude else magnitude)
  }

  lemma {:induction false} DigitPrefixStops(digits: string, rest: string)
    requires IsNumeral(digits) && (rest == "" || !IsDigit(rest[0]))
    ensures DigitPrefix(digits + rest) == digits
  {
    if digits == "" {
      assert digits + rest == rest;
    } else {
      assert (digits + rest)[1..] == digits[1..] + rest;
      DigitPrefixStops(digits[1..], rest);
    }
  }

  lemma {:induction false} DigitPrefixSplits(s: string) returns (rest: string)
    ensures s == DigitPrefix(s) + rest && (rest == "" || !IsDigit(rest[0]))
  {
    if s != "" && IsDigit(s[0]) {
      rest := DigitPrefixSplits(s[1..]);
      assert s == [s[0]] + s[1..];
    } else {
      rest := s;
    }
  }

  /** An integer as it may be written for `parseInt`, with whatever follows it. */
  datatype IntText = IntText(blanks: string, sign: string, digits: string, rest: string) {
    predicate Valid() {
      && IsBlank(blanks) && (sign == "" || sign == "+" || sign == "-")
      && digits != "" && IsNumeral(digits)
      && (rest == "" || !IsDigit(rest[0]))
    }

    function Text(): string {
      blanks + (sign + (digits + rest))
    }

    function Value(): int
      requires Valid()
    {
      var magnitude: int := NumeralValue(digits);
      if sign == "-" then -magnitude else magnitude
    }
  }

  lemma TrimStartOfWritten(w: IntText)
    requires w.Valid()
    ensures TrimStart(w.Text()) == w.sign + (w.digits + w.rest)
  {
    var t := w.sign + (w.digits + w.rest);
    TrimStartDropsBlanks(w.blanks, t);
    assert t[0] == (if w.sign == "" then w.digits[0] else w.sign[0]);
    assert !IsSpace(t[0]);
  }

  /** What is read is what is written, and it is written in only one way. */
  lemma WrittenIsRead(w: IntText)
    requires w.Valid()
    ensures ParseInt(w.Text()) == Some(w.Value())
  {
    TrimStartOfWritten(w);
    DigitPrefixStops(w.digits, w.rest);
    var t := w.sign + (w.digits + w.rest);
    assert w.sign == "" ==> t == w.digits + w.rest && IsDigit(t[0]);
    assert w.sign != "" ==> t[0] == w.sign[0] && t[1..] == w.digits + w.rest;
  }

  lemma WrittenOnce(w: IntText, w': IntText)
    requires w.Valid() && w'.Valid() && w.Text() == w'.Text()
    ensures w == w'
  {
    TrimStartOfWritten(w);
    TrimStartOfWritten(w');
    var t := w.sign + (w.digits + w.rest);
    assert t[0] == (if w.sign == "" then w.digits[0] else w.sign[0]);
    assert t[0] == (if w'.sign == "" then w'.digits[0] else w'.sign[0]);
    assert w.sign == w'.sign;
    assert w.digits + w.rest == t[|w.sign|..] == w'.digits + w'.rest;
    DigitPrefixStops(w.digits, w.rest);
    DigitPrefixStops(w'.digits, w'.rest);
    assert w.rest == (w.digits + w.rest)[|w.digits|..] == w'.rest;
    var text := w.Text();
    assert |w.blanks| == |text| - |t| == |w'.blanks|;
    assert w.blanks == text[..|w.blanks|] == w'.blanks;
  }

  lemma ReadIsWritten(s: string) returns (w: IntText)
    requires ParseInt(s).Some?
    ensures w.Valid() && s == w.Text() && w.Value() == ParseInt(s).value
  {
    var blanks := TrimStartSplits(s);
    var t := TrimStart(s);
    var sign := if t != "" && (t[0] == '-' || t[0] == '+') then t[..1] else "";
    var rest := DigitPrefixSplits(t[|sign|..]);
    w := IntText(blanks, sign, DigitPrefix(t[|sign|..]), rest);
    assert t == sign + t[|sign|..];
  }
}
