/**
 Time-based one-time codes: base32 decoding with a 32-bit accumulator that is never masked
 (RFC 4648, section 6), dynamic truncation (RFC 4226, section 5.3) and the time step
 (RFC 6238, section 4.2).
 */
module Totp {
  import opened Common
  import opened Numbers
  import opened Text

  const DIGITS: nat := 6
  const PERIOD_SECONDS: nat := 30
  const BASE32_ALPHABET: string := "ABCDEFGHIJKLMNOPQRSTUVWXYZ234567"

  // --- Normalisation of the encoded text ---------------------------------------------------------

  /** `indexOf` in the alphabet. */
  function SymbolIndex(c: char): (i: int)
    ensures -1 <= i < 32
  {
    if 'A' <= c <= 'Z' then (c - 'A') as int
    else if '2' <= c <= '7' then (c - '2') as int + 26
    else -1
  }

  function Symbol(i: nat): (c: char)
    requires i < 32
    ensures SymbolIndex(c) == i
  {
    if i < 26 then 'A' + i as char else '2' + (i - 26) as char
  }

  /** The two descriptions of the alphabet agree. */
  lemma SymbolIndexIsPosition(i: nat)
    requires i < 32
    ensures |BASE32_ALPHABET| == 32 && BASE32_ALPHABET[i] == Symbol(i)
  {
  }

  function Upper(c: char): char {
    if 'a' <= c <= 'z' then c - 'a' + 'A' else c
  }

  function ToUpper(s: string): (t: string)
    ensures |t| == |s|
  {
    if s == "" then "" else [Upper(s[0])] + ToUpper(s[1..])
  }

  function DropSeparators(s: string): string {
    if s == "" then ""
    else if IsSpace(s[0]) || s[0] == '-' then DropSeparators(s[1..])
    else [s[0]] + DropSeparators(s[1..])
  }

  function DropTrailingPadding(s: string): string {
    if s != "" && s[|s| - 1] == '=' then DropTrailingPadding(s[..|s| - 1]) else s
  }

  function Normalise(encoded: string): string {
    ToUpper(DropTrailingPadding(DropSeparators(encoded)))
  }

  predicate AllSymbols(s: string) {
    forall i :: 0 <= i < |s| ==> SymbolIndex(s[i]) >= 0
  }

  function Indices(s: string): (ds: seq<nat>)
    requires AllSymbols(s)
    ensures |ds| == |s| && AreDigits(ds, 32)
  {
    seq(|s|, i requires 0 <= i < |s| => SymbolIndex(s[i]))
  }

  // --- Decoding ----------------------------------------------------------------------------------

  /**
   What decoding `n` symbols means: the floor(5n/8) big-endian bytes of the base-32 number they
   spell, shifted right by the 5n mod 8 bits that do not fill a byte.
   */
  function BytesOfSymbols(s: string): (bytes: seq<nat>)
    requires AllSymbols(s)
    ensures |bytes| == 5 * |s| / 8 && AreDigits(bytes, 256)
  {
    ToDigits(Shr(Value(Indices(s), 32), 5 * |s| % 8), 5 * |s| / 8, 256)
  }

  lemma SmallPowers()
    ensures Pow(2, 0) == 1 && Pow(2, 1) == 2 && Pow(2, 2) == 4 && Pow(2, 3) == 8
    ensures Pow(2, 4) == 16 && Pow(2, 5) == 32 && Pow(2, 6) == 64 && Pow(2, 7) == 128
    ensures Pow(2, 8) == 256
  {
    assert Pow(2, 4) == 16;
  }

  /** One turn of the decoding loop on the exact number: the new byte is the right one. */
  lemma DecodeByte(whole: nat, index: nat, bits: nat)
    requires index < 32 && 3 <= bits < 8
    ensures Shr(whole, bits) * 256 + Shr(whole * 32 + index, bits - 3) % 256
         == Shr(whole * 32 + index, bits - 3)
  {
    SmallPowers();
    assert bits == 3 || bits == 4 || bits == 5 || bits == 6 || bits == 7;
  }

  /** When no byte is complete, the bytes already written are unchanged. */
  lemma NoByteYet(whole: nat, index: nat, bits: nat)
    requires index < 32 && bits < 3
    ensures Shr(whole * 32 + index, bits + 5) == Shr(whole, bits)
  {
    SmallPowers();
    assert bits == 0 || bits == 1 || bits == 2;
  }

  /** `(value << 5) | index` keeps the accumulator equal to the exact number modulo 2^32. */
  lemma AccumulatorStep(value: int, whole: nat, index: nat)
    requires index < 32 && ToUint32(value) == ToUint32(whole)
    ensures ToUint32(Or32(Shl32(value, 5), index)) == ToUint32(whole * 32 + index)
  {
    ToUint32OfShl32(value);
    ToUint32OfOr32(Shl32(value, 5), index);
    OrFillsRoom(value, index);
    ToUint32Twice(value * 32 + index);
    ToUint32Absorbs(value, whole, index);
  }

  lemma OrFillsRoom(value: int, index: nat)
    requires index < 32
    ensures BitOr(ToUint32(value * 32), index) == ToUint32(value * 32 + index)
  {
    var h := ShiftedHasRoom(value, index);
    BitOrDisjointFive(h, index);
  }

  /** `(value >>> shift) & 0xff` reads bits the wrap-around has not reached. */
  lemma AccumulatorByte(value: int, whole: nat, shift: nat)
    requires shift < 5 && ToUint32(value) == ToUint32(whole)
    ensures And32(Ushr32(value, shift), 0xff) == Shr(whole, shift) % 256
  {
    SmallPowers();
    LowByteSurvives(whole, shift);
    And32Mask(Ushr32(value, shift), 0xff);
  }

  lemma LowByteSurvives(whole: nat, shift: nat)
    requires shift < 5
    ensures Shr(ToUint32(whole), shift) % 256 == Shr(whole, shift) % 256
  {
    SmallPowers();
    var k, u := whole / TWO_TO_32, ToUint32(whole);
    var d := Pow(2, shift);
    var c := 0x100_0000 / d;
    assert shift == 0 || shift == 1 || shift == 2 || shift == 3 || shift == 4;
    assert (c * 256) * d == TWO_TO_32;
    QuotientOfSum(k, c * 256, d, u);
    LowByteOfSum(k, c, u / d);
  }

  lemma IndicesSnoc(s: string, c: char)
    requires AllSymbols(s) && SymbolIndex(c) >= 0
    ensures AllSymbols(s + [c])
    ensures Value(Indices(s + [c]), 32) == Value(Indices(s), 32) * 32 + SymbolIndex(c)
  {
    assert Indices(s + [c]) == Indices(s) + [SymbolIndex(c) as nat];
    ValueSnoc(Indices(s), SymbolIndex(c), 32);
  }

  /** What the loop has established after reading the symbols `s`. */
  ghost predicate Decoded(s: string, bits: nat, value: int, out: seq<nat>) {
    && AllSymbols(s)
    && bits < 8 && 8 * |out| + bits == 5 * |s|
    && ToUint32(value) == ToUint32(Value(Indices(s), 32))
    && AreDigits(out, 256)
    && Value(out, 256) == Shr(Value(Indices(s), 32), bits)
  }

  lemma DecodeTurn(s: string, c: char, bits: nat, value: int, out: seq<nat>)
    requires Decoded(s, bits, value, out) && SymbolIndex(c) >= 0
    ensures var value' := Or32(Shl32(value, 5), SymbolIndex(c));
            if bits < 3 then Decoded(s + [c], bits + 5, value', out)
            else
              && 0 <= And32(Ushr32(value', bits - 3), 0xff)
              && Decoded(s + [c], bits - 3, value', out + [And32(Ushr32(value', bits - 3), 0xff)])
  {
    var index := SymbolIndex(c);
    var whole := Value(Indices(s), 32);
    IndicesSnoc(s, c);
    AccumulatorStep(value, whole, index);
    if bits < 3 {
      NoByteYet(whole, index, bits);
    } else {
      var value' := Or32(Shl32(value, 5), index);
      AccumulatorByte(value', whole * 32 + index, bits - 3);
      DecodeByte(whole, index, bits);
      ValueSnoc(out, And32(Ushr32(value', bits - 3), 0xff), 256);
    }
  }

  lemma OneSymbolMore(s: string, i: nat)
    requires i < |s|
    ensures s[..i] + [s[i]] == s[..i + 1]
  {
  }

  ghost predicate FirstBadSymbol(s: string, k: int, c: char) {
    0 <= k < |s| && AllSymbols(s[..k]) && s[k] == c && SymbolIndex(c) == -1
  }

  /** Once every symbol is read, the output is exactly what the symbols mean. */
  lemma DecodedAll(s: string, bits: nat, value: int, out: seq<nat>)
    requires Decoded(s, bits, value, out)
    ensures out == BytesOfSymbols(s)
  {
    assert 5 * |s| % 8 == bits && 5 * |s| / 8 == |out|;
    ToDigitsOfValue(out, 256);
  }

  /**
   The decoding loop. It fails with the first character outside the alphabet; otherwise its output
   is the number the symbols spell, although the accumulator wraps around after seven symbols.
   */
  method DecodeBase32(encoded: string) returns (r: Result<seq<nat>, char>)
    ensures r.Ok? <==> AllSymbols(Normalise(encoded))
    ensures r.Ok? ==> r.value == BytesOfSymbols(Normalise(encoded))
    ensures r.Err? ==> exists k :: FirstBadSymbol(Normalise(encoded), k, r.error)
  {
    var normalised := Normalise(encoded);
    var bits := 0;
    var value := 0;
    var out: seq<nat> := [];

    for i := 0 to |normalised|
      invariant 0 <= bits
      invariant Decoded(normalised[..i], bits, value, out)
    {
      var index := SymbolIndex(normalised[i]);
      if index == -1 {
        assert FirstBadSymbol(normalised, i, normalised[i]);
        return Err(normalised[i]);
      }
      DecodeTurn(normalised[..i], normalised[i], bits, value, out);
      OneSymbolMore(normalised, i);
      value := Or32(Shl32(value, 5), index);
      bits := bits + 5;
      if bits >= 8 {
        out := out + [And32(Ushr32(value, bits - 8), 0xff)];
        bits := bits - 8;
      }
    }
    assert normalised[..|normalised|] == normalised;
    DecodedAll(normalised, bits, value, out);
    return Ok(out);
  }

  // --- Encoding, as RFC 4648 defines it ------------------------------------------------------------

  function Zeros(k: nat): (z: seq<nat>)
    ensures |z| == k && AreDigits(z, 256)
  {
    seq(k, _ => 0)
  }

  /** Five bytes make eight symbols; a shorter final group is filled with zero bits. */
  function SymbolsOf(bytes: seq<nat>): (symbols: seq<nat>)
    requires AreDigits(bytes, 256)
    ensures |symbols| == (8 * |bytes| + 4) / 5 && AreDigits(symbols, 32)
    decreases |bytes|
  {
    if |bytes| >= 5 then ToDigits(Value(bytes[..5], 256), 8, 32) + SymbolsOf(bytes[5..])
    else ToDigits(Value(bytes + Zeros(5 - |bytes|), 256), 8, 32)[..(8 * |bytes| + 4) / 5]
  }

  function PaddingLength(n: nat): nat {
    match n % 5
    case 0 => 0
    case 1 => 6
    case 2 => 4
    case 3 => 3
    case _ => 1
  }

  function Spell(symbols: seq<nat>): (s: string)
    requires AreDigits(symbols, 32)
    ensures |s| == |symbols|
  {
    seq(|symbols|, i requires 0 <= i < |symbols| => Symbol(symbols[i]))
  }

  function Repeat(c: char, n: nat): (s: string)
    ensures |s| == n && forall i :: 0 <= i < n ==> s[i] == c
  {
    if n == 0 then "" else Repeat(c, n - 1) + [c]
  }

  function EncodeBase32(bytes: seq<nat>): string
    requires AreDigits(bytes, 256)
  {
    Spell(SymbolsOf(bytes)) + Repeat('=', PaddingLength(|bytes|))
  }

  /** Bits lost to a shift of a full group: 40 bits are eight symbols or five bytes. */
  lemma PowersMeet(m: nat, k: nat)
    requires 5 * m >= 8 * k
    ensures Pow(32, m) == Pow(256, k) * Pow(2, 5 * m - 8 * k)
  {
    SymbolsAreBits(m);
    BytesAreBits(k);
    PowAdd(2, 8 * k, 5 * m - 8 * k);
  }

  lemma {:induction false} ValueOfZeros(k: nat)
    ensures Value(Zeros(k), 256) == 0
  {
    if k == 0 {
    } else {
      ValueOfZeros(k - 1);
      assert Zeros(k)[..k - 1] == Zeros(k - 1);
    }
  }

  /** `symbols` spell the number `bytes` spell, shifted left to fill the last symbol. */
  ghost predicate Spells(symbols: seq<nat>, bytes: seq<nat>) {
    && 5 * |symbols| >= 8 * |bytes|
    && Value(symbols, 32) == Value(bytes, 256) * Pow(2, 5 * |symbols| - 8 * |bytes|)
  }

  /** The symbols spell the number the bytes spell, followed by the zero bits of the fill. */
  lemma {:induction false} SymbolsSpellBytes(bytes: seq<nat>)
    requires AreDigits(bytes, 256)
    ensures Spells(SymbolsOf(bytes), bytes)
  {
    if |bytes| >= 5 {
      SymbolsSpellBytes(bytes[5..]);
      FullGroup(bytes[..5], bytes[5..], SymbolsOf(bytes[5..]));
      assert bytes[..5] + bytes[5..] == bytes;
    } else {
      FinalGroup(bytes, (8 * |bytes| + 4) / 5);
    }
  }

  /** A group of five bytes fits in eight symbols. */
  lemma GroupFits(group: seq<nat>)
    requires |group| == 5 && AreDigits(group, 256)
    ensures Value(group, 256) < Pow(32, 8)
  {
    ValueBound(group, 256);
    PowersMeet(8, 5);
  }

  lemma GroupedProduct(x: nat, y: nat, p: nat, q: nat, w: nat)
    requires w == p * q
    ensures x * w + y * q == (x * p + y) * q
  {
    MulDistributes(x * p, y, q);
    MulAssociates(x, p, q);
  }

  lemma GroupBefore(group: seq<nat>, tail: seq<nat>)
    requires |group| == 5 && AreDigits(group, 256)
    ensures Value(ToDigits(Value(group, 256), 8, 32) + tail, 32)
         == Value(group, 256) * Pow(32, |tail|) + Value(tail, 32)
  {
    GroupFits(group);
    ValueOfToDigits(Value(group, 256), 8, 32);
    ValueAppend(ToDigits(Value(group, 256), 8, 32), tail, 32);
  }

  lemma FullGroup(group: seq<nat>, rest: seq<nat>, tail: seq<nat>)
    requires |group| == 5 && AreDigits(group, 256) && Spells(tail, rest)
    ensures Spells(ToDigits(Value(group, 256), 8, 32) + tail, group + rest)
  {
    var x, head := Value(group, 256), ToDigits(Value(group, 256), 8, 32);
    var p, q := Pow(256, |rest|), Pow(2, 5 * |tail| - 8 * |rest|);
    GroupBefore(group, tail);
    PowersMeet(|tail|, |rest|);
    ValueAppend(group, rest, 256);
    GroupedProduct(x, Value(rest, 256), p, q, Pow(32, |tail|));
    SpellsIf(head + tail, group + rest, 8 + |tail|);
  }

  lemma FilledValue(bytes: seq<nat>, j: nat)
    ensures Value(bytes + Zeros(j), 256) == Value(bytes, 256) * Pow(256, j)
  {
    ValueAppend(bytes, Zeros(j), 256);
    ValueOfZeros(j);
  }

  lemma FinalGroup(bytes: seq<nat>, m: nat)
    requires |bytes| < 5 && AreDigits(bytes, 256) && m == (8 * |bytes| + 4) / 5
    ensures Spells(ToDigits(Value(bytes + Zeros(5 - |bytes|), 256), 8, 32)[..m], bytes)
  {
    FillSplits(|bytes|, m);
    ShortGroup(bytes, m, Pow(2, 5 * m - 8 * |bytes|), Pow(256, 5 - |bytes|), Pow(32, 8 - m));
  }

  /** The fill of a short group is the rest of its last symbol and the symbols left out. */
  lemma FillSplits(k: nat, m: nat)
    requires k <= 5 && m <= 8 && 5 * m >= 8 * k
    ensures Pow(256, 5 - k) == Pow(2, 5 * m - 8 * k) * Pow(32, 8 - m)
  {
    BytesAreBits(5 - k);
    SymbolsAreBits(8 - m);
    PowAdd(2, 5 * m - 8 * k, 5 * (8 - m));
  }

  /** A short group: its fill `w` is `c`, the rest of its last symbol, times `q`, the symbols left out. */
  lemma ShortGroup(bytes: seq<nat>, m: nat, c: nat, w: nat, q: nat)
    requires |bytes| < 5 && AreDigits(bytes, 256) && m <= 8 && 5 * m >= 8 * |bytes|
    requires c == Pow(2, 5 * m - 8 * |bytes|) && w == Pow(256, 5 - |bytes|) && q == Pow(32, 8 - m)
    requires w == c * q
    ensures Spells(ToDigits(Value(bytes + Zeros(5 - |bytes|), 256), 8, 32)[..m], bytes)
  {
    var filled := bytes + Zeros(5 - |bytes|);
    assert Value(filled, 256) == Value(bytes, 256) * w by { FilledValue(bytes, 5 - |bytes|); }
    var y := MulRegroups(Value(filled, 256), Value(bytes, 256), w, c, q);
    GroupFits(filled);
    LeadingDigits(Value(filled, 256), y, m);
    SpellsIf(ToDigits(Value(filled, 256), 8, 32)[..m], bytes, m);
  }

  lemma SpellsIf(symbols: seq<nat>, bytes: seq<nat>, m: nat)
    requires |symbols| == m && 5 * m >= 8 * |bytes|
    requires Value(symbols, 32) == Value(bytes, 256) * Pow(2, 5 * m - 8 * |bytes|)
    ensures Spells(symbols, bytes)
  {
  }

  /** Dropping the low digits of a multiple of their weight divides by it. */
  lemma LeadingDigits(v: nat, y: nat, m: nat)
    requires m <= 8 && v < Pow(32, 8) && v == y * Pow(32, 8 - m)
    ensures Value(ToDigits(v, 8, 32)[..m], 32) == y
  {
    var digits := ToDigits(v, 8, 32);
    var front, back := digits[..m], digits[m..];
    assert Value(front, 32) * Pow(32, 8 - m) + Value(back, 32) == v by {
      ValueOfToDigits(v, 8, 32);
      assert front + back == digits;
      ValueAppend(front, back, 32);
    }
    ValueBound(back, 32);
    QuotientUnique(Value(front, 32), Value(back, 32), y, 0, Pow(32, 8 - m));
  }

  lemma BytesAreBits(k: nat)
    ensures Pow(256, k) == Pow(2, 8 * k)
  {
    SmallPowers();
    PowOfPow(2, 8, k);
  }

  lemma SymbolsAreBits(m: nat)
    ensures Pow(32, m) == Pow(2, 5 * m)
  {
    SmallPowers();
    PowOfPow(2, 5, m);
  }

  lemma ShrOfShifted(v: nat, k: nat)
    ensures Shr(v * Pow(2, k), k) == v
  {
    PowPositive(2, k);
    DivModUnique(v, 0, Pow(2, k));
  }

  /** Shifting the fill out again leaves the bytes. */
  lemma ShrOfSpelled(symbols: seq<nat>, bytes: seq<nat>)
    requires Spells(symbols, bytes)
    ensures Shr(Value(symbols, 32), 5 * |symbols| - 8 * |bytes|) == Value(bytes, 256)
  {
    ShrOfShifted(Value(bytes, 256), 5 * |symbols| - 8 * |bytes|);
  }

  lemma BytesOfSpelled(symbols: seq<nat>, n: nat, e: nat)
    requires AreDigits(symbols, 32) && 5 * |symbols| / 8 == n && 5 * |symbols| % 8 == e
    ensures AllSymbols(Spell(symbols))
    ensures BytesOfSymbols(Spell(symbols)) == ToDigits(Shr(Value(symbols, 32), e), n, 256)
  {
    assert Indices(Spell(symbols)) == symbols;
  }

  /** The symbols of `n` bytes end with fewer than five bits of fill. */
  lemma SymbolCount(n: nat, m: nat)
    requires m == (8 * n + 4) / 5
    ensures 5 * m / 8 == n && 5 * m % 8 == 5 * m - 8 * n
  {
    var e := 5 * m - 8 * n;
    assert 0 <= e < 5;
    DivModUnique(n, e, 8);
  }

  /** Decoding the bare symbols of any byte string gives the byte string back. */
  lemma DecodeSymbols(bytes: seq<nat>)
    requires AreDigits(bytes, 256)
    ensures AllSymbols(Spell(SymbolsOf(bytes)))
    ensures BytesOfSymbols(Spell(SymbolsOf(bytes))) == bytes
  {
    var symbols, n := SymbolsOf(bytes), |bytes|;
    var e := 5 * |symbols| - 8 * n;
    assert Shr(Value(symbols, 32), e) == Value(bytes, 256) by {
      SymbolsSpellBytes(bytes);
      ShrOfSpelled(symbols, bytes);
    }
    SymbolCount(n, |symbols|);
    BytesOfSpelled(symbols, n, e);
    ToDigitsOfValue(bytes, 256);
  }

  lemma {:induction false} UpperThenDropPadding(s: string)
    ensures DropTrailingPadding(ToUpper(s)) == ToUpper(DropTrailingPadding(s))
  {
    if s == "" {
    } else {
      ToUpperPointwise(s);
      ToUpperPointwise(s[..|s| - 1]);
      assert ToUpper(s)[..|s| - 1] == ToUpper(s[..|s| - 1]);
      UpperThenDropPadding(s[..|s| - 1]);
    }
  }

  lemma {:induction false} ToUpperPointwise(s: string)
    ensures forall i :: 0 <= i < |s| ==> ToUpper(s)[i] == Upper(s[i])
  {
    if s == "" {
    } else {
      ToUpperPointwise(s[1..]);
    }
  }

  lemma {:induction false} DropAllPadding(s: string, n: nat)
    requires s != "" ==> s[|s| - 1] != '='
    ensures DropTrailingPadding(s + Repeat('=', n)) == s
  {
    var t := s + Repeat('=', n);
    if n > 0 {
      assert t[..|t| - 1] == s + Repeat('=', n - 1);
      DropAllPadding(s, n - 1);
    } else {
      assert t == s;
    }
  }

  /**
   Decoding undoes encoding: any text that, without its white space and dashes and in upper case,
   is the encoding of `bytes` with whatever number of `=` behind it, decodes to `bytes`.
   */
  lemma RoundTrip(bytes: seq<nat>, padding: nat, encoded: string)
    requires AreDigits(bytes, 256)
    requires ToUpper(DropSeparators(encoded)) == Spell(SymbolsOf(bytes)) + Repeat('=', padding)
    ensures AllSymbols(Normalise(encoded)) && BytesOfSymbols(Normalise(encoded)) == bytes
  {
    var symbols := Spell(SymbolsOf(bytes));
    UpperThenDropPadding(DropSeparators(encoded));
    DecodeSymbols(bytes);
    DropAllPadding(symbols, padding);
  }

  lemma SymbolsByGroups(q: nat, k: nat)
    requires k < 5
    ensures (8 * (5 * q + k) + 4) / 5 == 8 * q + (8 * k + 4) / 5
  {
    DivModUnique(8 * q + (8 * k + 4) / 5, (8 * k + 4) % 5, 5);
  }

  lemma LastGroup(q: nat, k: nat)
    requires k < 5
    ensures PaddingLength(5 * q + k) == PaddingLength(k) < 8 && (8 * k + 4) / 5 + PaddingLength(k) in {0, 8}
  {
    DivModUnique(q, k, 5);
  }

  lemma WholeGroups(q: nat, rest: nat)
    requires rest in {0, 8}
    ensures (8 * q + rest) % 8 == 0
  {
  }

  /** The standard encoding is filled up to whole groups of eight, with less than one of them. */
  lemma PaddedToEight(n: nat)
    ensures PaddingLength(n) < 8 && ((8 * n + 4) / 5 + PaddingLength(n)) % 8 == 0
  {
    var q, k := n / 5, n % 5;
    SymbolsByGroups(q, k);
    LastGroup(q, k);
    WholeGroups(q, (8 * k + 4) / 5 + PaddingLength(k));
  }

  lemma EncodedLength(bytes: seq<nat>)
    requires AreDigits(bytes, 256)
    ensures |EncodeBase32(bytes)| % 8 == 0
  {
    PaddedToEight(|bytes|);
  }

  /** In particular the standard encoding itself, as it is written. */
  lemma RoundTripStandard(bytes: seq<nat>)
    requires AreDigits(bytes, 256)
    ensures AllSymbols(Normalise(EncodeBase32(bytes)))
    ensures BytesOfSymbols(Normalise(EncodeBase32(bytes))) == bytes
    ensures |EncodeBase32(bytes)| % 8 == 0
  {
    var symbols, padding := Spell(SymbolsOf(bytes)), Repeat('=', PaddingLength(|bytes|));
    PlainTextUnchanged(symbols + padding);
    EncodedLength(bytes);
    RoundTrip(bytes, PaddingLength(|bytes|), EncodeBase32(bytes));
  }

  lemma {:induction false} PlainTextUnchanged(s: string)
    requires forall i :: 0 <= i < |s| ==> s[i] == '=' || SymbolIndex(s[i]) >= 0
    ensures ToUpper(DropSeparators(s)) == s
  {
    if s == "" {
    } else {
      PlainTextUnchanged(s[1..]);
    }
  }

  // --- What text is accepted -----------------------------------------------------------------------

  const BASE32_LOWER: string := "abcdefghijklmnopqrstuvwxyz234567"

  predicate IsGap(s: string) {
    forall i :: 0 <= i < |s| ==> IsSpace(s[i]) || s[i] == '-'
  }

  /** A symbol as it may be written: after white space and dashes, and in either case. */
  datatype Glyph = Glyph(gap: string, index: nat, lower: bool) {
    predicate Valid() {
      IsGap(gap) && index < 32
    }

    function Letter(): char
      requires index < |BASE32_LOWER| == |BASE32_ALPHABET|
    {
      if lower then BASE32_LOWER[index] else BASE32_ALPHABET[index]
    }
  }

  predicate AllValid(glyphs: seq<Glyph>) {
    forall i :: 0 <= i < |glyphs| ==> glyphs[i].Valid()
  }

  function Print(glyphs: seq<Glyph>): string
    requires AllValid(glyphs)
  {
    if glyphs == [] then "" else glyphs[0].gap + ([glyphs[0].Letter()] + Print(glyphs[1..]))
  }

  function IndicesOf(glyphs: seq<Glyph>): seq<nat> {
    Map((g: Glyph) => g.index, glyphs)
  }

  /** What may follow the symbols: padding, white space and dashes in any order. */
  predicate IsTrailer(s: string) {
    forall i :: 0 <= i < |s| ==> s[i] == '=' || IsSpace(s[i]) || s[i] == '-'
  }

  ghost predicate Spelled(encoded: string, glyphs: seq<Glyph>, trailer: string) {
    AllValid(glyphs) && IsTrailer(trailer) && encoded == Print(glyphs) + trailer
  }

  lemma LetterOf(g: Glyph)
    requires g.Valid()
    ensures Upper(g.Letter()) == Symbol(g.index) && !IsSpace(g.Letter()) && g.Letter() != '-' && g.Letter() != '='
  {
    SymbolIndexIsPosition(g.index);
    LowerIsPosition(g.index);
  }

  lemma LowerIsPosition(i: nat)
    requires i < 32
    ensures |BASE32_LOWER| == 32
    ensures BASE32_LOWER[i] == if i < 26 then 'a' + i as char else '2' + (i - 26) as char
  {
  }

  lemma GlyphOf(c: char) returns (g: Glyph)
    requires SymbolIndex(Upper(c)) >= 0
    ensures g.Valid() && g.gap == "" && g.Letter() == c && g.index == SymbolIndex(Upper(c))
  {
    var index := SymbolIndex(Upper(c));
    SymbolIndexIsPosition(index);
    LowerIsPosition(index);
    g := Glyph("", index, 'a' <= c <= 'z');
  }

  lemma {:induction false} DropConcat(a: string, b: string)
    ensures DropSeparators(a + b) == DropSeparators(a) + DropSeparators(b)
  {
    if a == "" {
      assert a + b == b;
    } else {
      assert (a + b)[1..] == a[1..] + b;
      DropConcat(a[1..], b);
    }
  }

  lemma {:induction false} DropGap(s: string)
    requires IsGap(s)
    ensures DropSeparators(s) == ""
  {
    if s != "" { DropGap(s[1..]); }
  }

  lemma {:induction false} DropTrailer(s: string)
    requires IsTrailer(s)
    ensures exists n: nat :: DropSeparators(s) == Repeat('=', n)
  {
    if s == "" {
      assert DropSeparators(s) == Repeat('=', 0);
    } else {
      DropTrailer(s[1..]);
      var n: nat :| DropSeparators(s[1..]) == Repeat('=', n);
      assert s[0] == '=' ==> ['='] + Repeat('=', n) == Repeat('=', n + 1);
    }
  }

  /** The letters of the glyphs, without the gaps. */
  function Letters(glyphs: seq<Glyph>): string
    requires AllValid(glyphs)
  {
    if glyphs == [] then "" else [glyphs[0].Letter()] + Letters(glyphs[1..])
  }

  lemma {:induction false} DropPrinted(glyphs: seq<Glyph>)
    requires AllValid(glyphs)
    ensures DropSeparators(Print(glyphs)) == Letters(glyphs)
  {
    if glyphs == [] {
    } else {
      var rest := [glyphs[0].Letter()] + Print(glyphs[1..]);
      DropConcat(glyphs[0].gap, rest);
      DropGap(glyphs[0].gap);
      LetterOf(glyphs[0]);
      DropPrinted(glyphs[1..]);
      assert rest[1..] == Print(glyphs[1..]);
    }
  }

  lemma {:induction false} UpperLetters(glyphs: seq<Glyph>)
    requires AllValid(glyphs)
    ensures AreDigits(IndicesOf(glyphs), 32) && ToUpper(Letters(glyphs)) == Spell(IndicesOf(glyphs))
    ensures Letters(glyphs) != "" ==> Letters(glyphs)[|Letters(glyphs)| - 1] != '='
  {
    if glyphs == [] {
    } else {
      UpperLetters(glyphs[1..]);
      LetterOf(glyphs[0]);
      assert IndicesOf(glyphs) == [glyphs[0].index] + IndicesOf(glyphs[1..]);
      assert Letters(glyphs)[1..] == Letters(glyphs[1..]);
      assert Spell(IndicesOf(glyphs)) == [Symbol(glyphs[0].index)] + Spell(IndicesOf(glyphs[1..]));
    }
  }

  lemma PrintedIsRead(encoded: string, glyphs: seq<Glyph>, trailer: string)
    requires Spelled(encoded, glyphs, trailer)
    ensures AreDigits(IndicesOf(glyphs), 32) && Normalise(encoded) == Spell(IndicesOf(glyphs))
    ensures AllSymbols(Normalise(encoded))
  {
    DropConcat(Print(glyphs), trailer);
    DropPrinted(glyphs);
    DropTrailer(trailer);
    UpperLetters(glyphs);
    var n: nat :| DropSeparators(trailer) == Repeat('=', n);
    DropAllPadding(Letters(glyphs), n);
  }

  lemma {:induction false} PaddingDropped(s: string) returns (n: nat)
    ensures s == DropTrailingPadding(s) + Repeat('=', n)
  {
    if s != "" && s[|s| - 1] == '=' {
      n := PaddingDropped(s[..|s| - 1]);
      n := n + 1;
    } else {
      n := 0;
    }
  }

  lemma PrintFirst(g: Glyph, tail: seq<Glyph>)
    requires g.Valid() && AllValid(tail)
    ensures AllValid([g] + tail) && Print([g] + tail) == g.gap + ([g.Letter()] + Print(tail))
  {
    assert ([g] + tail)[1..] == tail;
  }

  lemma PrependLetter(g: Glyph, tail: seq<Glyph>, trailer: string, rest: string)
    requires g.Valid() && g.gap == "" && Spelled(rest, tail, trailer)
    ensures Spelled([g.Letter()] + rest, [g] + tail, trailer)
  {
    PrintFirst(g, tail);
    assert "" + ([g.Letter()] + Print(tail)) == [g.Letter()] + Print(tail);
    assert [g.Letter()] + (Print(tail) + trailer) == [g.Letter()] + Print(tail) + trailer;
  }

  lemma PrependGap(c: char, g: Glyph, tail: seq<Glyph>, trailer: string, rest: string)
    requires (IsSpace(c) || c == '-') && Spelled(rest, [g] + tail, trailer)
    ensures Spelled([c] + rest, [g.(gap := [c] + g.gap)] + tail, trailer)
  {
    assert ([g] + tail)[0] == g && forall i :: 0 <= i < |tail| ==> tail[i] == ([g] + tail)[i + 1];
    var wider := g.(gap := [c] + g.gap);
    PrintFirst(g, tail);
    PrintFirst(wider, tail);
    GapFirst(c, g.gap, [g.Letter()] + Print(tail), trailer);
  }

  lemma GapFirst(c: char, gap: string, text: string, trailer: string)
    ensures [c] + (gap + text + trailer) == [c] + gap + text + trailer
  {
  }

  lemma PrependTrailer(c: char, trailer: string, rest: string)
    requires (c == '=' || IsSpace(c) || c == '-') && Spelled(rest, [], trailer)
    ensures Spelled([c] + rest, [], [c] + trailer)
  {
  }

  lemma PaddingShortens(n: nat)
    requires n > 0
    ensures Repeat('=', n)[0] == '=' && Repeat('=', n)[1..] == Repeat('=', n - 1)
  {
  }

  lemma Spaced(c: char, tail: seq<Glyph>, after: string, rest: string) returns (glyphs: seq<Glyph>, trailer: string)
    requires (IsSpace(c) || c == '-') && Spelled(rest, tail, after)
    ensures |glyphs| == |tail| && Spelled([c] + rest, glyphs, trailer)
  {
    if tail == [] {
      PrependTrailer(c, after, rest);
      glyphs, trailer := [], [c] + after;
    } else {
      assert tail == [tail[0]] + tail[1..];
      PrependGap(c, tail[0], tail[1..], after, rest);
      glyphs, trailer := [tail[0].(gap := [c] + tail[0].gap)] + tail[1..], after;
    }
  }

  lemma Lettered(c: char, tail: seq<Glyph>, trailer: string, rest: string) returns (glyphs: seq<Glyph>)
    requires SymbolIndex(Upper(c)) >= 0 && Spelled(rest, tail, trailer)
    ensures |glyphs| == |tail| + 1 && Spelled([c] + rest, glyphs, trailer)
  {
    var g := GlyphOf(c);
    PrependLetter(g, tail, trailer, rest);
    glyphs := [g] + tail;
  }

  /** What the first character of a text is, given what is left of it without separators. */
  lemma FirstDropped(c: char, rest: string, core: string, n: nat)
    requires DropSeparators([c] + rest) == core + Repeat('=', n)
    ensures IsSpace(c) || c == '-' ==> DropSeparators(rest) == core + Repeat('=', n)
    ensures !IsSpace(c) && c != '-' && core == "" ==> n > 0 && c == '=' && DropSeparators(rest) == "" + Repeat('=', n - 1)
    ensures !IsSpace(c) && c != '-' && core != "" ==> c == core[0] && DropSeparators(rest) == core[1..] + Repeat('=', n)
  {
    assert ([c] + rest)[1..] == rest;
    if !IsSpace(c) && c != '-' {
      assert [c] + DropSeparators(rest) == core + Repeat('=', n);
      if core == "" {
        assert core + Repeat('=', n) == Repeat('=', n);
        assert n == 1 + |DropSeparators(rest)|;
        PaddingShortens(n);
      } else {
        assert (core + Repeat('=', n))[1..] == core[1..] + Repeat('=', n);
      }
    }
  }

  lemma {:induction false} TextIsPrinted(encoded: string, core: string, n: nat)
    returns (glyphs: seq<Glyph>, trailer: string)
    requires DropSeparators(encoded) == core + Repeat('=', n)
    requires forall i :: 0 <= i < |core| ==> SymbolIndex(Upper(core[i])) >= 0
    ensures |glyphs| == |core| && Spelled(encoded, glyphs, trailer)
    decreases |encoded|
  {
    if encoded == "" {
      glyphs, trailer := [], "";
      assert |core + Repeat('=', n)| == 0;
    } else {
      var c, rest := encoded[0], encoded[1..];
      assert encoded == [c] + rest;
      FirstDropped(c, rest, core, n);
      if IsSpace(c) || c == '-' {
        glyphs, trailer := TextIsPrinted(rest, core, n);
        glyphs, trailer := Spaced(c, glyphs, trailer, rest);
      } else if core == "" {
        glyphs, trailer := TextIsPrinted(rest, "", n - 1);
        PrependTrailer(c, trailer, rest);
        trailer := [c] + trailer;
      } else {
        glyphs, trailer := TextIsPrinted(rest, core[1..], n);
        glyphs := Lettered(c, glyphs, trailer, rest);
      }
    }
  }

  /**
   A text is accepted if and only if it is symbols of the alphabet in either case, with white space and
   dashes anywhere and padding behind them; what is decoded is then those symbols and nothing else.
   */
  lemma AcceptedExactly(encoded: string)
    ensures AllSymbols(Normalise(encoded)) <==> exists glyphs, trailer :: Spelled(encoded, glyphs, trailer)
    ensures forall glyphs, trailer :: Spelled(encoded, glyphs, trailer) ==>
              AllSymbols(Normalise(encoded)) && Indices(Normalise(encoded)) == IndicesOf(glyphs)
  {
    forall glyphs, trailer | Spelled(encoded, glyphs, trailer)
      ensures AllSymbols(Normalise(encoded)) && Indices(Normalise(encoded)) == IndicesOf(glyphs)
    {
      PrintedIsRead(encoded, glyphs, trailer);
      assert Indices(Spell(IndicesOf(glyphs))) == IndicesOf(glyphs);
    }
    if AllSymbols(Normalise(encoded)) {
      var dropped := DropSeparators(encoded);
      var core := DropTrailingPadding(dropped);
      var n := PaddingDropped(dropped);
      ToUpperPointwise(core);
      assert forall i :: 0 <= i < |core| ==> SymbolIndex(Normalise(encoded)[i]) >= 0;
      var glyphs, trailer := TextIsPrinted(encoded, core, n);
    }
  }

  // --- Dynamic truncation --------------------------------------------------------------------------

  type Digest = d: seq<nat> | |d| == 20 && AreDigits(d, 256)
    witness seq(20, _ => 0)

  type Hmac = (seq<nat>, seq<nat>) -> Digest

  /** `digest[digest.length - 1] & 0x0f` */
  function TruncationOffset(digest: Digest): int {
    And32(digest[19], 0x0f)
  }

  /** Four bytes assembled with signed shifts and `|`. */
  function Assemble(b0: int, b1: int, b2: int, b3: int): int {
    Or32(Or32(Or32(Shl32(b0, 24), Shl32(b1, 16)), Shl32(b2, 8)), b3)
  }

  /** The four-byte read at `offset`, its top bit cleared. */
  function TruncatedWord(digest: Digest, offset: nat): int
    requires offset + 3 < |digest|
  {
    Assemble(
      And32(digest[offset], 0x7f),
      And32(digest[offset + 1], 0xff),
      And32(digest[offset + 2], 0xff),
      And32(digest[offset + 3], 0xff))
  }

  lemma ByteMask(b: nat, m: nat)
    requires b < 256 && m in {0x0f, 0x7f, 0xff}
    ensures And32(b, m) == b % (m + 1)
  {
    And32Mask(b, m);
  }

  lemma Shl32Small(a: nat, k: nat, p: nat)
    requires k < 32 && p == Pow(2, k) && a * p < 0x8000_0000
    ensures Shl32(a, k) == a * p
  {
    MulNonNegative(a, p);
    ToInt32OfSmall(a * p);
  }

  /** `|` of a multiple of 2^k and something below 2^k, within 31 bits, is their sum. */
  lemma Or32Disjoint(a: nat, h: nat, k: nat, p: nat, c: nat)
    requires p == Pow(2, k) && a == h * p && c < p && a + c < 0x8000_0000
    ensures Or32(a, c) == a + c
  {
    ToUint32Of(a, 0, a);
    ToUint32Of(c, 0, c);
    BitOrDisjoint(h, c, k);
    ToInt32OfSmall(a + c);
  }

  lemma ShiftPowers()
    ensures Pow(2, 8) == 0x100 && Pow(2, 16) == 0x1_0000 && Pow(2, 24) == 0x100_0000
  {
    SmallPowers();
    PowAdd(2, 8, 8);
    PowAdd(2, 16, 8);
  }

  lemma TwoBytes(b0: nat, b1: nat)
    requires b0 < 128 && b1 < 256
    ensures Or32(Shl32(b0, 24), Shl32(b1, 16)) == (b0 * 0x100 + b1) * 0x1_0000
  {
    ShiftPowers();
    Shl32Small(b0, 24, 0x100_0000);
    Shl32Small(b1, 16, 0x1_0000);
    Or32Disjoint(b0 * 0x100_0000, b0, 24, 0x100_0000, b1 * 0x1_0000);
  }

  lemma ThirdByte(word: int, high: nat, b2: nat)
    requires word == high * 0x1_0000 && high < 0x8000 && b2 < 256
    ensures Or32(word, Shl32(b2, 8)) == (high * 0x100 + b2) * 0x100
  {
    ShiftPowers();
    Shl32Small(b2, 8, 0x100);
    Or32Disjoint(word, high, 16, 0x1_0000, b2 * 0x100);
  }

  lemma FourthByte(word: int, high: nat, b3: nat)
    requires word == high * 0x100 && high < 0x80_0000 && b3 < 256
    ensures Or32(word, b3) == high * 0x100 + b3
  {
    ShiftPowers();
    Or32Disjoint(word, high, 8, 0x100, b3);
  }

  /** The signed assembly of four bytes, the first below 128, is their big-endian word. */
  lemma AssembleWord(b0: nat, b1: nat, b2: nat, b3: nat)
    requires b0 < 128 && b1 < 256 && b2 < 256 && b3 < 256
    ensures Assemble(b0, b1, b2, b3) == b0 * 0x100_0000 + b1 * 0x1_0000 + b2 * 0x100 + b3
  {
    var two := Or32(Shl32(b0, 24), Shl32(b1, 16));
    var three := Or32(two, Shl32(b2, 8));
    TwoBytes(b0, b1);
    ThirdByte(two, b0 * 0x100 + b1, b2);
    FourthByte(three, (b0 * 0x100 + b1) * 0x100 + b2, b3);
  }

  lemma FourByteValue(b0: nat, b1: nat, b2: nat, b3: nat)
    ensures Value([b0, b1, b2, b3], 256) == b0 * 0x100_0000 + b1 * 0x1_0000 + b2 * 0x100 + b3
  {
    assert [b0, b1, b2, b3] == [] + [b0] + [b1] + [b2] + [b3];
    ValueSnoc([], b0, 256);
    ValueSnoc([] + [b0], b1, 256);
    ValueSnoc([] + [b0] + [b1], b2, 256);
    ValueSnoc([] + [b0] + [b1] + [b2], b3, 256);
  }

  /**
   Dynamic truncation, section 5.3 of RFC 4226: the offset is the low four bits of the last byte,
   the read stays inside the digest, and the result is the big-endian word there modulo 2^31.
   */
  lemma TruncationIsWordMod31(digest: Digest)
    ensures var offset := TruncationOffset(digest);
            && offset == digest[19] % 16
            && 0 <= offset && offset + 3 < |digest|
            && TruncatedWord(digest, offset) == Value(digest[offset..offset + 4], 256) % 0x8000_0000
  {
    ByteMask(digest[19], 0x0f);
    var o: nat := digest[19] % 16;
    WordAt(digest, o);
    assert digest[o..o + 4] == [digest[o], digest[o + 1], digest[o + 2], digest[o + 3]];
  }

  lemma WordAt(digest: Digest, o: nat)
    requires o + 3 < |digest|
    ensures TruncatedWord(digest, o)
         == Value([digest[o], digest[o + 1], digest[o + 2], digest[o + 3]], 256) % 0x8000_0000
  {
    MaskedWord(digest[o], digest[o + 1], digest[o + 2], digest[o + 3]);
  }

  lemma MaskedWord(b0: nat, b1: nat, b2: nat, b3: nat)
    requires b0 < 256 && b1 < 256 && b2 < 256 && b3 < 256
    ensures Assemble(And32(b0, 0x7f), And32(b1, 0xff), And32(b2, 0xff), And32(b3, 0xff))
         == Value([b0, b1, b2, b3], 256) % 0x8000_0000
  {
    MasksApply(b0, b1, b2, b3);
    AssembleWord(b0 % 128, b1, b2, b3);
    WordWithoutTopBit(b0, b1, b2, b3);
  }

  lemma MasksApply(b0: nat, b1: nat, b2: nat, b3: nat)
    requires b0 < 256 && b1 < 256 && b2 < 256 && b3 < 256
    ensures Assemble(And32(b0, 0x7f), And32(b1, 0xff), And32(b2, 0xff), And32(b3, 0xff))
         == Assemble(b0 % 128, b1, b2, b3)
  {
    ByteMask(b0, 0x7f);
    And32Whole(b1, 0xff);
    And32Whole(b2, 0xff);
    And32Whole(b3, 0xff);
  }

  lemma WordWithoutTopBit(b0: nat, b1: nat, b2: nat, b3: nat)
    requires b0 < 256 && b1 < 256 && b2 < 256 && b3 < 256
    ensures Value([b0, b1, b2, b3], 256) % 0x8000_0000
         == b0 % 128 * 0x100_0000 + b1 * 0x1_0000 + b2 * 0x100 + b3
  {
    FourByteValue(b0, b1, b2, b3);
    WithoutTopBit(b0, b1 * 0x1_0000 + b2 * 0x100 + b3);
  }

  lemma WithoutTopBit(b0: nat, low: nat)
    requires b0 < 256 && low < 0x100_0000
    ensures (b0 * 0x100_0000 + low) % 0x8000_0000 == (b0 % 128) * 0x100_0000 + low
  {
    assert b0 == (b0 / 128) * 128 + b0 % 128;
    DivModUnique(b0 / 128, (b0 % 128) * 0x100_0000 + low, 0x8000_0000);
  }

  // --- The code text -------------------------------------------------------------------------------

  /** `text.padStart(n, '0')` */
  function PadStart(text: string, n: nat): (padded: string)
    ensures |padded| == if |text| < n then n else |text|
  {
    Repeat('0', if |text| < n then n - |text| else 0) + text
  }

  lemma {:induction false} ZerosBeforeNumeral(zeros: nat, text: string)
    requires IsNumeral(text)
    ensures IsNumeral(Repeat('0', zeros) + text)
    ensures NumeralValue(Repeat('0', zeros) + text) == NumeralValue(text)
  {
    var padded := Repeat('0', zeros) + text;
    if text != "" {
      assert padded[..|padded| - 1] == Repeat('0', zeros) + text[..|text| - 1];
      ZerosBeforeNumeral(zeros, text[..|text| - 1]);
    } else {
      assert padded == Repeat('0', zeros);
      ZerosAreWorthNothing(zeros);
    }
  }

  lemma {:induction false} ZerosAreWorthNothing(n: nat)
    ensures IsNumeral(Repeat('0', n)) && NumeralValue(Repeat('0', n)) == 0
  {
    var zeros := Repeat('0', n);
    if n == 0 {
    } else {
      ZerosAreWorthNothing(n - 1);
      assert zeros[..n - 1] == Repeat('0', n - 1) && zeros[n - 1] == '0';
    }
  }

  /** A number below 10^n, printed and padded, is exactly `n` digits that denote it. */
  lemma PaddedNumeral(v: nat, n: nat)
    requires n >= 1 && v < Pow(10, n)
    ensures |PadStart(Decimal(v), n)| == n && IsNumeral(PadStart(Decimal(v), n))
    ensures NumeralValue(PadStart(Decimal(v), n)) == v
  {
    DecimalLength(v, n);
    ZerosBeforeNumeral(n - |Decimal(v)|, Decimal(v));
  }

  /** The value the code denotes, in the terms of RFC 4226. */
  function CodeValue(digest: Digest): nat {
    var offset := digest[19] % 16;
    Value(digest[offset..offset + 4], 256) % 0x8000_0000 % 1_000_000
  }

  /** The 64-bit big-endian counter; outside that range writing the buffer raises an error. */
  function CounterBytes(counter: int): Option<seq<nat>> {
    if 0 <= counter < Pow(2, 64) then Some(ToDigits(counter, 8, 256)) else None
  }

  const TWO_TO_64: int := 0x1_0000_0000_0000_0000

  /** The number as eight bytes, the most significant first. */
  predicate EightBytes(bytes: seq<nat>, counter: int) {
    |bytes| == 8 && AreDigits(bytes, 256) && Value(bytes, 256) == counter
  }

  lemma PowerOf64()
    ensures Pow(2, 64) == TWO_TO_64
  {
    SmallPowers();
    PowAdd(2, 8, 8);
    PowAdd(2, 16, 16);
    PowAdd(2, 32, 32);
  }

  /** There are such bytes for the numbers of 64 bits, one string of them for each, and for no others. */
  lemma CounterBytesExactly(counter: int)
    ensures CounterBytes(counter).Some? <==> 0 <= counter < TWO_TO_64
    ensures forall bytes :: EightBytes(bytes, counter) <==> CounterBytes(counter) == Some(bytes)
  {
    PowerOf64();
    BytesAreBits(8);
    if 0 <= counter < TWO_TO_64 { ValueOfToDigits(counter, 8, 256); }
    forall bytes | EightBytes(bytes, counter)
      ensures CounterBytes(counter) == Some(bytes)
    {
      ValueBound(bytes, 256);
      ToDigitsOfValue(bytes, 256);
    }
  }

  /** Six digits for the code over the eight bytes of the counter; a counter outside that range fails. */
  method HotpCode(hmac: Hmac, secret: seq<nat>, counter: int) returns (r: Result<string, ()>)
    ensures r.Ok? <==> 0 <= counter < TWO_TO_64
    ensures r.Ok? ==> |r.value| == 6 && IsNumeral(r.value)
    ensures r.Ok? ==> exists bytes :: EightBytes(bytes, counter) && NumeralValue(r.value) == CodeValue(hmac(secret, bytes))
  {
    CounterBytesExactly(counter);
    var counterBytes := CounterBytes(counter);
    if counterBytes == None {
      return Err(());
    }
    var digest := hmac(secret, counterBytes.value);
    assert EightBytes(counterBytes.value, counter);
    TruncationIsWordMod31(digest);
    var offset := TruncationOffset(digest);
    var binary := TruncatedWord(digest, offset);
    assert Pow(10, DIGITS) == 1_000_000 by { TenToTheSixth(); }
    PaddedNumeral(binary % 1_000_000, DIGITS);
    return Ok(PadStart(Decimal(binary % 1_000_000), DIGITS));
  }

  lemma TenToTheSixth()
    ensures Pow(10, 6) == 1_000_000
  {
    assert Pow(10, 3) == 1000;
  }

  /** The number of whole periods since the epoch, rounded down also before it. */
  function TimeStep(atMilliseconds: int): int {
    atMilliseconds / (1000 * PERIOD_SECONDS)
  }

  datatype TotpError = BadSymbol(c: char) | CounterOutOfRange

  /** The code of the thirty seconds that the time lies in; it fails for a bad secret, then for the time. */
  method TotpCodeAt(hmac: Hmac, secretBase32: string, atMilliseconds: int)
    returns (r: Result<string, TotpError>)
    ensures r.Ok? <==> AllSymbols(Normalise(secretBase32)) && 0 <= atMilliseconds < TWO_TO_64 * 30_000
    ensures r.Ok? ==> |r.value| == 6 && IsNumeral(r.value)
    ensures r.Ok? ==> exists step: nat, bytes ::
              && step * 30_000 <= atMilliseconds < (step + 1) * 30_000 && EightBytes(bytes, step)
              && NumeralValue(r.value) == CodeValue(hmac(BytesOfSymbols(Normalise(secretBase32)), bytes))
    ensures r == Err(CounterOutOfRange) ==> AllSymbols(Normalise(secretBase32))
    ensures r.Err? && r.error.BadSymbol? ==> exists k :: FirstBadSymbol(Normalise(secretBase32), k, r.error.c)
  {
    var secret := DecodeBase32(secretBase32);
    if secret.Err? {
      return Err(BadSymbol(secret.error));
    }
    SameStep(TimeStep(atMilliseconds), atMilliseconds);
    var code := HotpCode(hmac, secret.value, TimeStep(atMilliseconds));
    if code.Err? {
      return Err(CounterOutOfRange);
    }
    return Ok(code.value);
  }

  function TotpValue(hmac: Hmac, secret: seq<nat>, atMilliseconds: int): nat
    requires CounterBytes(TimeStep(atMilliseconds)).Some?
  {
    CodeValue(hmac(secret, CounterBytes(TimeStep(atMilliseconds)).value))
  }

  /** Codes change only at multiples of thirty seconds, and no two steps share a counter. */
  lemma ConstantWithinStep(hmac: Hmac, secret: seq<nat>, step: nat, at: int, at': int)
    requires step < Pow(2, 64)
    requires step * 30_000 <= at < (step + 1) * 30_000
    ensures CounterBytes(TimeStep(at)).Some? && CounterBytes(TimeStep(at')).Some? ==>
              (CounterBytes(TimeStep(at')) == CounterBytes(TimeStep(at))
               <==> step * 30_000 <= at' < (step + 1) * 30_000)
    ensures step * 30_000 <= at' < (step + 1) * 30_000 ==>
              CounterBytes(TimeStep(at)).Some? && CounterBytes(TimeStep(at')).Some?
              && TotpValue(hmac, secret, at') == TotpValue(hmac, secret, at)
  {
    SameStep(step, at);
    SameStep(step, at');
    if CounterBytes(TimeStep(at')).Some? && CounterBytes(TimeStep(at')) == CounterBytes(step) {
      CounterBytesInjective(TimeStep(at), TimeStep(at'));
    }
  }

  lemma SameStep(step: int, at: int)
    ensures step * 30_000 <= at < (step + 1) * 30_000 <==> TimeStep(at) == step
  {
  }

  lemma CounterBytesInjective(c: nat, c': nat)
    requires c < Pow(2, 64) && c' < Pow(2, 64) && CounterBytes(c) == CounterBytes(c')
    ensures c == c'
  {
    CounterBytesExactly(c);
    CounterBytesExactly(c');
    assert EightBytes(CounterBytes(c).value, c) && EightBytes(CounterBytes(c').value, c');
  }
}
