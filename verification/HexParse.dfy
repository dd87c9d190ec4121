/** The hex parser of the debugfs tool (asm/hex.rs): the SSSE3 pipeline, lane by lane, against
    the scalar loop. */
module HexParse {
  import opened Machine

  // ---------------------------------------------------------------- what hex text means

  predicate IsHex(b: byte) {
    48 <= b <= 57 || 97 <= b <= 102 || 65 <= b <= 70
  }

  predicate IsSpace(b: byte) {
    b == 32 || b == 9 || b == 10 || b == 12 || b == 13
  }

  function Nibble(b: byte): (n: nat)
    requires IsHex(b)
    ensures n < 16
  {
    if b <= 57 then b - 48 else if b >= 97 then b - 97 + 10 else b - 65 + 10
  }

  predicate AllHex(s: seq<byte>) {
    forall i | 0 <= i < |s| :: IsHex(s[i])
  }

  /** The number a string of hex digits stands for, of any length. */
  function HexValue(s: seq<byte>): nat
    requires AllHex(s)
  {
    if s == [] then 0 else 16 * HexValue(s[..|s| - 1]) + Nibble(s[|s| - 1])
  }

  // ---------------------------------------------------------------- the scalar parser

  /** The first position from `i` on that is not white space. */
  function SkipSpaces(buf: seq<byte>, i: nat): (e: nat)
    requires i <= |buf|
    ensures i <= e <= |buf| && (e < |buf| ==> !IsSpace(buf[e]))
    ensures forall k | i <= k < e :: IsSpace(buf[k])
    decreases |buf| - i
  {
    if i < |buf| && IsSpace(buf[i]) then SkipSpaces(buf, i + 1) else i
  }

  predicate PrefixAt(buf: seq<byte>, i: nat) {
    i + 1 < |buf| && buf[i] == 48 && (buf[i + 1] == 120 || buf[i + 1] == 88)
  }

  /** Where the digits start: after white space and an optional prefix. */
  function DigitsStart(buf: seq<byte>): (s: nat)
    ensures s <= |buf|
  {
    var i := SkipSpaces(buf, 0);
    if PrefixAt(buf, i) then i + 2 else i
  }

  /** The end of the longest run of hex digits from `i` on. */
  function RunEnd(buf: seq<byte>, i: nat): (e: nat)
    requires i <= |buf|
    ensures i <= e <= |buf| && AllHex(buf[i..e]) && (e < |buf| ==> !IsHex(buf[e]))
    decreases |buf| - i
  {
    if i < |buf| && IsHex(buf[i]) then
      var e := RunEnd(buf, i + 1);
      assert buf[i..e] == [buf[i]] + buf[i + 1..e];
      e
    else i
  }

  /** What the scalar parser returns: the low 64 bits of the longest run, or nothing. */
  function ScalarResult(buf: seq<byte>): Option<u64> {
    var s := DigitsStart(buf);
    var e := RunEnd(buf, s);
    if e == s then None else Some(WrapU(HexValue(buf[s..e])))
  }

  method ParseHexScalar(buf: seq<byte>) returns (r: Option<u64>)
    ensures r == ScalarResult(buf)
  {
    hide HexValue, AllHex, IsSpace, IsHex;
    var i := 0;
    while i < |buf| && IsSpace(buf[i])
      invariant 0 <= i <= |buf|
      invariant SkipSpaces(buf, i) == SkipSpaces(buf, 0)
    {
      i := i + 1;
    }
    if PrefixAt(buf, i) {
      i := i + 2;
    }
    ghost var start := i;
    assert start == DigitsStart(buf);
    var val: u64, digits := 0, 0;
    OneMore(buf, start, start);
    while i < |buf| && IsHex(buf[i])
      invariant start <= i <= |buf| && digits == i - start
      invariant RunEnd(buf, i) == RunEnd(buf, start)
      invariant AllHex(buf[start..i]) && val == WrapU(HexValue(buf[start..i]))
    {
      // a shift by four always passes its check: the high digit just falls off
      OneMore(buf, start, i);
      ShiftIn(HexValue(buf[start..i]), Nibble(buf[i]));
      val := WrapU(16 * val as int) + Nibble(buf[i]);
      digits := digits + 1;
      i := i + 1;
    }
    r := if digits == 0 then None else Some(val);
  }

  /** One more digit: the value so far moves up four bits. */
  lemma OneMore(buf: seq<byte>, start: nat, i: nat)
    requires start <= i <= |buf|
    ensures AllHex(buf[start..start]) && HexValue(buf[start..start]) == 0
    ensures i < |buf| && IsHex(buf[i]) && AllHex(buf[start..i]) ==>
              && AllHex(buf[start..i + 1])
              && HexValue(buf[start..i + 1]) == 16 * HexValue(buf[start..i]) + Nibble(buf[i])
  {
    if i < |buf| {
      assert buf[start..i + 1][..i - start] == buf[start..i];
    }
  }

  lemma ShiftIn(v: nat, n: nat)
    requires n < 16
    ensures WrapU(16 * WrapU(v) as int) + n == WrapU(16 * v + n)
    ensures WrapU(16 * WrapU(v) as int) + n < TWO64
  {
    hide WrapU;
    var q, _ := WrapQuotients(v);
    var w: int := WrapU(v);
    var hi, lo := w / 0x1000_0000_0000_0000, w % 0x1000_0000_0000_0000;
    WrapCongruent(16 * w, 16 * lo, hi);
    WrapCongruent(16 * v + n, 16 * lo + n, hi + 16 * q);
  }

  // ---------------------------------------------------------------- the SSSE3 pipeline

  type Lanes8 = v: seq<byte> | |v| == 16 witness seq(16, i => 0)

  function Signed8(b: byte): int {
    if b < 128 then b else b - 256
  }

  /** Signed saturation to 16 bits. */
  function Sat16(x: int): int {
    if x > 32767 then 32767 else if x < -32768 then -32768 else x
  }

  /** Two's complement in 32 bits, as a non-negative pattern. */
  function Pattern32(x: int): u32 {
    x % 0x1_0000_0000
  }

  /** `_mm_and_si128` with 0x0F in every lane. */
  function AndLowNibble(v: Lanes8): Lanes8 {
    seq(16, i requires 0 <= i < 16 => v[i] % 16)
  }

  /** `_mm_cmpgt_epi8`: signed comparison, all ones or all zeros. */
  function CmpGt8(v: Lanes8, c: int): Lanes8 {
    seq(16, i requires 0 <= i < 16 => if Signed8(v[i]) > c then 255 else 0)
  }

  /** `_mm_and_si128` of a comparison mask with nine in every lane. */
  function AndNine(mask: Lanes8): Lanes8 {
    seq(16, i requires 0 <= i < 16 => if mask[i] == 255 then 9 else 0)
  }

  /** `_mm_add_epi8`: lane-wise, wrapping. */
  function Add8(a: Lanes8, b: Lanes8): Lanes8 {
    seq(16, i requires 0 <= i < 16 => (a[i] as int + b[i] as int) % 256)
  }

  /** `_mm_maddubs_epi16`: unsigned bytes by signed multipliers, neighbours added, saturating. */
  function Maddubs(a: Lanes8, b: seq<int>): (w: seq<int>)
    requires |b| == 16
    ensures |w| == 8
  {
    seq(8, i requires 0 <= i < 8 => Sat16(a[2 * i] as int * b[2 * i] + a[2 * i + 1] as int * b[2 * i + 1]))
  }

  /** `_mm_madd_epi16`: signed 16-bit lanes by multipliers, neighbours added into 32 bits. */
  function Madd16(a: seq<int>, b: seq<int>): (w: seq<u32>)
    requires |a| == |b| == 8
    ensures |w| == 4
  {
    seq(4, i requires 0 <= i < 4 => Pattern32(a[2 * i] * b[2 * i] + a[2 * i + 1] * b[2 * i + 1]))
  }

  /** The register's bytes, little end first. */
  function Bytes32(w: seq<u32>): Lanes8
    requires |w| == 4
  {
    seq(16, i requires 0 <= i < 16 => ByteOf(w[i / 4], i % 4))
  }

  function ByteOf(x: u32, k: nat): byte
    requires k < 4
  {
    (if k == 0 then x else if k == 1 then x / 256 else if k == 2 then x / 65536 else x / 16777216) % 256
  }

  /** `_mm_shuffle_epi8`: a negative index clears its lane. */
  function Shuffle8(v: Lanes8, idx: seq<int>): Lanes8
    requires |idx| == 16
  {
    seq(16, i requires 0 <= i < 16 => if idx[i] < 0 then 0 else v[idx[i] % 16])
  }

  /** `_mm_cvtsi128_si64`: the low eight bytes. */
  function Low64(v: Lanes8): u64 {
    LittleEndian(v[0], v[1], v[2], v[3]) + 0x1_0000_0000 * LittleEndian(v[4], v[5], v[6], v[7])
  }

  function LittleEndian(a: int, b: int, c: int, d: int): int {
    a + 0x100 * b + 0x1_0000 * c + 0x100_0000 * d
  }

  // lane 0 first; `_mm_set_*` lists them the other way round
  function Mul16And1(): (m: seq<int>)
    ensures |m| == 16
  {
    seq(16, i => if i % 2 == 0 then 16 else 1)
  }

  function Mul256And1(): (m: seq<int>)
    ensures |m| == 8
  {
    seq(8, i => if i % 2 == 0 then 256 else 1)
  }

  const SHUFFLE: seq<int> := [12, 13, 8, 9, 4, 5, 0, 1, -1, -1, -1, -1, -1, -1, -1, -1]

  function Nibbles(input: Lanes8): Lanes8 {
    Add8(AndLowNibble(input), AndNine(CmpGt8(input, 0x39)))
  }

  function ParseHex16Ssse3(input: Lanes8): u64 {
    var bytes := Maddubs(Nibbles(input), Mul16And1());
    var words := Madd16(bytes, Mul256And1());
    Low64(Shuffle8(Bytes32(words), SHUFFLE))
  }

  // ---------------------------------------------------------------- the pipeline is right

  lemma NibbleRight(input: Lanes8, i: nat)
    requires i < 16 && IsHex(input[i])
    ensures Nibbles(input)[i] == Nibble(input[i])
  {
  }

  function Group(s: seq<byte>, j: nat): nat
    requires AllHex(s) && 4 * j + 4 <= |s|
  {
    4096 * Nibble(s[4 * j]) + 256 * Nibble(s[4 * j + 1]) + 16 * Nibble(s[4 * j + 2]) + Nibble(s[4 * j + 3])
  }

  lemma PairRight(v: Lanes8, i: nat)
    requires i < 8 && v[2 * i] < 16 && v[2 * i + 1] < 16
    ensures Maddubs(v, Mul16And1())[i] == 16 * v[2 * i] as int + v[2 * i + 1] as int
  {
    assert Mul16And1()[2 * i] == 16 && Mul16And1()[2 * i + 1] == 1;
  }

  lemma QuadRight(w: seq<int>, j: nat)
    requires |w| == 8 && j < 4 && 0 <= w[2 * j] < 256 && 0 <= w[2 * j + 1] < 256
    ensures Madd16(w, Mul256And1())[j] == 256 * w[2 * j] + w[2 * j + 1] < 65536
  {
    assert Mul256And1()[2 * j] == 256 && Mul256And1()[2 * j + 1] == 1;
  }

  lemma WordRight(input: Lanes8, j: nat)
    requires AllHex(input) && j < 4
    ensures Madd16(Maddubs(Nibbles(input), Mul16And1()), Mul256And1())[j] == Group(input, j) < 65536
  {
    hide Nibbles, Maddubs, Madd16, Mul16And1, Mul256And1, IsHex, Nibble;
    var k, v := 4 * j, Nibbles(input);
    NibbleRight(input, k);
    NibbleRight(input, k + 1);
    NibbleRight(input, k + 2);
    NibbleRight(input, k + 3);
    PairRight(v, 2 * j);
    PairRight(v, 2 * j + 1);
    QuadRight(Maddubs(v, Mul16And1()), j);
  }

  lemma ShuffledBytes(w: seq<u32>)
    requires |w| == 4
    ensures var p := Shuffle8(Bytes32(w), SHUFFLE);
            && p[0] == ByteOf(w[3], 0) && p[1] == ByteOf(w[3], 1)
            && p[2] == ByteOf(w[2], 0) && p[3] == ByteOf(w[2], 1)
            && p[4] == ByteOf(w[1], 0) && p[5] == ByteOf(w[1], 1)
            && p[6] == ByteOf(w[0], 0) && p[7] == ByteOf(w[0], 1)
  {
    hide ByteOf;
    var v, p := Bytes32(w), Shuffle8(Bytes32(w), SHUFFLE);
    assert p[0] == v[12] && p[1] == v[13] && p[2] == v[8] && p[3] == v[9];
    assert p[4] == v[4] && p[5] == v[5] && p[6] == v[0] && p[7] == v[1];
  }

  lemma HalfWord(x: u32)
    requires x < 65536
    ensures x as int == ByteOf(x, 0) as int + 0x100 * ByteOf(x, 1) as int
  {
  }

  lemma GatherRight(w: seq<u32>)
    requires |w| == 4 && forall j | 0 <= j < 4 :: w[j] < 65536
    ensures Low64(Shuffle8(Bytes32(w), SHUFFLE)) as int
         == w[3] as int + 0x1_0000 * w[2] as int + 0x1_0000_0000 * w[1] as int + 0x1_0000_0000_0000 * w[0] as int
  {
    hide Shuffle8, Bytes32, ByteOf, SHUFFLE;
    ShuffledBytes(w);
    HalfWord(w[0]);
    HalfWord(w[1]);
    HalfWord(w[2]);
    HalfWord(w[3]);
  }

  /** Four more digits: the value so far moves up sixteen bits. */
  lemma FourMore(s: seq<byte>, j: nat)
    requires AllHex(s) && 4 * j + 4 <= |s|
    ensures HexValue(s[..4 * j + 4]) == 0x1_0000 * HexValue(s[..4 * j]) + Group(s, j)
  {
    hide HexValue;
    var k := 4 * j;
    forall i | 0 <= i <= |s| ensures s[0..i] == s[..i] {
    }
    OneMore(s, 0, k);
    OneMore(s, 0, k + 1);
    OneMore(s, 0, k + 2);
    OneMore(s, 0, k + 3);
  }

  /** On any sixteen hex digits, of either case, the pipeline computes their value. */
  lemma Ssse3Right(input: Lanes8)
    requires AllHex(input)
    ensures ParseHex16Ssse3(input) == HexValue(input)
  {
    hide Nibbles, Maddubs, Madd16, Bytes32, Shuffle8, Low64, HexValue, Group, Mul16And1, Mul256And1, SHUFFLE;
    WordRight(input, 0);
    WordRight(input, 1);
    WordRight(input, 2);
    WordRight(input, 3);
    var words := Madd16(Maddubs(Nibbles(input), Mul16And1()), Mul256And1());
    GatherRight(words);
    FourMore(input, 0);
    FourMore(input, 1);
    FourMore(input, 2);
    FourMore(input, 3);
    EmptyValue();
    assert input[..0] == [] && input[..16] == input;
  }

  lemma EmptyValue()
    ensures HexValue([]) == 0
  {
  }

  // ---------------------------------------------------------------- the dispatcher

  /** The fast path is taken: prefix, sixteen digits, at least one byte more, and the CPU can. */
  predicate Fast(buf: seq<byte>, ssse3: bool) {
    |buf| >= 19 && PrefixAt(buf, 0) && ssse3 && AllHex(buf[2..18])
  }

  function AutoResult(buf: seq<byte>, ssse3: bool): Option<u64> {
    if Fast(buf, ssse3) then Some(ParseHex16Ssse3(buf[2..18])) else ScalarResult(buf)
  }

  method ParseHexAuto(buf: seq<byte>, ssse3: bool) returns (r: Option<u64>)
    ensures r == AutoResult(buf, ssse3)
  {
    if |buf| >= 19 && buf[0] == 48 && (buf[1] == 120 || buf[1] == 88) && ssse3 {
      var digits := buf[2..18];
      if forall i | 0 <= i < |digits| :: IsHex(digits[i]) {
        return Some(ParseHex16Ssse3(digits));
      }
    }
    r := ParseHexScalar(buf);
  }

  function Pow16(n: nat): nat {
    if n == 0 then 1 else 16 * Pow16(n - 1)
  }

  lemma {:induction false} ValueOfConcat(a: seq<byte>, b: seq<byte>)
    requires AllHex(a) && AllHex(b)
    ensures AllHex(a + b) && HexValue(a + b) == HexValue(a) * Pow16(|b|) + HexValue(b)
    ensures HexValue(b) < Pow16(|b|)
  {
    hide HexValue, Pow16;
    PowUnfolds(|b|);
    if b == [] {
      assert a + b == a;
      EmptyValue();
    } else {
      var n := |b| - 1;
      ValueOfConcat(a, b[..n]);
      assert (a + b)[0..|a| + n] == a + b[..n] && (a + b)[0..|a| + n + 1] == a + b;
      OneMore(a + b, 0, |a| + n);
      assert b[0..n] == b[..n] && b[0..n + 1] == b;
      OneMore(b, 0, n);
      ConcatArithmetic(HexValue(a), Pow16(n), HexValue(b[..n]), Nibble(b[n]));
    }
  }

  lemma PowUnfolds(n: nat)
    ensures Pow16(0) == 1 && (n > 0 ==> Pow16(n) == 16 * Pow16(n - 1))
  {
  }

  lemma ConcatArithmetic(a: nat, p: nat, b: nat, d: nat)
    requires b < p && d < 16
    ensures 16 * (a * p + b) + d == a * (16 * p) + (16 * b + d)
    ensures 16 * b + d < 16 * p
  {
  }

  lemma SixteenDigits()
    ensures Pow16(16) == TWO64
  {
    assert Pow16(4) == 65536;
    assert Pow16(8) == 0x1_0000_0000;
    assert Pow16(12) == 0x1_0000_0000_0000;
  }

  /** Where the two disagree: only on the fast path, and only if the digits run on past the
      sixteenth, for then the scalar loop keeps the last sixteen and the pipeline the first. */
  lemma AutoAgreesExactly(buf: seq<byte>, ssse3: bool)
    ensures AutoResult(buf, ssse3) == ScalarResult(buf)
       <==> Fast(buf, ssse3) ==>
              var e := RunEnd(buf, 2);
              18 <= e && AllHex(buf[e - 16..e]) && HexValue(buf[2..18]) == HexValue(buf[e - 16..e])
    ensures Fast(buf, ssse3) && !IsHex(buf[18]) ==> AutoResult(buf, ssse3) == ScalarResult(buf)
  {
    hide HexValue, ParseHex16Ssse3, ScalarResult, RunEnd;
    if Fast(buf, ssse3) {
      FastRun(buf);
      FastScalar(buf);
      Ssse3Right(buf[2..18]);
      assert !IsHex(buf[18]) ==> buf[RunEnd(buf, 2) - 16..RunEnd(buf, 2)] == buf[2..18];
    }
  }

  /** On a buffer fit for the fast path the scalar loop keeps the last sixteen digits. */
  lemma FastScalar(buf: seq<byte>)
    requires Fast(buf, true)
    ensures var e := RunEnd(buf, 2);
            18 <= e && AllHex(buf[e - 16..e]) && ScalarResult(buf) == Some(HexValue(buf[e - 16..e]))
  {
    hide HexValue, Pow16, RunEnd;
    var e := RunEnd(buf, 2);
    FastRun(buf);
    var a, b := buf[2..e - 16], buf[e - 16..e];
    assert buf[2..e] == a + b;
    HexParts(a, b);
    ValueOfConcat(a, b);
    SixteenDigits();
    WrapCongruent(HexValue(a + b), HexValue(b), HexValue(a));
  }

  lemma HexParts(a: seq<byte>, b: seq<byte>)
    requires AllHex(a + b)
    ensures AllHex(a) && AllHex(b)
  {
    forall i | 0 <= i < |a| ensures IsHex(a[i]) {
      assert a[i] == (a + b)[i];
    }
    forall i | 0 <= i < |b| ensures IsHex(b[i]) {
      assert b[i] == (a + b)[|a| + i];
    }
  }

  lemma {:induction false} RunCovers(buf: seq<byte>, i: nat, end: nat)
    requires i <= end <= |buf| && AllHex(buf[i..end])
    ensures RunEnd(buf, i) >= end
    decreases end - i
  {
    if i < end {
      assert buf[i..end][0] == buf[i] && buf[i..end][1..] == buf[i + 1..end];
      RunCovers(buf, i + 1, end);
    }
  }

  lemma FastRun(buf: seq<byte>)
    requires Fast(buf, true)
    ensures RunEnd(buf, 2) >= 18 && DigitsStart(buf) == 2
    ensures !IsHex(buf[18]) ==> RunEnd(buf, 2) == 18
  {
    RunCovers(buf, 2, 18);
  }

  /** One digit more than sixteen: the pipeline reads the first sixteen, the scalar loop all. */
  lemma LongRunDiffers()
    ensures var buf: seq<byte> := [48, 120] + seq(16, i => 48) + [49];
            AutoResult(buf, true) == Some(0) && ScalarResult(buf) == Some(1)
  {
    hide HexValue, ParseHex16Ssse3, RunEnd;
    var zeros: seq<byte> := seq(16, i => 48);
    var buf: seq<byte> := [48, 120] + zeros + [49];
    assert buf[2..18] == zeros && buf[2..19] == zeros + [49];
    Ssse3Right(zeros);
    Zeros(16);
    RunCovers(buf, 2, 19);
    OneMore(zeros + [49], 0, 16);
    assert (zeros + [49])[0..16] == zeros && (zeros + [49])[0..17] == zeros + [49];
    WrapCongruent(1, 1, 0);
  }

  lemma {:induction false} Zeros(n: nat)
    ensures HexValue(seq(n, i => 48)) == 0
  {
    if n > 0 {
      assert seq<byte>(n, i => 48)[..n - 1] == seq(n - 1, i => 48);
      Zeros(n - 1);
    }
  }

  // ---------------------------------------------------------------- what the scalar parser accepts

  /** The digits, by how they are written. */
  lemma DigitMeaning(b: byte, k: nat)
    requires k < 16
    ensures b == "0123456789abcdef"[k] as int || b == "0123456789ABCDEF"[k] as int <==> IsHex(b) && Nibble(b) == k
  {
    if k < 10 {
      assert "0123456789abcdef"[k] as int == 48 + k && "0123456789ABCDEF"[k] as int == 48 + k;
    } else {
      assert "0123456789abcdef"[k] as int == 87 + k && "0123456789ABCDEF"[k] as int == 55 + k;
    }
  }

  predicate Blank(s: seq<byte>) {
    forall i | 0 <= i < |s| :: s[i] == 9 || s[i] == 10 || s[i] == 12 || s[i] == 13 || s[i] == 32
  }

  /** Text in the shape the scalar parser looks for: white space, a prefix or none, digits, and
      something else. */
  predicate Shaped(spaces: seq<byte>, prefix: seq<byte>, digits: seq<byte>, rest: seq<byte>) {
    var tail := digits + rest;
    && Blank(spaces) && (prefix == [] || prefix == [48, 120] || prefix == [48, 88])
    && AllHex(digits) && (rest != [] ==> !IsHex(rest[0]))
    && (prefix == [] ==> tail == [] || !Blank([tail[0]]))
    && (prefix == [] && |tail| >= 2 && tail[0] == 48 ==> tail[1] != 120 && tail[1] != 88)
  }

  /** It reads the digits, and nothing if there are none. */
  lemma ScalarReads(spaces: seq<byte>, prefix: seq<byte>, digits: seq<byte>, rest: seq<byte>)
    requires Shaped(spaces, prefix, digits, rest)
    ensures ScalarResult(spaces + prefix + digits + rest)
         == if digits == [] then None else Some(WrapU(HexValue(digits)))
  {
    hide HexValue, RunEnd, DigitsStart, AllHex;
    var buf := spaces + prefix + digits + rest;
    var start := |spaces| + |prefix|;
    StartsAfter(spaces, prefix, digits, rest);
    assert buf[start..start + |digits|] == digits;
    RunEndsAt(buf, start, start + |digits|);
  }

  lemma StartsAfter(spaces: seq<byte>, prefix: seq<byte>, digits: seq<byte>, rest: seq<byte>)
    requires Shaped(spaces, prefix, digits, rest)
    ensures DigitsStart(spaces + prefix + digits + rest) == |spaces| + |prefix|
  {
    hide SkipSpaces, AllHex, IsHex, IsSpace;
    var n, tail := |spaces|, digits + rest;
    var buf := spaces + prefix + digits + rest;
    assert buf == spaces + (prefix + tail);
    assert buf[0..n] == spaces;
    assert n < |buf| ==> buf[n] == (prefix + tail)[0];
    assert n + 1 < |buf| ==> buf[n + 1] == (prefix + tail)[1];
    SpacesEnd(buf, 0, n);
  }

  lemma {:induction false} SpacesEnd(buf: seq<byte>, i: nat, end: nat)
    requires i <= end <= |buf| && Blank(buf[i..end]) && (end < |buf| ==> !Blank([buf[end]]))
    ensures SkipSpaces(buf, i) == end
    decreases end - i
  {
    if i < end {
      assert buf[i..end][0] == buf[i] && buf[i..end][1..] == buf[i + 1..end];
      SpacesEnd(buf, i + 1, end);
    } else if end < |buf| {
      assert [buf[end]][0] == buf[end];
    }
  }

  lemma {:induction false} RunEndsAt(buf: seq<byte>, i: nat, end: nat)
    requires i <= end <= |buf| && AllHex(buf[i..end]) && (end < |buf| ==> !IsHex(buf[end]))
    ensures RunEnd(buf, i) == end
    decreases end - i
  {
    if i < end {
      assert buf[i..end][0] == buf[i] && buf[i..end][1..] == buf[i + 1..end];
      RunEndsAt(buf, i + 1, end);
    }
  }

  // ---------------------------------------------------------------- the card's rendering

  function HexDigit(n: nat): (b: byte)
    requires n < 16
    ensures IsHex(b) && Nibble(b) == n
  {
    if n < 10 then 48 + n else 97 + (n - 10)
  }

  /** The low `n` hex digits of `v`, leading zeros included. */
  function HexDigits(v: nat, n: nat): (s: seq<byte>)
    ensures |s| == n && AllHex(s)
  {
    if n == 0 then [] else HexDigits(v / 16, n - 1) + [HexDigit(v % 16)]
  }

  /** `0x%016llx\n`. */
  function Render(v: u64): seq<byte> {
    [48, 120] + HexDigits(v, 16) + [10]
  }

  lemma {:induction false} LastDigit(v: nat, n: nat)
    ensures n == 0 ==> HexDigits(v, n) == []
    ensures n > 0 ==> HexValue(HexDigits(v, n)) == 16 * HexValue(HexDigits(v / 16, n - 1)) + v % 16
  {
    hide HexDigit;
    if n > 0 {
      assert HexDigits(v, n)[..n - 1] == HexDigits(v / 16, n - 1);
    }
  }

  lemma QuotientFits(v: nat, p: nat)
    requires v < 16 * p
    ensures v / 16 < p
  {
  }

  lemma {:induction false} DigitsDecode(v: nat, n: nat)
    requires v < Pow16(n)
    ensures HexValue(HexDigits(v, n)) == v
  {
    hide HexValue, HexDigits, HexDigit, Pow16;
    PowUnfolds(n);
    LastDigit(v, n);
    if n == 0 {
      EmptyValue();
    } else {
      QuotientFits(v, Pow16(n - 1));
      DigitsDecode(v / 16, n - 1);
    }
  }

  /** Every value a card can render is read back, by either path. */
  lemma RenderParses(v: u64, ssse3: bool)
    ensures AutoResult(Render(v), ssse3) == Some(v)
  {
    hide HexValue, ParseHex16Ssse3, Pow16, HexDigits;
    var buf := Render(v);
    assert buf[2..18] == HexDigits(v, 16);
    assert buf[18] == 10 && |buf| == 19 && PrefixAt(buf, 0);
    SixteenDigits();
    DigitsDecode(v, 16);
    FastRun(buf);
    Ssse3Right(buf[2..18]);
    WrapCongruent(v, v, 0);
  }
}
