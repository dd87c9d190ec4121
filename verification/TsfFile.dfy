/** The value path of a debugfs TSF file (debugfs.rs): decimal out, hex in. */
module TsfFile {
  import opened Machine
  import opened HexParse

  // ---------------------------------------------------------------- what decimal text means

  predicate IsDigit(b: byte) {
    48 <= b <= 57
  }

  ghost predicate AllDigits(s: seq<byte>) {
    forall i | 0 <= i < |s| :: IsDigit(s[i])
  }

  function DecimalValue(s: seq<byte>): nat
    requires AllDigits(s)
  {
    if s == [] then 0 else 10 * DecimalValue(s[..|s| - 1]) + (s[|s| - 1] - 48)
  }

  /** One way to write each number: digits, and no leading zero except for zero itself. */
  ghost predicate Canonical(s: seq<byte>) {
    AllDigits(s) && |s| > 0 && (|s| > 1 ==> s[0] != 48)
  }

  /** Canonical decimal text is determined by its value. */
  lemma {:induction false} CanonicalUnique(s: seq<byte>, t: seq<byte>)
    requires Canonical(s) && Canonical(t) && DecimalValue(s) == DecimalValue(t)
    ensures s == t
    decreases |s|
  {
    var a, b := s[..|s| - 1], t[..|t| - 1];
    assert DecimalValue(a) == DecimalValue(b) && s[|s| - 1] == t[|t| - 1];
    if a == [] {
      LeadingDigit(t);
    } else if b == [] {
      LeadingDigit(s);
    } else {
      CanonicalUnique(a, b);
    }
    assert s == a + [s[|s| - 1]] && t == b + [t[|t| - 1]];
  }

  lemma {:induction false} NonZero(s: seq<byte>)
    requires AllDigits(s) && |s| > 0 && s[0] != 48
    ensures DecimalValue(s) > 0
  {
    if |s| > 1 {
      NonZero(s[..|s| - 1]);
    }
  }

  /** Canonical text of more than one digit is worth more without its last digit than nothing. */
  lemma LeadingDigit(s: seq<byte>)
    requires Canonical(s)
    ensures |s| > 1 ==> DecimalValue(s[..|s| - 1]) > 0
  {
    if |s| > 1 {
      NonZero(s[..|s| - 1]);
    }
  }

  // ---------------------------------------------------------------- the digits, least first

  /** The digits of a positive number, least significant first; nothing for zero. */
  function DigitsUp(v: nat): (s: seq<byte>) {
    if v == 0 then [] else [48 + v % 10] + DigitsUp(v / 10)
  }

  function Reverse(s: seq<byte>): (r: seq<byte>)
    ensures |r| == |s|
    ensures forall i | 0 <= i < |s| :: r[i] == s[|s| - 1 - i]
  {
    seq(|s|, i requires 0 <= i < |s| => s[|s| - 1 - i])
  }

  function Pow10(n: nat): nat {
    if n == 0 then 1 else 10 * Pow10(n - 1)
  }

  lemma {:induction false} DigitCount(v: nat, n: nat)
    requires v < Pow10(n)
    ensures |DigitsUp(v)| <= n
  {
    if v > 0 {
      DigitCount(v / 10, n - 1);
    }
  }

  lemma TwentyDigits(v: u64)
    ensures |DigitsUp(v)| <= 20
  {
    assert Pow10(5) == 100_000;
    assert Pow10(10) == 10_000_000_000;
    assert Pow10(15) == 1_000_000_000_000_000;
    assert Pow10(20) == 100_000_000_000_000_000_000;
    DigitCount(v, 20);
  }

  lemma ReverseStep(b: byte, s: seq<byte>)
    ensures Reverse([b] + s) == Reverse(s) + [b]
  {
  }

  lemma {:induction false} DigitsDecodeUp(v: nat)
    ensures AllDigits(Reverse(DigitsUp(v))) && DecimalValue(Reverse(DigitsUp(v))) == v
    ensures v > 0 ==> Canonical(Reverse(DigitsUp(v)))
  {
    if v > 0 {
      DigitsDecodeUp(v / 10);
      var s := DigitsUp(v / 10);
      ReverseStep(48 + v % 10, s);
      var r := Reverse(DigitsUp(v));
      assert r[..|r| - 1] == Reverse(s);
      if v < 10 {
        assert s == [];
      } else {
        assert r[0] == Reverse(s)[0];
      }
    }
  }

  lemma ZeroText()
    ensures Canonical([48]) && DecimalValue([48]) == 0
    ensures DigitsUp(0) == []
  {
    assert DecimalValue([48][..0]) == 0;
  }

  // ---------------------------------------------------------------- formatting in place

  /** `buf[..n].reverse()`. */
  method ReverseFront(buf: array<byte>, n: nat)
    requires n <= buf.Length
    modifies buf
    ensures buf[..n] == Reverse(old(buf[..n])) && buf[n..] == old(buf[n..])
  {
    var i := 0;
    while i < n / 2
      invariant 0 <= i <= n / 2
      invariant forall k | 0 <= k < i :: buf[k] == old(buf[n - 1 - k]) && buf[n - 1 - k] == old(buf[k])
      invariant forall k | i <= k < n - i :: buf[k] == old(buf[k])
      invariant buf[n..] == old(buf[n..])
    {
      buf[i], buf[n - 1 - i] := buf[n - 1 - i], buf[i];
      i := i + 1;
    }
  }

  /** Writes `val` and a newline at the front of a 21-byte buffer: the digits in reverse, then
      reversed. */
  method FormatU64Decimal(val: u64, buf: array<byte>) returns (len: nat)
    requires buf.Length == 21
    modifies buf
    ensures 2 <= len <= 21 && buf[len - 1] == 10
    ensures Canonical(buf[..len - 1]) && DecimalValue(buf[..len - 1]) == val
    ensures buf[len..] == old(buf[len..])
  {
    hide DigitsUp, Reverse, DecimalValue;
    if val == 0 {
      ZeroText();
      buf[0] := 48;
      buf[1] := 10;
      assert buf[..1] == [48];
      return 2;
    }
    var pos := DigitsInReverse(val, buf);
    ReverseFront(buf, pos);
    ghost var text, tail := buf[..pos], buf[pos..];
    DigitsDecodeUp(val);
    buf[pos] := 10;
    assert buf[..pos] == text;
    assert buf[pos + 1..] == tail[1..];
    len := pos + 1;
  }

  lemma NextDigit(v: nat)
    requires v > 0
    ensures DigitsUp(v) == [48 + v % 10] + DigitsUp(v / 10)
  {
  }

  lemma NoDigits()
    ensures DigitsUp(0) == []
  {
  }

  method DigitsInReverse(val: u64, buf: array<byte>) returns (pos: nat)
    requires val > 0 && buf.Length == 21
    modifies buf
    ensures 1 <= pos <= 20 && buf[..pos] == DigitsUp(val) && buf[pos..] == old(buf[pos..])
  {
    hide DigitsUp;
    var rest: nat := val;
    pos := 0;
    TwentyDigits(val);
    NoDigits();
    while rest > 0
      invariant 0 <= pos <= 20 && DigitsUp(val) == buf[..pos] + DigitsUp(rest)
      invariant buf[pos..] == old(buf[pos..]) && (rest == val || pos > 0)
    {
      ghost var before, more := buf[..pos], DigitsUp(rest / 10);
      NextDigit(rest);
      assert |DigitsUp(val)| == pos + 1 + |more|;
      buf[pos] := 48 + rest % 10;
      assert buf[..pos + 1] == before + [buf[pos]];
      assert before + ([buf[pos]] + more) == before + [buf[pos]] + more;
      rest := rest / 10;
      pos := pos + 1;
    }
    assert buf[..pos] + [] == buf[..pos];
  }

  // ---------------------------------------------------------------- the file

  /** What the file operations return: a value, the operating system's error, or the complaint
      about a text without hex digits. */
  datatype Outcome<+T> = Ok(value: T) | OsError(errno: nat) | InvalidData

  /** What a reading of `text` amounts to. */
  function Reading(text: seq<byte>, ssse3: bool): Outcome<u64> {
    match AutoResult(text, ssse3)
    case None => InvalidData
    case Some(v) => Ok(v)
  }

  /** The complaint is made exactly of texts with no digit where the digits should start. */
  lemma InvalidExactly(text: seq<byte>, ssse3: bool)
    ensures Reading(text, ssse3).InvalidData? <==> RunEnd(text, DigitsStart(text)) == DigitsStart(text)
  {
    hide RunEnd, DigitsStart, HexValue, ParseHex16Ssse3;
    if Fast(text, ssse3) {
      FastRun(text);
    }
  }

  /** The card behind the file: it stores the decimal number written and shows it in hex. Whether
      the system call fails, and with what error, is an input. */
  class DebugfsTsf {
    var tsf: u64

    constructor (start: u64)
      ensures tsf == start
    {
      tsf := start;
    }

    /** A failed write stores nothing; another stores the digits before the newline, as a number. */
    method WriteRaw(text: seq<byte>, fault: Option<nat>) returns (r: Outcome<()>)
      requires |text| > 0 && AllDigits(text[..|text| - 1]) && DecimalValue(text[..|text| - 1]) < TWO64
      modifies this
      ensures r == (match fault case None => Ok(()) case Some(e) => OsError(e))
      ensures tsf == if fault.None? then DecimalValue(text[..|text| - 1]) else old(tsf)
    {
      if fault.Some? {
        return OsError(fault.value);
      }
      tsf := DecimalValue(text[..|text| - 1]);
      r := Ok(());
    }

    method ReadRaw(fault: Option<nat>) returns (r: Outcome<seq<byte>>)
      ensures r == match fault case None => Ok(Render(tsf)) case Some(e) => OsError(e)
    {
      r := if fault.Some? then OsError(fault.value) else Ok(Render(tsf));
    }

    method WriteTsf(val: u64, fault: Option<nat>) returns (r: Outcome<()>)
      modifies this
      ensures r == (match fault case None => Ok(()) case Some(e) => OsError(e))
      ensures tsf == if fault.None? then val else old(tsf)
    {
      var buf := new byte[21];
      var len := FormatU64Decimal(val, buf);
      assert buf[..len][..len - 1] == buf[..len - 1];
      r := WriteRaw(buf[..len], fault);
    }

    method ReadTsf(ssse3: bool, fault: Option<nat>) returns (r: Outcome<u64>)
      ensures r == match fault case None => Ok(tsf) case Some(e) => OsError(e)
    {
      var raw := ReadRaw(fault);
      if raw.OsError? {
        return OsError(raw.errno);
      }
      RenderParses(tsf, ssse3);
      var parsed := ParseHexAuto(raw.value, ssse3);
      r := if parsed.None? then InvalidData else Ok(parsed.value);
    }
  }
}
