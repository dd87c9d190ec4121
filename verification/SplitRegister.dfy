/** The 64-bit TSF behind two 32-bit registers (rtw88 and rtw89): a high-low-high read and a
    low-then-high write against a counter that goes on ticking between any two accesses. */
module SplitRegister {
  import opened Machine

  function High(c: u64): u32 {
    c / 0x1_0000_0000
  }

  function Low(c: u64): u32 {
    c % 0x1_0000_0000
  }

  function Combine(hi: u32, lo: u32): (c: u64)
    ensures High(c) == hi && Low(c) == lo
  {
    hi * 0x1_0000_0000 + lo
  }

  /** The counter `n` ticks after it showed `start`. */
  function CounterAfter(start: int, n: int): u64 {
    WrapU(start + n)
  }

  /** Ticks before each of the four register reads; the last is spent only if that read happens. */
  datatype Gaps = Gaps(a: nat, b: nat, c: nat, d: nat)

  /** Did the high word differ between the first access and the third? */
  predicate HighMoved(start: u64, g: Gaps) {
    High(CounterAfter(start, g.a)) != High(CounterAfter(start, g.a + g.b + g.c))
  }

  /** Ticks that pass during the read. */
  function ReadTicks(start: u64, g: Gaps): nat {
    g.a + g.b + g.c + if HighMoved(start, g) then g.d else 0
  }

  /** What the high-low-high sequence returns when it starts with the counter at `start`. */
  function ReadResult(start: u64, g: Gaps): u64 {
    Combine(High(CounterAfter(start, g.a + g.b + g.c)),
            Low(CounterAfter(start, if HighMoved(start, g) then g.a + g.b + g.c + g.d else g.a + g.b)))
  }

  /** The counter after a write: the high word goes over whatever the low word carried. */
  function WriteResult(tsf: u64, gap: nat): u64 {
    Combine(High(tsf), (Low(tsf) + gap) % 0x1_0000_0000)
  }

  function AdjustResult(start: u64, deltaNs: i64, g: Gaps, gap: nat): u64 {
    WriteResult(CounterAfter(ReadResult(start, g), TruncDiv(deltaNs, 1000)), gap)
  }

  // ---------------------------------------------------------------- the driver's routines

  class TsfRegisters {
    var counter: u64

    constructor (start: u64)
      ensures counter == start
    {
      counter := start;
    }

    /** The device's own doing: time passes. */
    method Tick(n: nat)
      modifies this
      ensures counter == CounterAfter(old(counter), n)
    {
      counter := WrapU(counter + n);
    }

    method ReadHigh() returns (v: u32)
      ensures v == High(counter)
    {
      v := High(counter);
    }

    method ReadLow() returns (v: u32)
      ensures v == Low(counter)
    {
      v := Low(counter);
    }

    method WriteLow(v: u32)
      modifies this
      ensures counter == Combine(High(old(counter)), v)
    {
      counter := Combine(High(counter), v);
    }

    method WriteHigh(v: u32)
      modifies this
      ensures counter == Combine(v, Low(old(counter)))
    {
      counter := Combine(v, Low(counter));
    }

    /** High, low, high again; and if the high word moved, the low word again. */
    method ReadTsf(g: Gaps) returns (tsf: u64)
      modifies this
      ensures tsf == ReadResult(old(counter), g)
      ensures counter == CounterAfter(old(counter), ReadTicks(old(counter), g))
    {
      hide CounterAfter, High, Low, Combine;
      ghost var start := counter;
      Tick(g.a);
      var hi := ReadHigh();
      Tick(g.b);
      TicksAdd(start, g.a, g.b);
      var lo := ReadLow();
      Tick(g.c);
      TicksAdd(start, g.a + g.b, g.c);
      var hi2 := ReadHigh();
      if hi != hi2 {
        Tick(g.d);
        TicksAdd(start, g.a + g.b + g.c, g.d);
        lo := ReadLow();
        hi := hi2;
      }
      tsf := Combine(hi, lo);
    }

    /** Low word first, `gap` ticks, then the high word. */
    method WriteTsf(tsf: u64, gap: nat)
      modifies this
      ensures counter == WriteResult(tsf, gap)
    {
      hide CounterAfter, High, Low, Combine;
      ghost var before := counter;
      WriteLow(Low(tsf));
      Tick(gap);
      WriteHigh(High(tsf));
      CarryIsLost(High(before), Low(tsf), gap);
    }

    /** `adjtime`: read, add the truncated microseconds, write. Ticks also pass between the
        read and the write. */
    method AdjTime(deltaNs: i64, g: Gaps, turnaround: nat, gap: nat)
      modifies this
      ensures counter == AdjustResult(old(counter), deltaNs, g, gap)
    {
      hide CounterAfter, High, Low, Combine, WriteResult, ReadResult;
      var deltaUsec := TruncDiv(deltaNs, 1000);
      var tsf := ReadTsf(g);
      Tick(turnaround);
      WriteTsf(CounterAfter(tsf, deltaUsec), gap);
    }
  }

  // ---------------------------------------------------------------- words of a running counter

  /** Ticks accumulate. */
  lemma TicksAdd(start: int, a: int, b: int)
    ensures CounterAfter(CounterAfter(start, a), b) == CounterAfter(start, a + b)
  {
    var i, _ := WrapQuotients(start + a);
    WrapCongruent(WrapU(start + a) + b, start + a + b, -i);
  }

  /** The words of a wrapped value, in terms of the value before wrapping. */
  lemma WordsOf(u: int)
    ensures High(WrapU(u)) == (u / 0x1_0000_0000) % 0x1_0000_0000
    ensures Low(WrapU(u)) == u % 0x1_0000_0000
  {
    var q, _ := WrapQuotients(u);
    var w := WrapU(u);
    assert u == w + (q * 0x1_0000_0000) * 0x1_0000_0000;
    SplitWord(w, q * 0x1_0000_0000);
    SplitWord(High(w), q);
  }

  lemma SplitWord(w: int, k: int)
    ensures (w + k * 0x1_0000_0000) % 0x1_0000_0000 == w % 0x1_0000_0000
    ensures (w + k * 0x1_0000_0000) / 0x1_0000_0000 == w / 0x1_0000_0000 + k
  {
  }

  /** The low word's ticks do not depend on the old high word. */
  lemma CarryIsLost(hi: u32, lo: u32, gap: nat)
    ensures Low(CounterAfter(Combine(hi, lo), gap)) == (lo + gap) % 0x1_0000_0000
  {
    hide WrapU, Low, High;
    WordsOf(Combine(hi, lo) + gap);
    SplitWord(lo + gap, hi);
  }

  // ---------------------------------------------------------------- linearizability of the read

  /** The counter showed `v` at some tick of the call. */
  ghost predicate HeldDuring(start: u64, ticks: nat, v: u64) {
    exists j: nat :: j <= ticks && CounterAfter(start, j) == v
  }

  /** The tick at which the counter showed the value returned, when the high word moved. */
  lemma MovedInstant(start: u64, g: Gaps) returns (j: nat)
    requires HighMoved(start, g)
    ensures j <= ReadTicks(start, g) && CounterAfter(start, j) == ReadResult(start, g)
  {
    var u1, u3, u4 := start + g.a, start + g.a + g.b + g.c, start + g.a + g.b + g.c + g.d;
    hide High, Low, Combine, WrapU;
    WordsOf(u1);
    WordsOf(u3);
    WordsOf(u4);
    LaterBlock(start, u1, u3, u4);
    j := (u3 / 0x1_0000_0000) * 0x1_0000_0000 + u4 % 0x1_0000_0000 - start;
    CombineWraps(u3 / 0x1_0000_0000, u4 % 0x1_0000_0000);
  }

  lemma LaterBlock(start: nat, u1: nat, u3: nat, u4: nat)
    requires start <= u1 <= u3 <= u4
    requires (u1 / 0x1_0000_0000) % 0x1_0000_0000 != (u3 / 0x1_0000_0000) % 0x1_0000_0000
    ensures start <= (u3 / 0x1_0000_0000) * 0x1_0000_0000 + u4 % 0x1_0000_0000 <= u4
  {
  }

  lemma CombineWraps(block: nat, lo: u32)
    ensures WrapU(block * 0x1_0000_0000 + lo) == Combine(block % 0x1_0000_0000, lo)
  {
    hide WrapU, High, Low;
    var q := block / 0x1_0000_0000;
    assert block == q * 0x1_0000_0000 + block % 0x1_0000_0000;
    WrapCongruent(block * 0x1_0000_0000 + lo, Combine(block % 0x1_0000_0000, lo), q);
  }

  /** When it did not move, and the counter has not gone almost all the way round between the
      two high reads, the value is the counter's at the low read. */
  lemma StillInstant(start: u64, g: Gaps)
    requires !HighMoved(start, g) && g.b + g.c <= TWO64 - TWO32
    ensures CounterAfter(start, g.a + g.b) == ReadResult(start, g)
  {
    var u1, u2, u3 := start + g.a, start + g.a + g.b, start + g.a + g.b + g.c;
    hide High, Low, Combine, WrapU;
    WordsOf(u1);
    WordsOf(u2);
    WordsOf(u3);
    SameBlock(u1, u2, u3);
    CombineWraps(u2 / 0x1_0000_0000, u2 % 0x1_0000_0000);
    assert u2 == u2 / 0x1_0000_0000 * 0x1_0000_0000 + u2 % 0x1_0000_0000;
  }

  /** Less than 2^64 - 2^32 ticks apart, equal high words mean one and the same block. */
  lemma SameBlock(u1: nat, u2: nat, u3: nat)
    requires u1 <= u2 <= u3 <= u1 + 0xffff_ffff_0000_0000
    requires (u1 / 0x1_0000_0000) % 0x1_0000_0000 == (u3 / 0x1_0000_0000) % 0x1_0000_0000
    ensures u1 / 0x1_0000_0000 == u2 / 0x1_0000_0000 == u3 / 0x1_0000_0000
  {
    SameResidue(u1 / 0x1_0000_0000, u3 / 0x1_0000_0000);
  }

  lemma SameResidue(a: nat, b: nat)
    requires a <= b <= a + 0xffff_ffff && a % 0x1_0000_0000 == b % 0x1_0000_0000
    ensures a == b
  {
    var q, r := a / 0x1_0000_0000, b / 0x1_0000_0000;
    assert b - a == (r - q) * 0x1_0000_0000;
  }

  lemma ReadIsLinearizable(start: u64, g: Gaps)
    requires g.b + g.c <= TWO64 - TWO32
    ensures HeldDuring(start, ReadTicks(start, g), ReadResult(start, g))
  {
    hide CounterAfter, ReadResult;
    if HighMoved(start, g) {
      var j := MovedInstant(start, g);
    } else {
      StillInstant(start, g);
    }
  }

  /** Which instant that is: the read of the low word, where the high word did not move. Where it did,
      the low word counts as it is read after that, and the value is the counter's at that read if
      and only if the low word does not wrap between the two. */
  lemma ReadInstant(start: u64, g: Gaps)
    requires g.b + g.c <= TWO64 - TWO32
    ensures var r, high := ReadResult(start, g), CounterAfter(start, g.a + g.b + g.c);
            var low := CounterAfter(start, g.a + g.b + g.c + g.d);
            if !HighMoved(start, g) then r == CounterAfter(start, g.a + g.b)
            else High(r) == High(high) && Low(r) == Low(low) && (r == low <==> High(high) == High(low))
  {
    hide CounterAfter, High, Low, Combine;
    if HighMoved(start, g) {
      WordsMakeValue(ReadResult(start, g), CounterAfter(start, g.a + g.b + g.c + g.d));
    } else {
      StillInstant(start, g);
    }
  }

  lemma WordsMakeValue(x: u64, y: u64)
    ensures x == y <==> High(x) == High(y) && Low(x) == Low(y)
  {
  }

  /** Every read with at most `n` ticks between its two high reads returns a value the counter
      held during the call. */
  ghost predicate Linearizable(n: nat) {
    forall start: u64, g: Gaps | g.b + g.c <= n :: HeldDuring(start, ReadTicks(start, g), ReadResult(start, g))
  }

  /** The exact range of the guarantee: it fails from 2^64 - 2^32 + 1 ticks on, where the high
      word can come back to itself with the low word read in between. */
  lemma LinearizableExactly(n: nat)
    ensures Linearizable(n) <==> n <= TWO64 - TWO32
  {
    if n <= TWO64 - TWO32 {
      forall start: u64, g: Gaps | g.b + g.c <= n
        ensures HeldDuring(start, ReadTicks(start, g), ReadResult(start, g))
      {
        ReadIsLinearizable(start, g);
      }
    } else {
      TornRead();
      assert TORN.b + TORN.c <= n;
    }
  }

  /** From 2^32 - 1: the low word is read at 2^32 + 5, the high words before and after a whole
      turn of the counter. */
  const TORN := Gaps(0, 6, 0xffff_fffe_ffff_fffb, 0)

  lemma TornRead()
    ensures !HeldDuring(0xffff_ffff, ReadTicks(0xffff_ffff, TORN), ReadResult(0xffff_ffff, TORN))
  {
    hide CounterAfter, ReadTicks, ReadResult;
    TornResult();
    forall j: nat | j <= 0xffff_ffff_0000_0001
      ensures CounterAfter(0xffff_ffff, j) != 5
    {
      NotFive(j);
    }
  }

  lemma TornResult()
    ensures ReadTicks(0xffff_ffff, TORN) == 0xffff_ffff_0000_0001 && ReadResult(0xffff_ffff, TORN) == 5
  {
    hide CounterAfter, High, Low, Combine;
    TornInstants();
    TornWords();
  }

  lemma TornWords()
    ensures High(0xffff_ffff) == High(0) == 0 && Low(0x1_0000_0005) == 5
    ensures Combine(High(0), Low(0x1_0000_0005)) == 5
  {
    hide Combine;
    assert 0xffff_ffff / 0x1_0000_0000 == 0 / 0x1_0000_0000 == 0;
    assert 0x1_0000_0005 % 0x1_0000_0000 == 5;
    SmallWord(5);
  }

  lemma SmallWord(lo: u32)
    ensures Combine(0, lo) == lo
  {
  }

  lemma TornInstants()
    ensures CounterAfter(0xffff_ffff, 0) == 0xffff_ffff
    ensures CounterAfter(0xffff_ffff, 6) == 0x1_0000_0005
    ensures CounterAfter(0xffff_ffff, 0xffff_ffff_0000_0001) == 0
  {
  }

  lemma NotFive(j: nat)
    requires j <= 0xffff_ffff_0000_0001
    ensures CounterAfter(0xffff_ffff, j) != 5
  {
  }

  /** Two reads, one after the other: each shows a tick of its own call, so the second shows one
      after the first call's last. */
  lemma ReadsAdvance(start: u64, g: Gaps, pause: nat, h: Gaps)
    requires g.b + g.c <= TWO64 - TWO32 && h.b + h.c <= TWO64 - TWO32
    ensures var later := ReadTicks(start, g) + pause;
            var again := CounterAfter(start, later);
            exists i: nat, j: nat :: i <= ReadTicks(start, g) && later <= j <= later + ReadTicks(again, h)
              && CounterAfter(start, i) == ReadResult(start, g)
              && CounterAfter(start, j) == ReadResult(again, h)
  {
    hide CounterAfter, ReadResult, ReadTicks;
    var later := ReadTicks(start, g) + pause;
    var again := CounterAfter(start, later);
    ReadIsLinearizable(start, g);
    ReadIsLinearizable(again, h);
    var i: nat :| i <= ReadTicks(start, g) && CounterAfter(start, i) == ReadResult(start, g);
    var k: nat :| k <= ReadTicks(again, h) && CounterAfter(again, k) == ReadResult(again, h);
    TicksAdd(start, later, k);
    assert later <= later + k;
  }

  // ---------------------------------------------------------------- the write

  /** Carries out of the low word while the write is half done. */
  function LostCarry(tsf: u64, gap: nat): nat {
    (Low(tsf) + gap) / 0x1_0000_0000
  }

  /** A write loses exactly the carries, and so is exact just when there are none (for a gap
      short of 2^32 ticks: when the low word does not overflow). */
  lemma WriteExactly(tsf: u64, gap: nat)
    ensures WriteResult(tsf, gap) == CounterAfter(tsf, gap - LostCarry(tsf, gap) * 0x1_0000_0000)
    ensures WriteResult(tsf, gap) == CounterAfter(tsf, gap) <==> LostCarry(tsf, gap) % 0x1_0000_0000 == 0
    ensures gap < TWO32 ==>
              (WriteResult(tsf, gap) == CounterAfter(tsf, gap) <==> Low(tsf) + gap < TWO32)
  {
    hide WriteResult, CounterAfter, High, Low;
    LosesCarries(tsf, gap);
    WordsAfterWrite(tsf, gap);
    CarryMatters(High(tsf), LostCarry(tsf, gap));
    SameWords(WriteResult(tsf, gap), CounterAfter(tsf, gap));
    NoCarry(Low(tsf), gap);
  }

  lemma LosesCarries(tsf: u64, gap: nat)
    ensures WriteResult(tsf, gap) == CounterAfter(tsf, gap - LostCarry(tsf, gap) * 0x1_0000_0000)
  {
    hide WrapU;
    var sum, v := Low(tsf) + gap, WriteResult(tsf, gap);
    assert sum == sum / 0x1_0000_0000 * 0x1_0000_0000 + sum % 0x1_0000_0000;
    assert v == tsf + gap - LostCarry(tsf, gap) * 0x1_0000_0000;
    WrapCongruent(v, v, 0);
  }

  lemma WordsAfterWrite(tsf: u64, gap: nat)
    ensures High(WriteResult(tsf, gap)) == High(tsf)
    ensures High(CounterAfter(tsf, gap)) == (High(tsf) + LostCarry(tsf, gap)) % 0x1_0000_0000
    ensures Low(WriteResult(tsf, gap)) == Low(CounterAfter(tsf, gap))
  {
    hide WrapU, Combine;
    WordsOf(tsf + gap);
    SplitWord(Low(tsf) + gap, High(tsf));
  }

  lemma SameWords(a: u64, b: u64)
    ensures a == b <==> High(a) == High(b) && Low(a) == Low(b)
  {
  }

  lemma NoCarry(lo: u32, gap: nat)
    ensures gap < TWO32 ==> ((lo + gap) / 0x1_0000_0000 % 0x1_0000_0000 == 0 <==> lo + gap < TWO32)
  {
  }

  lemma CarryMatters(hi: u32, carry: nat)
    ensures (hi + carry) % 0x1_0000_0000 == hi <==> carry % 0x1_0000_0000 == 0
  {
    if carry % 0x1_0000_0000 == 0 {
      SplitWord(hi, carry / 0x1_0000_0000);
    } else {
      DifferentHigh(hi, carry);
    }
  }

  lemma DifferentHigh(hi: u32, carry: nat)
    requires carry % 0x1_0000_0000 != 0
    ensures (hi + carry) % 0x1_0000_0000 != hi
  {
  }

  /** Written and read back: the written value plus the ticks since, up to some tick of the read. */
  lemma WriteThenRead(tsf: u64, gap: nat, g: Gaps)
    requires Low(tsf) + gap < TWO32 && g.b + g.c <= TWO64 - TWO32
    ensures exists t: nat :: gap <= t <= gap + ReadTicks(WriteResult(tsf, gap), g)
              && CounterAfter(tsf, t) == ReadResult(WriteResult(tsf, gap), g)
  {
    hide CounterAfter, ReadResult, ReadTicks, WriteResult;
    WriteExactly(tsf, gap);
    var start := WriteResult(tsf, gap);
    ReadIsLinearizable(start, g);
    var j: nat :| j <= ReadTicks(start, g) && CounterAfter(start, j) == ReadResult(start, g);
    TicksAdd(tsf, gap, j);
    var t := gap + j;
  }

  /** `adjtime` moves the counter by the truncated delta, less the ticks between the instant its
      read shows and its write of the low word: compared with the counter left alone for the
      whole call. */
  lemma AdjustMoves(start: u64, deltaNs: i64, g: Gaps, turnaround: nat, gap: nat)
    requires g.b + g.c <= TWO64 - TWO32
    requires Low(CounterAfter(ReadResult(start, g), TruncDiv(deltaNs, 1000))) + gap < TWO32
    ensures exists j: nat :: j <= ReadTicks(start, g)
              && CounterAfter(start, j) == ReadResult(start, g)
              && AdjustResult(start, deltaNs, g, gap)
                 == CounterAfter(CounterAfter(start, ReadTicks(start, g) + turnaround + gap),
                                 TruncDiv(deltaNs, 1000) - (ReadTicks(start, g) - j + turnaround))
  {
    hide CounterAfter, ReadResult, ReadTicks, WriteResult;
    var delta, ticks := TruncDiv(deltaNs, 1000), ReadTicks(start, g);
    var target := CounterAfter(ReadResult(start, g), delta);
    WriteExactly(target, gap);
    ReadIsLinearizable(start, g);
    var j: nat :| j <= ticks && CounterAfter(start, j) == ReadResult(start, g);
    TicksAdd(start, j, delta);
    TicksAdd(start, j + delta, gap);
    TicksAdd(start, ticks + turnaround + gap, delta - (ticks - j + turnaround));
    assert ticks + turnaround + gap + (delta - (ticks - j + turnaround)) == j + delta + gap;
  }
}
