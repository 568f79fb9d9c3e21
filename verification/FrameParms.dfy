/**
 Slot lengths and slot timestamps of an NR carrier with normal cyclic prefix.
 The first slot of each half subframe is longer than the others, because its
 first symbol carries the long prefix.
 */
module FrameParms {
  import opened CArithmetic
  import SlotTable

  /** NR_DL_FRAME_PARMS as set_scs_parameters and nr_init_frame_parms fill it:
      numerology index and FFT size, here counted in units of 128 samples. */
  datatype RawParms = RawParms(mu: nat, fft128: nat)

  type Parms = p: RawParms | p.mu <= 4 && p.fft128 >= 1 witness RawParms(0, 4)

  const SYMBOLS_PER_SLOT: nat := 14

  function SlotsPerSubframe(p: Parms): (n: nat)
    ensures n >= 1 && (p.mu >= 1 ==> n % 2 == 0 && n >= 2)
  {
    match p.mu
    case 0 => 1
    case 1 => 2
    case 2 => 4
    case 3 => 8
    case _ => 16
  }

  function SlotsPerFrame(p: Parms): (n: nat)
    ensures n >= 10
  {
    10 * SlotsPerSubframe(p)
  }

  function SymbolSize(p: Parms): nat { 128 * p.fft128 }
  function Prefix(p: Parms): nat { SymbolSize(p) / 128 * 9 }
  function Prefix0(p: Parms): nat { SymbolSize(p) / 128 * (9 + SlotsPerSubframe(p)) }

  function SamplesPerSlotN0(p: Parms): nat {
    (Prefix(p) + SymbolSize(p)) * SYMBOLS_PER_SLOT
  }

  function SamplesPerSubframe(p: Parms): (n: nat)
    ensures n >= 1
  {
    (Prefix0(p) + SymbolSize(p)) * 2 + (Prefix(p) + SymbolSize(p)) * (SYMBOLS_PER_SLOT * SlotsPerSubframe(p) - 2)
  }

  function SamplesPerSlot0(p: Parms): nat {
    if p.mu == 0 then SamplesPerSubframe(p)
    else Prefix0(p) + (SYMBOLS_PER_SLOT - 1) * Prefix(p) + SYMBOLS_PER_SLOT * SymbolSize(p)
  }

  function SamplesPerFrame(p: Parms): (n: nat)
    ensures n >= 1
  {
    10 * SamplesPerSubframe(p)
  }

  /** get_samples_per_slot. */
  function SamplesPerSlot(p: Parms, slot: int): nat {
    if p.mu == 0 then SamplesPerSubframe(p)
    else if CMod(slot, SlotsPerSubframe(p) / 2) != 0 then SamplesPerSlotN0(p)
    else SamplesPerSlot0(p)
  }

  /** get_samples_slot_timestamp. */
  function SlotTimestamp(p: Parms, slot: nat): nat {
    if slot == 0 then 0
    else if p.mu == 0 then slot * SamplesPerSubframe(p)
    else
      var h := SlotsPerSubframe(p) / 2;
      var whole := (slot / h) * SamplesPerSubframe(p) / 2;
      var rem := slot % h;
      if rem > 0 then whole + SamplesPerSlot0(p) + (rem - 1) * SamplesPerSlotN0(p) else whole
  }

  function CeilDiv(a: nat, n: nat): nat
    requires n > 0
  {
    (a + n - 1) / n
  }

  /** get_slot_from_timestamp; `x` is the sample number within the frame. */
  function SlotFromTimestamp(p: Parms, timestamp: int): int {
    HalfSubframe(p);
    var x := CMod(timestamp, SamplesPerFrame(p));
    if x < SamplesPerSlot0(p) then 0
    else if p.mu == 0 then x / SamplesPerSubframe(p)
    else SlotInHalf(x, SamplesPerSubframe(p) / 2, SlotsPerSubframe(p) / 2, SamplesPerSlot0(p), SamplesPerSlotN0(p))
  }

  function SlotInHalf(x: nat, half: nat, h: nat, slot0: nat, slotN0: nat): int
    requires half > 0 && slotN0 > 0
  {
    var halves := x / half;
    var count := halves * h;
    var idx := halves * half - 1;
    var count1 := if idx < x then count + 1 else count;
    var idx1 := if idx < x then idx + slot0 else idx;
    var count2 := if idx1 < x then count1 + CeilDiv(x - idx1, slotN0) else count1;
    count2 - 1
  }

  lemma Distribute(u: nat, m: nat, c: nat, d: nat)
    ensures u * (c * m + d) == c * (u * m) + d * u
  {}

  /** The sizes in units of fft128: a slot has 14 * 137 units, and a subframe of
      m slots has two long prefixes of m units more. */
  lemma Sizes(p: Parms)
    ensures SamplesPerSlotN0(p) == 1918 * p.fft128
    ensures SamplesPerSubframe(p) == 1920 * (p.fft128 * SlotsPerSubframe(p))
    ensures p.mu >= 1 ==> SamplesPerSlot0(p) == 1918 * p.fft128 + p.fft128 * SlotsPerSubframe(p)
  {
    var u, m := p.fft128, SlotsPerSubframe(p);
    assert SymbolSize(p) / 128 == u;
    Distribute(u, m, 1, 9);
    assert Prefix0(p) == u * m + 9 * u;
    assert Prefix(p) + SymbolSize(p) == 137 * u;
    SymbolProduct(u, m);
  }

  lemma SymbolProduct(u: nat, m: nat)
    ensures 137 * u * (14 * m - 2) == 1918 * (u * m) - 274 * u
  {}

  /** Numerology mu has 2^mu slots in a subframe. */
  lemma SlotsArePowers(p: Parms)
    ensures SlotsPerSubframe(p) == Pow2(p.mu) && SlotsPerFrame(p) == 10 * Pow2(p.mu)
  {
    assert Pow2(0) == 1 && Pow2(1) == 2 && Pow2(2) == 4 && Pow2(3) == 8 && Pow2(4) == 16;
  }

  /** Every size in units of fft128 and powers of two: symbols of 128 with prefixes of
      9, and the long prefix longer by 2^mu; so a short slot has 14 * 137 units and a
      subframe 1920 * 2^mu. */
  lemma SizesInUnits(p: Parms)
    ensures SymbolSize(p) == 128 * p.fft128 && Prefix(p) == 9 * p.fft128
    ensures Prefix0(p) == 9 * p.fft128 + p.fft128 * Pow2(p.mu)
    ensures SamplesPerSlotN0(p) == 1918 * p.fft128
    ensures SamplesPerSubframe(p) == 1920 * (p.fft128 * Pow2(p.mu))
    ensures SamplesPerFrame(p) == 19200 * (p.fft128 * Pow2(p.mu))
    ensures p.mu >= 1 ==> SamplesPerSlot0(p) == 1918 * p.fft128 + p.fft128 * Pow2(p.mu)
  {
    SlotsArePowers(p);
    Sizes(p);
    Distribute(p.fft128, SlotsPerSubframe(p), 1, 9);
  }

  /** Half a subframe is one long slot and h - 1 short ones. */
  lemma HalfSubframe(p: Parms)
    ensures SamplesPerSlotN0(p) >= 1
    ensures SamplesPerSubframe(p) % 2 == 0 && SamplesPerSubframe(p) >= 1920
    ensures p.mu >= 1 ==>
      && SamplesPerSlot0(p) > SamplesPerSlotN0(p)
      && SamplesPerSubframe(p) / 2 == SamplesPerSlot0(p) + (SlotsPerSubframe(p) / 2 - 1) * SamplesPerSlotN0(p)
  {
    var u, m := p.fft128, SlotsPerSubframe(p);
    Sizes(p);
    Positive(u, m);
    if p.mu >= 1 {
      HalfProduct(u, m / 2);
    }
  }

  lemma HalfProduct(u: nat, h: nat)
    requires h >= 1
    ensures 1920 * (u * (2 * h)) / 2 == 1918 * u + u * (2 * h) + (h - 1) * (1918 * u)
  {
    Distribute(u, h, 2, 0);
    assert (h - 1) * (1918 * u) == 1918 * (u * h) - 1918 * u;
  }

  /** The frame as a table of slots. */
  function TableOf(p: Parms): (t: SlotTable.Table) {
    HalfSubframe(p);
    if p.mu == 0 then SlotTable.RawTable(10, 1, SamplesPerSubframe(p), SamplesPerSubframe(p))
    else SlotTable.RawTable(20, SlotsPerSubframe(p) / 2, SamplesPerSlot0(p), SamplesPerSlotN0(p))
  }

  lemma TableShape(p: Parms)
    ensures SlotTable.Slots(TableOf(p)) == SlotsPerFrame(p)
    ensures SlotTable.FrameLength(TableOf(p)) == SamplesPerFrame(p)
    ensures p.mu >= 1 ==> SlotTable.HalfLength(TableOf(p)) == SamplesPerSubframe(p) / 2
  {
    HalfSubframe(p);
  }

  // The three helpers of nr_parms.c compute the table's length, start and inverse ------

  lemma LengthIsTable(p: Parms, slot: nat)
    ensures SamplesPerSlot(p, slot) == SlotTable.Length(TableOf(p), slot)
  {}

  lemma TimestampIsTable(p: Parms, slot: nat)
    ensures SlotTimestamp(p, slot) == SlotTable.Start(TableOf(p), slot)
  {
    TableShape(p);
    HalfSubframe(p);
    if p.mu >= 1 {
      WholeHalves(slot / (SlotsPerSubframe(p) / 2), SamplesPerSubframe(p));
    } else {
      EqualStarts(TableOf(p), slot);
    }
  }

  lemma WholeHalves(q: nat, n: nat)
    requires n % 2 == 0
    ensures q * n / 2 == q * (n / 2)
  {
    assert q * n == 2 * (q * (n / 2));
  }

  lemma EqualStarts(t: SlotTable.Table, slot: nat)
    requires t.h == 1
    ensures SlotTable.Start(t, slot) == slot * t.first
  {}

  lemma CeilSucc(a: nat, n: nat)
    requires n > 0
    ensures CeilDiv(a + 1, n) == a / n + 1
  {
    MulStep(a / n, n);
    DivMod(a + n, n, a / n + 1, a % n);
  }

  /** The counting of get_slot_from_timestamp, in quotient and remainder form. */
  lemma SlotInHalfForm(x: nat, half: nat, h: nat, slot0: nat, slotN0: nat)
    requires half > 0 && slotN0 > 0
    ensures var q, u := x / half, x % half;
            SlotInHalf(x, half, h, slot0, slotN0) == q * h + if u < slot0 then 0 else 1 + (u - slot0) / slotN0
  {
    var q, u := x / half, x % half;
    assert x == q * half + u;
    if u >= slot0 {
      CeilSucc(u - slot0, slotN0);
    }
  }

  lemma EqualSlots(t: SlotTable.Table, x: nat)
    requires t.h == 1
    ensures SlotTable.HalfLength(t) == t.first && SlotTable.SlotAt(t, x) == x / t.first
  {}

  lemma FirstSlot(t: SlotTable.Table, x: nat)
    requires x < t.first
    ensures SlotTable.SlotAt(t, x) == 0
  {
    assert t.first <= SlotTable.HalfLength(t);
    DivMod(x, SlotTable.HalfLength(t), 0, x);
  }

  lemma LaterSlot(t: SlotTable.Table, x: nat)
    ensures SlotInHalf(x, SlotTable.HalfLength(t), t.h, t.first, t.rest) == SlotTable.SlotAt(t, x)
  {
    SlotInHalfForm(x, SlotTable.HalfLength(t), t.h, t.first, t.rest);
  }

  lemma SlotIsTable(p: Parms, timestamp: nat)
    ensures SlotFromTimestamp(p, timestamp) == SlotTable.SlotAt(TableOf(p), timestamp % SamplesPerFrame(p))
  {
    var x, t := timestamp % SamplesPerFrame(p), TableOf(p);
    TableShape(p);
    if x < t.first {
      FirstSlot(t, x);
    } else if p.mu >= 1 {
      LaterSlot(t, x);
    } else {
      EqualSlots(t, x);
    }
  }

  // What they promise ---------------------------------------------------------------

  /** Slot timestamps are the running sums of the slot lengths, and a frame's
      slots last exactly one frame. */
  lemma SlotTimestampIsSum(p: Parms, slot: nat)
    ensures SlotTimestamp(p, 0) == 0
    ensures SlotTimestamp(p, slot + 1) == SlotTimestamp(p, slot) + SamplesPerSlot(p, slot)
    ensures SlotTimestamp(p, SlotsPerFrame(p)) == SamplesPerFrame(p)
  {
    TimestampIsTable(p, slot);
    TimestampIsTable(p, slot + 1);
    TimestampIsTable(p, SlotsPerFrame(p));
    LengthIsTable(p, slot);
    SlotTable.StartStep(TableOf(p), slot);
    TableShape(p);
    SlotTable.FrameStart(TableOf(p));
  }

  /** get_slot_from_timestamp returns, for every timestamp, the one slot of the
      frame whose samples contain it. */
  lemma SlotFromTimestampIsInverse(p: Parms, timestamp: nat, slot: nat)
    requires slot < SlotsPerFrame(p)
    ensures SlotFromTimestamp(p, timestamp) == slot <==>
            var x := timestamp % SamplesPerFrame(p);
            SlotTimestamp(p, slot) <= x < SlotTimestamp(p, slot) + SamplesPerSlot(p, slot)
  {
    var t, x := TableOf(p), timestamp % SamplesPerFrame(p);
    SlotIsTable(p, timestamp);
    TimestampIsTable(p, slot);
    LengthIsTable(p, slot);
    SlotTable.SlotAtContains(t, x);
    if SlotTable.Start(t, slot) <= x < SlotTable.Start(t, slot) + SlotTable.Length(t, slot) {
      SlotTable.SlotUnique(t, x, slot, SlotTable.SlotAt(t, x));
    }
  }

  // Slots counted from timestamp 0 ----------------------------------------------------

  /** First sample, and length, of the n-th slot since timestamp 0. */
  function SlotStart(p: Parms, n: nat): nat {
    SlotTable.Start(TableOf(p), n)
  }

  function SlotLength(p: Parms, n: nat): (len: nat)
    ensures len >= 1
  {
    SlotTable.Length(TableOf(p), n)
  }

  /** The frame number rx_rf reads off a timestamp. */
  function FrameOf(p: Parms, timestamp: int): int {
    CDiv(timestamp, SamplesPerFrame(p)) % 1024
  }

  lemma SlotStartForm(p: Parms, n: nat)
    ensures var spf := SlotsPerFrame(p);
            && SlotStart(p, n) == (n / spf) * SamplesPerFrame(p) + SlotTimestamp(p, n % spf)
            && SlotLength(p, n) == SamplesPerSlot(p, n % spf)
            && SlotTimestamp(p, n % spf) + SlotLength(p, n) <= SamplesPerFrame(p)
  {
    TableShape(p);
    TimestampIsTable(p, n % SlotsPerFrame(p));
    LengthIsTable(p, n % SlotsPerFrame(p));
    SlotTable.StartForm(TableOf(p), n);
  }

  /** Negative timestamps, and those in the first slot, read as slot 0. */
  lemma EarlyIsSlot0(p: Parms, timestamp: int)
    requires timestamp < SamplesPerSlot0(p)
    ensures SlotFromTimestamp(p, timestamp) == 0
  {
    HalfSubframe(p);
    var f := SamplesPerFrame(p);
    assert SamplesPerSlot0(p) <= f;
    if timestamp >= 0 {
      DivMod(timestamp, f, 0, timestamp);
    } else {
      assert (-timestamp) % f >= 0;
    }
  }

  /** Any sample of the n-th slot decodes to that slot's frame and slot number. */
  lemma DecodeSlot(p: Parms, n: nat, offset: nat)
    requires offset < SlotLength(p, n)
    ensures FrameOf(p, SlotStart(p, n) + offset) == (n / SlotsPerFrame(p)) % 1024
    ensures SlotFromTimestamp(p, SlotStart(p, n) + offset) == n % SlotsPerFrame(p)
  {
    SlotStartForm(p, n);
    DecodeIn(p, n / SlotsPerFrame(p), n % SlotsPerFrame(p), offset, SlotStart(p, n) + offset);
  }

  /** Any sample of slot s of frame f, counted from timestamp 0. */
  lemma DecodeIn(p: Parms, f: nat, s: nat, offset: nat, timestamp: nat)
    requires s < SlotsPerFrame(p) && offset < SamplesPerSlot(p, s)
    requires SlotTimestamp(p, s) + SamplesPerSlot(p, s) <= SamplesPerFrame(p)
    requires timestamp == f * SamplesPerFrame(p) + (SlotTimestamp(p, s) + offset)
    ensures FrameOf(p, timestamp) == f % 1024 && SlotFromTimestamp(p, timestamp) == s
  {
    DivMod(timestamp, SamplesPerFrame(p), f, SlotTimestamp(p, s) + offset);
    SlotFromTimestampIsInverse(p, timestamp, s);
  }
}
