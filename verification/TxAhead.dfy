/**
 TX-ahead arithmetic of the NR radio unit: from the received slot, ru_thread
 and fh_if4p5_south_in compute the frame, slot and timestamp to transmit.
 */
module TxAhead {
  import opened CArithmetic
  import opened FrameParms
  import opened NrRadio
  import SlotTable

  /** frame_tx as ru_thread computes it, by comparing slot numbers; `spf` is
      slots_per_frame. */
  function FrameTxByWrap(spf: nat, frameRx: int, ttiRx: nat, slAhead: nat): int
    requires spf >= 1
  {
    if ttiRx > (ttiRx + slAhead) % spf then (frameRx + 1) % 1024 else frameRx
  }

  /** frame_tx as fh_if4p5_south_in computes it, by a threshold. */
  function FrameTxByThreshold(spf: nat, frameRx: int, ttiRx: nat, slAhead: nat): int {
    if ttiRx > spf - 1 - slAhead then (frameRx + 1) % 1024 else frameRx
  }

  /** Samples of slAhead slots from slot ttiRx on. */
  function TxSum(p: Parms, ttiRx: nat, slAhead: nat): nat {
    if slAhead == 0 then 0
    else TxSum(p, ttiRx, slAhead - 1) + SamplesPerSlot(p, (ttiRx + slAhead - 1) % SlotsPerFrame(p))
  }

  /** The computation of ru_thread. */
  method ComputeTx(p: Parms, timestampRx: int, frameRx: int, ttiRx: nat, slAhead: nat)
    returns (timestampTx: int, ttiTx: nat, frameTx: int)
    ensures timestampTx == timestampRx + TxSum(p, ttiRx, slAhead)
    ensures ttiTx == (ttiRx + slAhead) % SlotsPerFrame(p)
    ensures frameTx == FrameTxByWrap(SlotsPerFrame(p), frameRx, ttiRx, slAhead)
  {
    timestampTx := timestampRx;
    var i := ttiRx;
    while i < ttiRx + slAhead
      invariant ttiRx <= i <= ttiRx + slAhead
      invariant timestampTx == timestampRx + TxSum(p, ttiRx, i - ttiRx)
    {
      timestampTx := timestampTx + SamplesPerSlot(p, i % SlotsPerFrame(p));
      i := i + 1;
    }
    ttiTx := (ttiRx + slAhead) % SlotsPerFrame(p);
    frameTx := if ttiRx > ttiTx then (frameRx + 1) % 1024 else frameRx;
  }

  /** The samples added are exactly those between the start of the received slot and
      the start of the slot slAhead slots later, in whichever frame it lies. */
  lemma {:induction false} TxSumIsSpan(p: Parms, n: nat, slAhead: nat)
    ensures SlotStart(p, n) + TxSum(p, n % SlotsPerFrame(p), slAhead) == SlotStart(p, n + slAhead)
  {
    if slAhead > 0 {
      var w, m := SlotsPerFrame(p), n + slAhead - 1;
      TxSumIsSpan(p, n, slAhead - 1);
      NextStart(p, m);
      FrameAfter(n, slAhead - 1, w);
    }
  }

  lemma NextStart(p: Parms, i: nat)
    ensures SlotStart(p, i + 1) == SlotStart(p, i) + SamplesPerSlot(p, i % SlotsPerFrame(p))
  {
    SlotStartForm(p, i);
    SlotTable.StartStep(TableOf(p), i);
  }

  /** Adding a slots to slot s of a frame carries into the next frame exactly
      when the slot number goes down, beyond the whole frames in a. */
  lemma CarryIsWrap(s: nat, a: nat, w: nat)
    requires w >= 1 && s < w
    ensures (s + a) / w == a / w + if s > (s + a) % w then 1 else 0
  {
    var q, r := a / w, a % w;
    assert s + a == q * w + (s + r);
    if s + r < w {
      DivMod(s + a, w, q, s + r);
    } else {
      MulStep(q, w);
      DivMod(s + a, w, q + 1, s + r - w);
    }
  }

  lemma WrapIsThreshold(s: nat, a: nat, w: nat)
    requires s < w && a < w
    ensures s > (s + a) % w <==> s > w - 1 - a
  {
    if s + a < w {
      DivMod(s + a, w, 0, s + a);
    } else {
      DivMod(s + a, w, 1, s + a - w);
    }
  }

  lemma FrameAfter(n: nat, a: nat, w: nat)
    requires w >= 1
    ensures (n + a) / w == n / w + (n % w + a) / w && (n + a) % w == (n % w + a) % w
  {
    var f, s := n / w, n % w;
    var q, r := (s + a) / w, (s + a) % w;
    assert n + a == f * w + (q * w + r);
    MulAdd(f, q, w);
    DivMod(n + a, w, f + q, r);
  }

  /** Leaving out w frames is right modulo 1024 only for a multiple of 1024. */
  lemma SameFrameIff(f: nat, w: nat, carry: nat)
    ensures ((f % 1024 + carry) % 1024 == (f + w + carry) % 1024) <==> w % 1024 == 0
  {
    var x, y := f % 1024 + carry, f + w + carry;
    assert y == x + 1024 * (f / 1024 + w / 1024) + w % 1024;
  }

  /** The slot-comparison formula names the frame slAhead slots on, modulo 1024
      frames, if and only if slAhead spans a multiple of 1024 whole frames; in
      particular whenever slAhead is less than a frame. */
  lemma FrameTxCorrectIff(spf: nat, n: nat, slAhead: nat)
    requires spf >= 1
    ensures (FrameTxByWrap(spf, (n / spf) % 1024, n % spf, slAhead) == ((n + slAhead) / spf) % 1024)
            <==> (slAhead / spf) % 1024 == 0
  {
    var s, late := n % spf, n % spf > (n % spf + slAhead) % spf;
    FrameAfter(n, slAhead, spf);
    CarryIsWrap(s, slAhead, spf);
    CarriedFrameIff(n / spf, slAhead / spf, late, (n + slAhead) / spf);
  }

  lemma CarriedFrameIff(f: nat, w: nat, late: bool, g: nat)
    requires g == f + w + if late then 1 else 0
    ensures ((if late then (f % 1024 + 1) % 1024 else f % 1024) == g % 1024) <==> w % 1024 == 0
  {
    SameFrameIff(f, w, if late then 1 else 0);
  }

  /** Below one frame the two formulas agree and both are right. */
  lemma FrameTxFormulasAgree(spf: nat, n: nat, slAhead: nat)
    requires slAhead < spf
    ensures var f, s := (n / spf) % 1024, n % spf;
            FrameTxByWrap(spf, f, s, slAhead) == FrameTxByThreshold(spf, f, s, slAhead) == ((n + slAhead) / spf) % 1024
    ensures (n % spf + slAhead) % spf == (n + slAhead) % spf
  {
    WrapIsThreshold(n % spf, slAhead, spf);
    FrameTxCorrectIff(spf, n, slAhead);
    DivMod(slAhead, spf, 0, slAhead);
    FrameAfter(n, slAhead, spf);
  }

  /** One whole frame ahead the formula names the received frame. */
  lemma WholeFrameAhead(spf: nat, n: nat)
    requires spf >= 1
    ensures FrameTxByWrap(spf, (n / spf) % 1024, n % spf, spf) != ((n + spf) / spf) % 1024
  {
    DivMod(spf, spf, 1, 0);
    FrameTxCorrectIff(spf, n, spf);
  }

  /** For every numerology, received slot n, sample `phase` of it and slAhead below
      one frame: frame_tx, by either formula, and tti_tx are those of slot n +
      slAhead. */
  lemma TxNumbers(p: Parms, n: nat, phase: nat, slAhead: nat)
    requires phase < SlotLength(p, n) && slAhead < SlotsPerFrame(p)
    ensures var spf, ts := SlotsPerFrame(p), SlotStart(p, n) + phase;
            var frameRx, ttiRx := FrameOf(p, ts), SlotFromTimestamp(p, ts);
            && ttiRx == n % spf && (n % spf + slAhead) % spf == (n + slAhead) % spf
            && FrameTxByWrap(spf, frameRx, n % spf, slAhead) == ((n + slAhead) / spf) % 1024
            && FrameTxByThreshold(spf, frameRx, n % spf, slAhead) == ((n + slAhead) / spf) % 1024
  {
    DecodeSlot(p, n, phase);
    FrameTxFormulasAgree(SlotsPerFrame(p), n, slAhead);
  }

  /** The timestamp ru_thread sums up decodes to the numbers of slot m = n + slAhead,
      which are frame_tx and tti_tx, if and only if that slot is longer than the
      phase of the received timestamp. */
  lemma TxDecodesIff(p: Parms, n: nat, phase: nat, slAhead: nat, m: nat)
    requires phase < SlotLength(p, n) && m == n + slAhead
    ensures Decodes(p, SlotStart(p, n) + phase + TxSum(p, n % SlotsPerFrame(p), slAhead), m)
            <==> phase < SlotLength(p, m)
  {
    TxSumIsSpan(p, n, slAhead);
    assert SlotStart(p, n) + phase + TxSum(p, n % SlotsPerFrame(p), slAhead) == SlotStart(p, m) + phase;
    if phase < SlotLength(p, m) {
      InSlotDecodes(p, m, phase);
    } else {
      PastShortSlot(p, n, m, phase);
    }
  }

  lemma InSlotDecodes(p: Parms, m: nat, phase: nat)
    requires phase < SlotLength(p, m)
    ensures Decodes(p, SlotStart(p, m) + phase, m)
  {
    DecodeSlot(p, m, phase);
  }

  /** The timestamp decodes to slot m. */
  ghost predicate Decodes(p: Parms, timestamp: int, m: nat) {
    FrameOf(p, timestamp) == (m / SlotsPerFrame(p)) % 1024 && SlotFromTimestamp(p, timestamp) == m % SlotsPerFrame(p)
  }

  /** A sample past the end of a short slot m lies in the slot after it. */
  lemma PastShortSlot(p: Parms, n: nat, m: nat, phase: nat)
    requires SlotLength(p, m) <= phase < SlotLength(p, n)
    ensures !Decodes(p, SlotStart(p, m) + phase, m)
  {
    SlotBounds(p, n);
    SlotBounds(p, m);
    SlotBounds(p, m + 1);
    assert p.mu >= 2;
    OverRun(p);
    var over := phase - SlotLength(p, m);
    SlotTable.StartStep(TableOf(p), m);
    DecodeSlot(p, m + 1, over);
    DivSucc(m, SlotsPerFrame(p));
  }

  /** For every numerology above 1: one short slot length into slot 0, the timestamp
      for one slot ahead does not decode to slot 1. */
  lemma LateTxMisdecodes(p: Parms)
    requires p.mu >= 2
    ensures !Decodes(p, SlotStart(p, 0) + SamplesPerSlotN0(p) + TxSum(p, 0 % SlotsPerFrame(p), 1), 1)
  {
    HalfSubframe(p);
    var h := TableOf(p).h;
    DivMod(0, h, 0, 0);
    DivMod(1, h, 0, 1);
    TxDecodesIff(p, 0, SamplesPerSlotN0(p), 1, 1);
  }

  /** While the timing lock of rx_rf holds, the summed timestamp is right. */
  lemma LockedTxIsConsistent(p: Parms, n: nat, phase: nat, slAhead: nat, m: nat)
    requires phase < ShortestSlot(p) && m == n + slAhead
    ensures Decodes(p, SlotStart(p, n) + phase + TxSum(p, n % SlotsPerFrame(p), slAhead), m)
  {
    SlotBounds(p, n);
    SlotBounds(p, m);
    TxDecodesIff(p, n, phase, slAhead, m);
  }
}
