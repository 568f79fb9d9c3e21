/**
 Transmit bursts of the NR tx_rf: the burst flags of a TDD slot pattern, and the
 number of samples sent in a mixed slot.
 */
module TxBurst {
  import opened CArithmetic
  import opened FrameParms
  import opened SlotPipeline

  datatype Flag = Start | Middle | End

  /** The slot types of one frame. */
  type Pattern = ts: seq<SlotType> | |ts| >= 1 witness [Uplink]

  function Prev(ts: Pattern, slot: nat): (s: nat)
    ensures s < |ts|
  {
    (slot + (|ts| - 1)) % |ts|
  }

  function Next(ts: Pattern, slot: nat): (s: nat)
    ensures s < |ts|
  {
    (slot + 1) % |ts|
  }

  /** The slot number k slots after slot 0 of some frame. */
  function At(ts: Pattern, k: nat): (s: nat)
    ensures s < |ts|
  {
    k % |ts|
  }

  /** flags_burst for a transmitted slot of a TDD cell. */
  function BurstFlag(ts: Pattern, slot: nat, firstTx: bool): Flag
    requires slot < |ts| && ts[slot] != Uplink
  {
    if ts[slot] == Mixed then End
    else if ts[Prev(ts, slot)] == Uplink then Start
    else if ts[Next(ts, slot)] == Uplink then End
    else if firstTx then Start
    else Middle
  }

  /** What a radio accepts: a burst is START MIDDLE* END, and nothing is open in an
      uplink slot. */
  datatype Radio = Closed | Open | Rejected

  function Feed(r: Radio, f: Flag): Radio {
    match (r, f)
    case (Closed, Start) => Open
    case (Open, Middle) => Open
    case (Open, End) => Closed
    case _ => Rejected
  }

  datatype Run = Run(radio: Radio, firstTx: bool)

  /** The state after n slots from slot p on, frame after frame. */
  function After(ts: Pattern, p: nat, firstTx: bool, n: nat): Run {
    if n == 0 then Run(Closed, firstTx)
    else
      var r := After(ts, p, firstTx, n - 1);
      var slot := At(ts, p + n - 1);
      if ts[slot] == Uplink then Run(if r.radio == Closed then Closed else Rejected, r.firstTx)
      else Run(Feed(r.radio, BurstFlag(ts, slot, r.firstTx)), false)
  }

  /** Every transmit run spans at least two slots, and a mixed slot only ends one. */
  ghost predicate WellFormed(ts: Pattern) {
    forall s :: 0 <= s < |ts| ==>
      && (ts[s] == Mixed ==> ts[Prev(ts, s)] == Downlink && ts[Next(ts, s)] == Uplink)
      && (ts[s] == Downlink && ts[Prev(ts, s)] == Uplink ==> ts[Next(ts, s)] != Uplink)
  }

  lemma ModStep(a: nat, n: nat)
    requires n >= 1
    ensures (a + 1) % n == (a % n + 1) % n
    ensures ((a + 1) % n + (n - 1)) % n == a % n
  {
    DivSucc(a, n);
    var r := a % n;
    if r == n - 1 {
      DivMod(r + 1, n, 1, 0);
      DivMod(n - 1, n, 0, n - 1);
    } else {
      DivMod(r + 1, n, 0, r + 1);
      DivMod(r + n, n, 1, r);
    }
  }

  lemma Neighbours(ts: Pattern, k: nat)
    ensures Next(ts, At(ts, k)) == At(ts, k + 1)
    ensures Prev(ts, At(ts, k + 1)) == At(ts, k)
  {
    ModStep(k, |ts|);
  }

  /** Where a run may start: in an uplink slot, at the start of a transmit run, or, on
      the very first transmission, in a downlink slot that does not end one. */
  predicate StartOk(ts: Pattern, p: nat, firstTx: bool)
    requires p < |ts|
  {
    || ts[p] == Uplink
    || (ts[p] == Downlink && (ts[Prev(ts, p)] == Uplink || (firstTx && ts[Next(ts, p)] != Uplink)))
  }

  // A well-formed pattern is accepted ---------------------------------------------------

  /** Before the n-th slot a burst is open exactly between a downlink slot and a
      transmitted one. */
  lemma {:induction false} WellFormedAccepted(ts: Pattern, p: nat, firstTx: bool, n: nat)
    requires WellFormed(ts) && p < |ts| && StartOk(ts, p, firstTx) && n >= 1
    ensures var last, now := ts[At(ts, p + n - 1)], ts[At(ts, p + n)];
            var r := After(ts, p, firstTx, n);
            && r.radio == (if last == Downlink && now != Uplink then Open else Closed)
            && (last != Uplink ==> !r.firstTx)
  {
    if n == 1 {
      DivMod(p, |ts|, 0, p);
      Neighbours(ts, p);
      FirstSlot(ts, p, firstTx);
    } else {
      WellFormedAccepted(ts, p, firstTx, n - 1);
      var k := p + n - 1;
      Neighbours(ts, k - 1);
      Neighbours(ts, k);
    }
  }

  /** The first slot is accepted exactly where a run may start, in a well-formed pattern. */
  lemma FirstSlot(ts: Pattern, p: nat, firstTx: bool)
    requires WellFormed(ts) && p < |ts|
    ensures var r := After(ts, p, firstTx, 1);
            && (r.radio != Rejected <==> StartOk(ts, p, firstTx))
            && (r.radio != Rejected ==> r.radio == if ts[p] == Downlink then Open else Closed)
            && (ts[p] != Uplink ==> !r.firstTx) && (ts[p] == Downlink && r.radio == Open ==> ts[Next(ts, p)] != Uplink)
  {
    DivMod(p, |ts|, 0, p);
    assert After(ts, p, firstTx, 0) == Run(Closed, firstTx);
  }

  // An accepted pattern is well-formed --------------------------------------------------

  ghost predicate Accepted(ts: Pattern, p: nat, firstTx: bool) {
    forall n: nat :: After(ts, p, firstTx, n).radio != Rejected
  }

  /** In an accepted run the state after a slot is decided by that slot's flag. */
  lemma AcceptedState(ts: Pattern, p: nat, firstTx: bool, n: nat)
    requires Accepted(ts, p, firstTx) && n >= 1
    ensures var slot := At(ts, p + n - 1);
            var r := After(ts, p, firstTx, n);
            && (ts[slot] == Uplink || ts[slot] == Mixed ==> r.radio == Closed)
            && (ts[slot] == Downlink && ts[Prev(ts, slot)] == Uplink ==> r.radio == Open)
            && (ts[slot] != Uplink ==> !r.firstTx)
  {
    assert After(ts, p, firstTx, n).radio != Rejected;
    assert After(ts, p, firstTx, n - 1).radio != Rejected;
  }

  lemma AcceptedSlot(ts: Pattern, p: nat, firstTx: bool, n: nat)
    requires Accepted(ts, p, firstTx) && n >= 1
    ensures var s := At(ts, p + n);
            && (ts[s] == Mixed ==> ts[Prev(ts, s)] == Downlink && ts[Next(ts, s)] == Uplink)
            && (ts[s] == Downlink && ts[Prev(ts, s)] == Uplink ==> ts[Next(ts, s)] != Uplink)
  {
    Neighbours(ts, p + n - 1);
    Neighbours(ts, p + n);
    Neighbours(ts, p + n + 1);
    AcceptedState(ts, p, firstTx, n);
    AcceptedState(ts, p, firstTx, n + 1);
    assert After(ts, p, firstTx, n + 1).radio != Rejected;
    assert After(ts, p, firstTx, n + 2).radio != Rejected;
  }

  // Results -----------------------------------------------------------------------

  /** From any slot on, the flags of every run of slots form complete bursts START
      MIDDLE* END with none open in an uplink slot, if and only if each transmit run
      spans two slots or more, a mixed slot only ends one, and the run starts where it
      may. */
  lemma BurstGrammarIff(ts: Pattern, p: nat, firstTx: bool)
    requires p < |ts|
    ensures Accepted(ts, p, firstTx) <==> WellFormed(ts) && StartOk(ts, p, firstTx)
  {
    if WellFormed(ts) && StartOk(ts, p, firstTx) {
      AcceptsWellFormed(ts, p, firstTx);
    }
    if Accepted(ts, p, firstTx) {
      AcceptedIsWellFormed(ts, p, firstTx);
    }
  }

  lemma AcceptsWellFormed(ts: Pattern, p: nat, firstTx: bool)
    requires p < |ts| && WellFormed(ts) && StartOk(ts, p, firstTx)
    ensures Accepted(ts, p, firstTx)
  {
    forall n: nat
      ensures After(ts, p, firstTx, n).radio != Rejected
    {
      if n >= 1 {
        WellFormedAccepted(ts, p, firstTx, n);
      }
    }
  }

  lemma AcceptedIsWellFormed(ts: Pattern, p: nat, firstTx: bool)
    requires p < |ts| && Accepted(ts, p, firstTx)
    ensures WellFormed(ts) && StartOk(ts, p, firstTx)
  {
    forall s | 0 <= s < |ts|
      ensures (ts[s] == Mixed ==> ts[Prev(ts, s)] == Downlink && ts[Next(ts, s)] == Uplink)
              && (ts[s] == Downlink && ts[Prev(ts, s)] == Uplink ==> ts[Next(ts, s)] != Uplink)
    {
      var n := s + 2 * |ts| - p;
      DivMod(p + n, |ts|, 2, s);
      AcceptedSlot(ts, p, firstTx, n);
    }
    assert After(ts, p, firstTx, 1).radio != Rejected;
    FirstSlot(ts, p, firstTx);
  }

  /** A frame of n slots with a single downlink slot, the second. */
  function OneSlotRun(n: nat): Pattern
    requires n >= 10
  {
    seq(n, i => if i == 1 then Downlink else Uplink)
  }

  /** In a frame of any length, a one-slot transmit run opens a burst that nothing
      ends. */
  lemma OneSlotRunRejected(n: nat, firstTx: bool)
    requires n >= 10
    ensures !Accepted(OneSlotRun(n), 0, firstTx)
  {
    var ts := OneSlotRun(n);
    DivMod(n, n, 1, 0);
    assert Prev(ts, 1) == 0 && Next(ts, 1) == 2 by { DivMod(2, n, 0, 2); }
    assert ts[1] == Downlink && ts[Prev(ts, 1)] == Uplink && ts[Next(ts, 1)] == Uplink;
    BurstGrammarIff(ts, 0, firstTx);
  }

  // Burst length ------------------------------------------------------------------------

  /** A symbol has the long prefix at subframe symbol indices 0 and 7 * 2^mu
      (section 5.3.1 of 3GPP TS 38.211). */
  function SymbolLength(p: Parms, slot: nat, symbol: nat): nat {
    var l := (slot % Pow2(p.mu)) * SYMBOLS_PER_SLOT + symbol;
    137 * p.fft128 + if l == 0 || l == 7 * Pow2(p.mu) then p.fft128 * Pow2(p.mu) else 0
  }

  /** Samples of the first n symbols of a slot. */
  function SymbolSum(p: Parms, slot: nat, n: nat): nat {
    if n == 0 then 0 else SymbolSum(p, slot, n - 1) + SymbolLength(p, slot, n - 1)
  }

  /** siglen of a mixed slot with txsymb downlink symbols, as tx_rf computes it. */
  function SigLen(p: Parms, slot: nat, txsymb: nat): int {
    var long, short := SymbolSize(p) + Prefix0(p), SymbolSize(p) + Prefix(p);
    if SlotsPerSubframe(p) == 1 then
      if txsymb <= 7 then long + (txsymb - 1) * short else 2 * long + (txsymb - 2) * short
    else if slot % (SlotsPerSubframe(p) / 2) != 0 then txsymb * short
    else long + (txsymb - 1) * short
  }

  /** How many of the first n symbols are downlink; `downlink[l]` is
      slot_config == 0 for symbol l. */
  function DownlinkSymbols(downlink: seq<bool>, n: nat): (count: nat)
    requires n <= |downlink|
    ensures count <= n
  {
    if n == 0 then 0 else DownlinkSymbols(downlink, n - 1) + if downlink[n - 1] then 1 else 0
  }

  /** The counting loop of tx_rf. */
  method CountTxSymbols(downlink: seq<bool>) returns (txsymb: nat)
    requires |downlink| == SYMBOLS_PER_SLOT
    ensures txsymb == DownlinkSymbols(downlink, SYMBOLS_PER_SLOT)
  {
    txsymb := 0;
    for i := 0 to SYMBOLS_PER_SLOT
      invariant txsymb == DownlinkSymbols(downlink, i)
    {
      if downlink[i] {
        txsymb := txsymb + 1;
      }
    }
  }

  /** The first n symbols are downlink and no other is. */
  ghost predicate Leading(downlink: seq<bool>, n: nat) {
    forall l :: 0 <= l < |downlink| ==> (downlink[l] <==> l < n)
  }

  lemma {:induction false} LeadingCount(downlink: seq<bool>, n: nat, i: nat)
    requires Leading(downlink, n) && i <= |downlink|
    ensures DownlinkSymbols(downlink, i) == if i < n then i else n
  {
    if i > 0 {
      LeadingCount(downlink, n, i - 1);
    }
  }

  lemma LongPrefix(p: Parms, slot: nat, symbol: nat)
    requires symbol < SYMBOLS_PER_SLOT
    ensures var long, short := SymbolSize(p) + Prefix0(p), SymbolSize(p) + Prefix(p);
            SymbolLength(p, slot, symbol) ==
            if p.mu == 0 then (if symbol == 0 || symbol == 7 then long else short)
            else if symbol == 0 && slot % (SlotsPerSubframe(p) / 2) == 0 then long else short
  {
    var m := SlotsPerSubframe(p);
    SlotsArePowers(p);
    SizesInUnits(p);
    if p.mu >= 1 {
      var h := m / 2;
      assert m == 2 * h;
      Euclid(slot, m);
      HalfSlot(slot, h, m, slot / m, slot % m);
    }
  }

  lemma HalfSlot(slot: nat, h: nat, w: nat, q: nat, r: nat)
    requires w == 2 * h && slot == q * w + r && r < w
    ensures slot % h == 0 <==> r == 0 || r == h
  {
    Double(q, h, w);
    HalfRemainder(slot, h, 2 * q, r);
  }

  lemma Double(q: nat, h: nat, w: nat)
    requires w == 2 * h
    ensures q * w == (2 * q) * h
  {}

  lemma HalfRemainder(slot: nat, h: nat, q: nat, r: nat)
    requires slot == q * h + r && r < 2 * h
    ensures slot % h == 0 <==> r == 0 || r == h
  {
    if r < h {
      DivMod(slot, h, q, r);
    } else {
      MulStep(q, h);
      DivMod(slot, h, q + 1, r - h);
    }
  }

  /** The closed form of tx_rf is the sum of the lengths of the symbols sent, for
      every numerology, slot and symbol count. */
  lemma {:induction false} SigLenIsSum(p: Parms, slot: nat, txsymb: nat)
    requires 1 <= txsymb <= SYMBOLS_PER_SLOT
    ensures SigLen(p, slot, txsymb) == SymbolSum(p, slot, txsymb)
  {
    var long, short := SymbolSize(p) + Prefix0(p), SymbolSize(p) + Prefix(p);
    LongPrefix(p, slot, txsymb - 1);
    if txsymb == 1 {
      assert SymbolSum(p, slot, 0) == 0;
    } else {
      SigLenIsSum(p, slot, txsymb - 1);
      SigLenStep(p, slot, txsymb);
    }
  }

  lemma SigLenStep(p: Parms, slot: nat, n: nat)
    requires 2 <= n <= SYMBOLS_PER_SLOT
    ensures SigLen(p, slot, n) == SigLen(p, slot, n - 1) + SymbolLength(p, slot, n - 1)
  {
    var long, short := SymbolSize(p) + Prefix0(p), SymbolSize(p) + Prefix(p);
    LongPrefix(p, slot, n - 1);
    assert (n - 1) * short == (n - 2) * short + short;
    assert n * short == (n - 1) * short + short;
    assert (n - 2) * short == (n - 3) * short + short;
  }

  /** A whole slot's symbols have exactly get_samples_per_slot samples. */
  lemma FullSlotLength(p: Parms, slot: nat)
    ensures SymbolSum(p, slot, SYMBOLS_PER_SLOT) == SamplesPerSlot(p, slot)
  {
    SigLenIsSum(p, slot, SYMBOLS_PER_SLOT);
    if p.mu >= 1 {
      assert SlotsPerSubframe(p) / 2 >= 1;
    }
  }

  // The program -----------------------------------------------------------------------

  class Transmitter {
    const p: Parms
    const ts: Pattern
    var firstTx: bool

    constructor (p: Parms, ts: Pattern)
      ensures this.p == p && this.ts == ts && firstTx
    {
      this.p := p;
      this.ts := ts;
      firstTx := true;
    }

    /** tx_rf for a TDD slot that is not uplink.  A mixed slot without downlink
        symbols is a fatal error. */
    method TxRf(slot: nat, downlink: seq<bool>) returns (fatal: bool, flags: Flag, siglen: int)
      requires slot < |ts| && ts[slot] != Uplink && |downlink| == SYMBOLS_PER_SLOT
      modifies this
      ensures fatal <==> ts[slot] == Mixed && DownlinkSymbols(downlink, SYMBOLS_PER_SLOT) == 0
      ensures !fatal ==> flags == BurstFlag(ts, slot, old(firstTx)) && !firstTx
      ensures !fatal ==>
                siglen == SymbolSum(p, slot, if ts[slot] == Mixed then DownlinkSymbols(downlink, SYMBOLS_PER_SLOT)
                                             else SYMBOLS_PER_SLOT)
    {
      fatal, flags, siglen := false, Middle, SamplesPerSlot(p, slot);
      FullSlotLength(p, slot);
      if ts[slot] == Mixed {
        var txsymb := CountTxSymbols(downlink);
        if txsymb == 0 {
          fatal := true;
          return;
        }
        SigLenIsSum(p, slot, txsymb);
        siglen := SigLen(p, slot, txsymb);
        flags := End;
      } else if ts[Prev(ts, slot)] == Uplink {
        flags := Start;
      } else if ts[Next(ts, slot)] == Uplink {
        flags := End;
      } else {
        flags := if firstTx then Start else Middle;
      }
      firstTx := false;
    }
  }
}
