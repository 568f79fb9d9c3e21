/**
 Unwrapping of the downlink timestamp in the LTE fh_if4p5_north_asynch_in: the
 frame number on the wire wraps at 1024, and frame_tx_unwrap counts the wraps
 by watching for frame 0, subframe 0.
 */
module TimestampUnwrap {
  import opened CArithmetic

  /** Subframes in 1024 frames. */
  const PERIOD: nat := 10240

  /** The wire label of the a-th subframe. */
  function FrameTx(a: nat): nat { (a / 10) % 1024 }
  function TtiTx(a: nat): nat { a % 10 }

  /** frame_tx_unwrap after subframe a. */
  function Unwrap(unwrap: int, a: nat): int {
    if FrameTx(a) == 0 && TtiTx(a) == 0 then unwrap + 1024 else unwrap
  }

  /** The timestamp in subframes. */
  function Units(unwrap: int, a: nat): int {
    (FrameTx(a) + unwrap) * 10 + TtiTx(a)
  }

  class DownlinkClock {
    const samplesPerTti: nat
    var frameTxUnwrap: int
    var timestampTx: int

    constructor (samplesPerTti: nat)
      ensures this.samplesPerTti == samplesPerTti && frameTxUnwrap == 0
    {
      this.samplesPerTti := samplesPerTti;
      frameTxUnwrap, timestampTx := 0, 0;
    }

    /** The clock update for a received downlink subframe, the a-th. */
    method Received(frameTx: nat, ttiTx: nat, ghost a: nat)
      requires frameTx == FrameTx(a) && ttiTx == TtiTx(a)
      modifies this
      ensures frameTxUnwrap == Unwrap(old(frameTxUnwrap), a)
      ensures timestampTx == Units(frameTxUnwrap, a) * samplesPerTti
    {
      if frameTx == 0 && ttiTx == 0 {
        frameTxUnwrap := frameTxUnwrap + 1024;
      }
      timestampTx := ((frameTx + frameTxUnwrap) * 10 + ttiTx) * samplesPerTti;
    }
  }

  lemma Label(a: nat)
    ensures FrameTx(a) * 10 + TtiTx(a) == a % PERIOD
    ensures FrameTx(a) == 0 && TtiTx(a) == 0 <==> a % PERIOD == 0
  {
    var q := a / 10;
    var f, w := q % 1024, q / 1024;
    assert a == w * PERIOD + (f * 10 + a % 10);
    DivMod(a, PERIOD, w, f * 10 + a % 10);
  }

  /** No start of a 1024-frame period lies strictly between a and b. */
  ghost predicate NoPeriodStart(a: nat, b: nat) {
    forall j :: a < j < b ==> j % PERIOD != 0
  }

  /** The periods that start after a, up to and including b. */
  function PeriodStarts(a: nat, b: nat): int {
    b / PERIOD - a / PERIOD
  }

  lemma UnitsMove(unwrap: int, a: nat, b: nat)
    ensures Units(Unwrap(unwrap, b), b) - Units(unwrap, a) ==
            b - a + PERIOD * ((if b % PERIOD == 0 then 1 else 0) - PeriodStarts(a, b))
  {
    Label(a);
    Label(b);
    assert a == (a / PERIOD) * PERIOD + a % PERIOD && b == (b / PERIOD) * PERIOD + b % PERIOD;
  }

  lemma PeriodStartsIff(a: nat, b: nat)
    requires a < b
    ensures NoPeriodStart(a, b) <==> PeriodStarts(a, b) == if b % PERIOD == 0 then 1 else 0
  {
    var p, q := a / PERIOD, b / PERIOD;
    var c := (p + 1) * PERIOD;
    assert a == p * PERIOD + a % PERIOD && b == q * PERIOD + b % PERIOD;
    DivMod(c, PERIOD, p + 1, 0);
    if c >= b {
      forall j | a < j < b
        ensures j % PERIOD != 0
      {
        assert j == (j / PERIOD) * PERIOD + j % PERIOD;
      }
    }
  }

  /** One step from subframe a to a later subframe b moves the timestamp by exactly
      b - a subframes if and only if no start of a 1024-frame period lies strictly
      between them. */
  lemma StepExactIff(unwrap: int, a: nat, b: nat)
    requires a < b
    ensures (Units(Unwrap(unwrap, b), b) - Units(unwrap, a) == b - a) <==> NoPeriodStart(a, b)
  {
    UnitsMove(unwrap, a, b);
    PeriodStartsIff(a, b);
  }

  /** From subframe 10239 to 10241, with 10240 skipped, the timestamp goes back by a
      whole period. */
  lemma SkippedPeriodStart(unwrap: int)
    ensures Units(Unwrap(unwrap, 10241), 10241) - Units(unwrap, 10239) == 2 - PERIOD
  {
    UnitsMove(unwrap, 10239, 10241);
  }

  // Whole streams -----------------------------------------------------------------------

  /** frame_tx_unwrap after the subframes `sfs`. */
  function UnwrapAfter(sfs: seq<nat>): int {
    if sfs == [] then 0 else Unwrap(UnwrapAfter(sfs[..|sfs| - 1]), sfs[|sfs| - 1])
  }

  /** The i-th timestamp, in samples. */
  function Timestamp(spt: nat, sfs: seq<nat>, i: nat): int
    requires i < |sfs|
  {
    Units(UnwrapAfter(sfs[..i + 1]), sfs[i]) * spt
  }

  /** In order, and with every period start from the first subframe on present:
      subframe 0 of a frame is always downlink. */
  ghost predicate InOrder(sfs: seq<nat>) {
    && (forall i :: 0 <= i < |sfs| - 1 ==> sfs[i] < sfs[i + 1])
    && (forall i :: 0 <= i < |sfs| - 1 ==> NoPeriodStart(sfs[i], sfs[i + 1]))
  }

  lemma {:induction false} UnitsAdvance(sfs: seq<nat>, i: nat, j: nat)
    requires InOrder(sfs) && i <= j < |sfs|
    ensures i < j ==> sfs[i] < sfs[j]
    ensures Units(UnwrapAfter(sfs[..j + 1]), sfs[j]) == Units(UnwrapAfter(sfs[..i + 1]), sfs[i]) + (sfs[j] - sfs[i])
    decreases j - i
  {
    if i < j {
      UnitsAdvance(sfs, i, j - 1);
      var a, b, before := sfs[j - 1], sfs[j], sfs[..j];
      assert sfs[..j + 1][..j] == before;
      assert a < b && NoPeriodStart(a, b) by { assert sfs[j - 1] < sfs[(j - 1) + 1]; }
      StepExactIff(UnwrapAfter(before), a, b);
    }
  }

  /** Between any two subframes of an in-order stream, across any number of wraps
      and any skipped uplink subframes, the timestamp advances by exactly the
      samples of the subframes between them. */
  lemma TimestampsAdvance(spt: nat, sfs: seq<nat>, i: nat, j: nat)
    requires InOrder(sfs) && i <= j < |sfs|
    ensures Timestamp(spt, sfs, j) - Timestamp(spt, sfs, i) == (sfs[j] - sfs[i]) * spt
    ensures i < j && spt >= 1 ==> Timestamp(spt, sfs, i) < Timestamp(spt, sfs, j)
  {
    UnitsAdvance(sfs, i, j);
    Scaled(Units(UnwrapAfter(sfs[..i + 1]), sfs[i]), Units(UnwrapAfter(sfs[..j + 1]), sfs[j]), spt);
  }

  lemma Scaled(u: int, v: int, spt: nat)
    ensures v * spt - u * spt == (v - u) * spt
    ensures spt >= 1 && v > u ==> (v - u) * spt > 0
  {}

  /** Where the count starts: in the first period, or the second if the stream begins
      with a period start. */
  function FirstUnits(a: nat): nat {
    if a % PERIOD == 0 then PERIOD else a % PERIOD
  }

  lemma FirstTimestamp(spt: nat, sfs: seq<nat>)
    requires sfs != []
    ensures Timestamp(spt, sfs, 0) == FirstUnits(sfs[0]) * spt
  {
    var a := sfs[0];
    assert sfs[..1] == [a] && [a][..0] == [];
    assert UnwrapAfter([a]) == Unwrap(0, a);
    UnitsAtStart(a);
  }

  lemma UnitsAtStart(a: nat)
    ensures Units(Unwrap(0, a), a) == FirstUnits(a)
  {
    Label(a);
  }

  /** The timestamps the program assigns to an in-order stream: each is the number of
      its subframe, counted from where the stream starts, times the subframe length. */
  method ReceiveStream(samplesPerTti: nat, sfs: seq<nat>) returns (stamps: seq<int>)
    requires InOrder(sfs)
    ensures |stamps| == |sfs|
    ensures forall i :: 0 <= i < |sfs| ==> stamps[i] == (FirstUnits(sfs[0]) + sfs[i] - sfs[0]) * samplesPerTti
  {
    var clock := new DownlinkClock(samplesPerTti);
    stamps := [];
    for n := 0 to |sfs|
      invariant |stamps| == n && fresh(clock) && clock.samplesPerTti == samplesPerTti
      invariant clock.frameTxUnwrap == UnwrapAfter(sfs[..n])
      invariant forall i :: 0 <= i < n ==> stamps[i] == Timestamp(samplesPerTti, sfs, i)
    {
      assert sfs[..n + 1][..n] == sfs[..n];
      clock.Received(FrameTx(sfs[n]), TtiTx(sfs[n]), sfs[n]);
      stamps := stamps + [clock.timestampTx];
    }
    forall i | 0 <= i < |sfs|
      ensures stamps[i] == (FirstUnits(sfs[0]) + sfs[i] - sfs[0]) * samplesPerTti
    {
      AbsoluteTimestamp(samplesPerTti, sfs, i);
    }
  }

  lemma AbsoluteTimestamp(spt: nat, sfs: seq<nat>, i: nat)
    requires InOrder(sfs) && i < |sfs|
    ensures Timestamp(spt, sfs, i) == (FirstUnits(sfs[0]) + sfs[i] - sfs[0]) * spt
  {
    FirstTimestamp(spt, sfs);
    TimestampsAdvance(spt, sfs, 0, i);
    UnitsAdvance(sfs, 0, i);
    SumOf(FirstUnits(sfs[0]), sfs[i] - sfs[0], spt);
  }

  lemma SumOf(a: int, b: int, spt: nat)
    ensures (a + b) * spt == a * spt + b * spt
  {}
}
