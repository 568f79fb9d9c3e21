/**
 Transmit bursts of the LTE tx_rf without faults: the burst flags of a TDD subframe
 pattern.
 */
module LteBurst {
  import opened CArithmetic
  import opened SlotPipeline
  import opened LateControl
  import TxBurst

  /** A radio accepts START MIDDLE* END, and nothing open in an uplink subframe. */
  function Feed(r: TxBurst.Radio, f: Flag): TxBurst.Radio {
    match (r, f)
    case (Closed, Start) => TxBurst.Open
    case (Open, Middle) => TxBurst.Open
    case (Open, End) => TxBurst.Closed
    case _ => TxBurst.Rejected
  }

  /** The radio after n subframes from subframe p on, frame after frame. */
  function After(ts: TxBurst.Pattern, p: nat, n: nat): TxBurst.Radio {
    if n == 0 then TxBurst.Closed
    else
      var r, sf := After(ts, p, n - 1), TxBurst.At(ts, p + n - 1);
      if ts[sf] == Uplink then (if r == TxBurst.Closed then r else TxBurst.Rejected)
      else Feed(r, NormalFlag(true, ts[sf], ts[TxBurst.Prev(ts, sf)]))
  }

  /** Every transmit run starts with a downlink subframe and ends in a special one. */
  ghost predicate WellFormed(ts: TxBurst.Pattern) {
    forall s :: 0 <= s < |ts| ==> WellPlaced(ts, s)
  }

  predicate WellPlaced(ts: TxBurst.Pattern, s: nat)
    requires s < |ts|
  {
    && (ts[s] == Mixed ==> ts[TxBurst.Prev(ts, s)] == Downlink && ts[TxBurst.Next(ts, s)] == Uplink)
    && (ts[s] == Downlink ==> ts[TxBurst.Next(ts, s)] != Uplink)
  }

  ghost predicate Accepted(ts: TxBurst.Pattern, p: nat) {
    forall n: nat :: After(ts, p, n) != TxBurst.Rejected
  }

  /** In a well-formed pattern a burst is open exactly after a downlink subframe. */
  lemma {:induction false} WellFormedAccepted(ts: TxBurst.Pattern, p: nat, n: nat)
    requires WellFormed(ts) && p < |ts| && ts[p] == Uplink && n >= 1
    ensures After(ts, p, n) == if ts[TxBurst.At(ts, p + n - 1)] == Downlink then TxBurst.Open else TxBurst.Closed
  {
    if n == 1 {
      DivMod(p, |ts|, 0, p);
      assert After(ts, p, 0) == TxBurst.Closed;
    } else {
      WellFormedAccepted(ts, p, n - 1);
      var k := p + n - 2;
      TxBurst.Neighbours(ts, k);
      assert WellPlaced(ts, TxBurst.At(ts, k)) && WellPlaced(ts, TxBurst.At(ts, k + 1));
    }
  }

  /** In an accepted run the radio is open exactly after a downlink subframe. */
  lemma AcceptedState(ts: TxBurst.Pattern, p: nat, n: nat)
    requires Accepted(ts, p) && n >= 1
    ensures After(ts, p, n) == if ts[TxBurst.At(ts, p + n - 1)] == Downlink then TxBurst.Open else TxBurst.Closed
  {
    assert After(ts, p, n) != TxBurst.Rejected;
    assert After(ts, p, n - 1) != TxBurst.Rejected;
  }

  lemma AcceptedPlace(ts: TxBurst.Pattern, p: nat, n: nat)
    requires Accepted(ts, p) && n >= 1
    ensures WellPlaced(ts, TxBurst.At(ts, p + n))
  {
    TxBurst.Neighbours(ts, p + n - 1);
    TxBurst.Neighbours(ts, p + n);
    AcceptedState(ts, p, n);
    AcceptedState(ts, p, n + 1);
    AcceptedState(ts, p, n + 2);
  }

  /** From an uplink subframe on, the flags of a run without faults form complete
      bursts with none open in an uplink subframe, if and only if every transmit run
      starts with a downlink subframe and ends in a special one. */
  lemma BurstGrammarIff(ts: TxBurst.Pattern, p: nat)
    requires p < |ts| && ts[p] == Uplink
    ensures Accepted(ts, p) <==> WellFormed(ts)
  {
    if WellFormed(ts) {
      forall n: nat
        ensures After(ts, p, n) != TxBurst.Rejected
      {
        if n >= 1 {
          WellFormedAccepted(ts, p, n);
        }
      }
    }
    if Accepted(ts, p) {
      forall s | 0 <= s < |ts|
        ensures WellPlaced(ts, s)
      {
        var n := s + 2 * |ts| - p;
        DivMod(p + n, |ts|, 2, s);
        AcceptedPlace(ts, p, n);
      }
    }
  }
}
