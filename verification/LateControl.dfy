/**
 The fail-safe for late transmissions in the LTE tx_rf: after a fault the burst
 is ended without a time specification, two opportunities are skipped, and a
 new burst is started.
 */
module LateControl {
  import opened SlotPipeline

  /** Subframe types; `Mixed` is the special subframe. */
  type SubframeType = SlotType

  /** radio_tx_burst_flag_t, as far as tx_rf uses it. */
  datatype Flag = Middle | Start | End | EndNoTimeSpec

  datatype Late = Normal | Terminate | Stop1 | Stop2 | Restart

  /** `RxFault`: rx_rf got too few samples.  `Tx`: a call of tx_rf, given the
      subframe and the one before it; `short` means that the device took fewer
      samples than offered and no separate write thread is in use. */
  datatype Event = RxFault | Tx(sf: SubframeType, prev: SubframeType, short: bool)

  function NormalFlag(tdd: bool, sf: SubframeType, prev: SubframeType): Flag {
    if tdd && sf == Downlink && prev == Uplink then Start
    else if sf == Mixed then End
    else Middle
  }

  /** The state after an event, and the flag of the burst transmitted, if any. */
  function Step(tdd: bool, late: Late, e: Event): (Late, seq<Flag>) {
    match e
    case RxFault => (Terminate, [])
    case Tx(sf, prev, short) =>
      if sf == Uplink then (late, [])
      else
        match late
        case Normal => (if short then Terminate else Normal, [NormalFlag(tdd, sf, prev)])
        case Terminate => (Stop1, [EndNoTimeSpec])
        case Stop1 => (Stop2, [])
        case Stop2 => (Restart, [])
        case Restart => (if short then Terminate else Normal, [Start])
  }

  function Sent(tdd: bool, late: Late, es: seq<Event>): seq<Flag>
    decreases |es|
  {
    if es == [] then [] else Step(tdd, late, es[0]).1 + Sent(tdd, Step(tdd, late, es[0]).0, es[1..])
  }

  function LateAfter(tdd: bool, late: Late, es: seq<Event>): Late
    decreases |es|
  {
    if es == [] then late else LateAfter(tdd, Step(tdd, late, es[0]).0, es[1..])
  }

  /** tx_rf and rx_rf on the shared variable. */
  class LateCommand {
    const tdd: bool
    var lateControl: Late

    constructor (tdd: bool)
      ensures this.tdd == tdd && lateControl == Normal
    {
      this.tdd := tdd;
      lateControl := Normal;
    }

    method RxShort()
      modifies this
      ensures lateControl == Step(tdd, old(lateControl), RxFault).0
    {
      lateControl := Terminate;
    }

    method TxRf(sf: SubframeType, prev: SubframeType, short: bool) returns (sent: seq<Flag>)
      modifies this
      ensures (lateControl, sent) == Step(tdd, old(lateControl), Tx(sf, prev, short))
    {
      sent := [];
      if sf == Downlink || sf == Mixed {
        var flags := Middle;
        if sf == Mixed {
          flags := End;
        }
        if tdd && sf == Downlink && prev == Uplink {
          flags := Start;
        }
        if lateControl != Normal {
          match lateControl {
            case Terminate =>
              flags := EndNoTimeSpec;
              lateControl := Stop1;
            case Stop1 =>
              lateControl := Stop2;
              return;
            case Stop2 =>
              lateControl := Restart;
              return;
            case Restart =>
              flags := Start;
              lateControl := Normal;
          }
        }
        sent := [flags];
        if short && lateControl == Normal {
          lateControl := Terminate;
        }
      }
    }
  }

  // Results -----------------------------------------------------------------------

  /** While the fail-safe is engaged the next burst starts anew or terminates again. */
  lemma {:induction false} FirstWhileEngaged(tdd: bool, late: Late, es: seq<Event>)
    requires late != Normal
    ensures Sent(tdd, late, es) != [] ==> Sent(tdd, late, es)[0] in {Start, EndNoTimeSpec}
    decreases |es|
  {
    if es != [] && Step(tdd, late, es[0]).1 == [] {
      FirstWhileEngaged(tdd, Step(tdd, late, es[0]).0, es[1..]);
    }
  }

  /** In every run, with faults at arbitrary points: the burst after an
      END_NO_TIME_SPEC burst is a START or another END_NO_TIME_SPEC. */
  lemma {:induction false} AfterTermination(tdd: bool, late: Late, es: seq<Event>, i: nat)
    requires i + 1 < |Sent(tdd, late, es)| && Sent(tdd, late, es)[i] == EndNoTimeSpec
    ensures Sent(tdd, late, es)[i + 1] in {Start, EndNoTimeSpec}
    decreases |es|
  {
    var (late', now) := Step(tdd, late, es[0]);
    if now == [] {
      AfterTermination(tdd, late', es[1..], i);
    } else if i == 0 {
      assert now == [EndNoTimeSpec];
      FirstWhileEngaged(tdd, late', es[1..]);
    } else {
      AfterTermination(tdd, late', es[1..], i - 1);
    }
  }

  // Faults ----------------------------------------------------------------------------

  /** An event that engages the fail-safe: a short read, or a short write of a burst
      sent normally or to start anew. */
  predicate IsFault(late: Late, e: Event) {
    e.RxFault? || (e.sf != Uplink && e.short && (late == Normal || late == Restart))
  }

  /** No event of the run is a fault when it happens. */
  ghost predicate Faultless(tdd: bool, late: Late, es: seq<Event>)
    decreases |es|
  {
    es == [] || (!IsFault(late, es[0]) && Faultless(tdd, Step(tdd, late, es[0]).0, es[1..]))
  }

  lemma {:induction false} LateAppend(tdd: bool, late: Late, a: seq<Event>, b: seq<Event>)
    ensures LateAfter(tdd, late, a + b) == LateAfter(tdd, LateAfter(tdd, late, a), b)
    decreases |a|
  {
    if a == [] {
      assert a + b == b;
    } else {
      assert (a + b)[0] == a[0] && (a + b)[1..] == a[1..] + b;
      LateAppend(tdd, Step(tdd, late, a[0]).0, a[1..], b);
    }
  }

  lemma {:induction false} SentAppend(tdd: bool, late: Late, a: seq<Event>, b: seq<Event>)
    ensures Sent(tdd, late, a + b) == Sent(tdd, late, a) + Sent(tdd, LateAfter(tdd, late, a), b)
    decreases |a|
  {
    if a == [] {
      assert a + b == b;
    } else {
      var next, now := Step(tdd, late, a[0]).0, Step(tdd, late, a[0]).1;
      assert (a + b)[0] == a[0] && (a + b)[1..] == a[1..] + b;
      SentAppend(tdd, next, a[1..], b);
      FlagsAssoc(now, Sent(tdd, next, a[1..]), Sent(tdd, LateAfter(tdd, late, a), b));
    }
  }

  lemma FlagsAssoc(a: seq<Flag>, b: seq<Flag>, c: seq<Flag>)
    ensures a + (b + c) == (a + b) + c
  {}

  lemma RunAppend(tdd: bool, late: Late, a: seq<Event>, b: seq<Event>)
    ensures LateAfter(tdd, late, a + b) == LateAfter(tdd, LateAfter(tdd, late, a), b)
    ensures Sent(tdd, late, a + b) == Sent(tdd, late, a) + Sent(tdd, LateAfter(tdd, late, a), b)
  {
    LateAppend(tdd, late, a, b);
    SentAppend(tdd, late, a, b);
  }

  /** A fault engages the fail-safe, whatever came before. */
  lemma FaultTerminates(tdd: bool, late: Late, before: seq<Event>, fault: Event)
    requires IsFault(LateAfter(tdd, late, before), fault)
    ensures LateAfter(tdd, late, before + [fault]) == Terminate
  {
    RunAppend(tdd, late, before, [fault]);
    assert [fault][1..] == [];
  }

  /** After a fault at any point of any run, whatever follows, the next burst is
      END_NO_TIME_SPEC. */
  lemma NextAfterFault(tdd: bool, late: Late, before: seq<Event>, fault: Event, es: seq<Event>)
    requires IsFault(LateAfter(tdd, late, before), fault)
    ensures var already, all := Sent(tdd, late, before + [fault]), Sent(tdd, late, before + [fault] + es);
            |all| > |already| ==> already <= all && all[|already|] == EndNoTimeSpec
  {
    FaultTerminates(tdd, late, before, fault);
    RunAppend(tdd, late, before + [fault], es);
    FirstWhenTerminating(tdd, es);
  }

  lemma {:induction false} FirstWhenTerminating(tdd: bool, es: seq<Event>)
    ensures Sent(tdd, Terminate, es) != [] ==> Sent(tdd, Terminate, es)[0] == EndNoTimeSpec
    decreases |es|
  {
    if es != [] && Step(tdd, Terminate, es[0]).1 == [] {
      FirstWhenTerminating(tdd, es[1..]);
    }
  }

  /** The flags of the downlink and special subframes of a run, with no fail-safe. */
  function NormalFlags(tdd: bool, es: seq<Event>): seq<Flag> {
    if es == [] then []
    else
      (if es[0].Tx? && es[0].sf != Uplink then [NormalFlag(tdd, es[0].sf, es[0].prev)] else [])
      + NormalFlags(tdd, es[1..])
  }

  /** Opportunities left before the fail-safe lets go. */
  function Pending(late: Late): nat {
    match late
    case Terminate => 4
    case Stop1 => 3
    case Stop2 => 2
    case Restart => 1
    case Normal => 0
  }

  /** What a run without faults transmits and where it ends depend only on its
      downlink and special subframes. */
  lemma {:induction false} FaultlessRun(tdd: bool, late: Late, es: seq<Event>)
    requires Faultless(tdd, late, es)
    ensures Sent(tdd, late, es) == Released(late, NormalFlags(tdd, es))
    ensures var n := |NormalFlags(tdd, es)|;
            Pending(LateAfter(tdd, late, es)) == if n < Pending(late) then Pending(late) - n else 0
    decreases |es|
  {
    if es != [] {
      FaultlessRun(tdd, Step(tdd, late, es[0]).0, es[1..]);
      var flags, rest := NormalFlags(tdd, es), NormalFlags(tdd, es[1..]);
      if es[0].sf != Uplink {
        assert flags[1..] == rest;
      } else {
        assert flags == rest;
      }
    }
  }

  /** The flags transmitted in place of the normal ones. */
  function Released(late: Late, flags: seq<Flag>): seq<Flag>
    decreases |flags|
  {
    if flags == [] then []
    else
      match late
      case Normal => [flags[0]] + Released(Normal, flags[1..])
      case Terminate => [EndNoTimeSpec] + Released(Stop1, flags[1..])
      case Stop1 => Released(Stop2, flags[1..])
      case Stop2 => Released(Restart, flags[1..])
      case Restart => [Start] + Released(Normal, flags[1..])
  }

  lemma {:induction false} ReleasedNormal(flags: seq<Flag>)
    ensures Released(Normal, flags) == flags
  {
    if flags != [] {
      ReleasedNormal(flags[1..]);
    }
  }

  lemma {:induction false} ReleasedStop(flags: seq<Flag>)
    ensures Released(Restart, flags) == if |flags| >= 1 then [Start] + flags[1..] else []
    ensures Released(Stop2, flags) == if |flags| >= 2 then [Start] + flags[2..] else []
    ensures Released(Stop1, flags) == if |flags| >= 3 then [Start] + flags[3..] else []
    decreases |flags|
  {
    if flags != [] {
      ReleasedNormal(flags[1..]);
      ReleasedStop(flags[1..]);
      assert |flags| >= 2 ==> flags[1..][1..] == flags[2..];
      assert |flags| >= 3 ==> flags[1..][2..] == flags[3..];
    }
  }

  lemma {:induction false} ReleasedTerminate(flags: seq<Flag>)
    ensures Released(Terminate, flags) ==
            if |flags| >= 4 then [EndNoTimeSpec, Start] + flags[4..] else if flags != [] then [EndNoTimeSpec] else []
  {
    if flags != [] {
      var rest := flags[1..];
      ReleasedStop(rest);
      if |flags| >= 4 {
        assert rest[3..] == flags[4..];
        assert [EndNoTimeSpec] + ([Start] + rest[3..]) == [EndNoTimeSpec, Start] + rest[3..];
      }
    }
  }

  /** From NORMAL, without a fault, the normal flags are sent and the state stays. */
  lemma {:induction false} NormalRun(tdd: bool, es: seq<Event>)
    requires Faultless(tdd, Normal, es)
    ensures Sent(tdd, Normal, es) == NormalFlags(tdd, es) && LateAfter(tdd, Normal, es) == Normal
  {
    FaultlessRun(tdd, Normal, es);
    ReleasedNormal(NormalFlags(tdd, es));
  }

  /** In an FDD cell, where every subframe is downlink, all normal flags are MIDDLE. */
  lemma {:induction false} FddIsMiddle(es: seq<Event>, i: nat)
    requires (forall k :: 0 <= k < |es| ==> es[k].Tx? && es[k].sf == Downlink) && i < |es|
    ensures |NormalFlags(false, es)| == |es| && NormalFlags(false, es)[i] == Middle
  {
    if |es| > 1 {
      FddIsMiddle(es[1..], if i > 0 then i - 1 else 0);
    } else {
      assert es[1..] == [];
    }
  }

  /** After a fault at any point of any run and with no further fault: one
      END_NO_TIME_SPEC, exactly two downlink or special subframes skipped, a START, and
      from then on the normal flags, whatever uplink subframes lie between. */
  lemma {:induction false} Recovery(tdd: bool, late: Late, before: seq<Event>, fault: Event, es: seq<Event>)
    requires IsFault(LateAfter(tdd, late, before), fault) && Faultless(tdd, Terminate, es)
    ensures var flags := NormalFlags(tdd, es);
            && Sent(tdd, late, before + [fault] + es) ==
               Sent(tdd, late, before + [fault])
               + (if |flags| >= 4 then [EndNoTimeSpec, Start] + flags[4..]
                  else if flags != [] then [EndNoTimeSpec] else [])
            && (LateAfter(tdd, late, before + [fault] + es) == Normal <==> |flags| >= 4)
  {
    FaultTerminates(tdd, late, before, fault);
    RunAppend(tdd, late, before + [fault], es);
    FaultlessRun(tdd, Terminate, es);
    ReleasedTerminate(NormalFlags(tdd, es));
  }
}
