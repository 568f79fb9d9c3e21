/**
 The slot pipeline in the form of the program: shared queues, the rx_tti_busy
 array, and the thread bodies that update them.  Every method is proved to be
 the corresponding step of the transition system in SlotPipeline.
 */
module PipelineThreads {
  import opened SlotPipeline
  import opened PipelineFlow
  import opened PipelineProgress

  class Gnb {
    const cfg: Config
    const rxTtiBusy: array<bool>
    var l1TxOut: seq<TxJob>
    var respL1: seq<RxJob>
    var l1RxOut: seq<Completion>
    var ru: RuThread
    var tx: TxThread
    var rx: RxThread
    var exiting: bool
    var aborted: nat
    ghost var log: Log

    ghost function View(): State
      reads this, rxTtiBusy
    {
      State(ru, tx, rx, l1TxOut, respL1, l1RxOut, rxTtiBusy[..], exiting, aborted, log)
    }

    ghost predicate Valid()
      reads this, rxTtiBusy
    {
      Inv(cfg, View())
    }

    constructor (cfg: Config)
      ensures View() == Init() && Valid() && this.cfg == cfg && fresh(rxTtiBusy)
    {
      this.cfg := cfg;
      rxTtiBusy := new bool[RU_RX_SLOT_DEPTH](_ => false);
      l1TxOut, respL1, l1RxOut := [], [], [];
      ru, tx, rx := RuLoop, TxIdle, RxIdle;
      exiting, aborted := false, 0;
      log := Log([], [], [], [], [], []);
      new;
      InitInv(cfg);
      assert rxTtiBusy[..] == [false, false, false, false];
    }

    // L1_tx_thread ------------------------------------------------------------------

    method PullTxJob()
      requires Valid() && Enabled(View(), TxPull)
      modifies this
      ensures View() == Apply(cfg, old(View()), TxPull) && Valid()
    {
      StepInv(cfg, View(), TxPull);
      var job := l1TxOut[0];
      l1TxOut := l1TxOut[1..];
      tx := TxHolding(job);
      log := log.(txSeen := log.txSeen + [job]);
    }

    method ForwardRxJob()
      requires Valid() && Enabled(View(), TxForward)
      modifies this
      ensures View() == Apply(cfg, old(View()), TxForward) && Valid()
    {
      StepInv(cfg, View(), TxForward);
      var info := tx.job;
      var syncMsg := RxJob(info.frameRx, info.slotRx, info.timestampTx);
      if aborted < 1 {
        respL1 := respL1 + [syncMsg];
      }
      tx := TxSending(info);
    }

    method SendSlot()
      requires Valid() && Enabled(View(), TxSend)
      modifies this
      ensures View() == Apply(cfg, old(View()), TxSend) && Valid()
    {
      StepInv(cfg, View(), TxSend);
      var slotType := cfg.slotType(tx.job.slot);
      if slotType == Downlink || slotType == Mixed || cfg.alwaysTransmit {
        log := log.(sent := log.sent + [tx.job]);
      }
      tx := TxIdle;
    }

    // L1_rx_thread ------------------------------------------------------------------

    method PullRxJob()
      requires Valid() && Enabled(View(), RxPull)
      modifies this
      ensures View() == Apply(cfg, old(View()), RxPull) && Valid()
    {
      StepInv(cfg, View(), RxPull);
      var job := respL1[0];
      respL1 := respL1[1..];
      rx := RxProcessing(job);
      log := log.(rxSeen := log.rxSeen + [job]);
    }

    method FinishRx()
      requires Valid() && Enabled(View(), RxFinish)
      modifies this
      ensures View() == Apply(cfg, old(View()), RxFinish) && Valid()
    {
      StepInv(cfg, View(), RxFinish);
      var slotType := cfg.slotType(rx.job.slotRx);
      if slotType == Uplink || slotType == Mixed {
        var syncMsg := Completion(rx.job.frameRx, rx.job.slotRx);
        if aborted < 3 {
          l1RxOut := l1RxOut + [syncMsg];
        }
        log := log.(posted := log.posted + [syncMsg]);
      }
      rx := RxIdle;
    }

    // Shutdown ----------------------------------------------------------------------

    method Shutdown(a: Action)
      requires Valid() && Enabled(View(), a)
      requires a in {TxStop, RxStop, RequestExit, AbortRxQ, AbortTxQ, AbortRxOut}
      modifies this
      ensures View() == Apply(cfg, old(View()), a) && Valid()
    {
      StepInv(cfg, View(), a);
      match a {
        case TxStop => tx := TxStopped;
        case RxStop => rx := RxStopped;
        case RequestExit => exiting := true;
        case AbortRxQ => aborted, respL1 := 1, [];
        case AbortTxQ => aborted, l1TxOut := 2, [];
        case AbortRxOut => aborted, l1RxOut := 3, [];
      }
    }

    // ru_thread ---------------------------------------------------------------------

    method PullRxCompletion()
      requires Valid() && Enabled(View(), RuPull)
      modifies this, rxTtiBusy
      ensures View() == Apply(cfg, old(View()), RuPull) && Valid()
    {
      StepInv(cfg, View(), RuPull);
      var idx := ru.job.slotRx % RU_RX_SLOT_DEPTH;
      var info := l1RxOut[0];
      l1RxOut := l1RxOut[1..];
      log := log.(taken := log.taken + [info]);
      rxTtiBusy[info.slotRx % RU_RX_SLOT_DEPTH] := false;
      if info.slotRx % RU_RX_SLOT_DEPTH == idx {
        rxTtiBusy[idx] := true;
        ru := RuFrontEnd(ru.job);
      }
    }

    /** One step of any thread while ru_thread waits.  That the guards cover
        every waiting state is the absence of deadlock. */
    method StepWhileWaiting() returns (ghost a: Action)
      requires Valid() && ru.RuWaiting?
      modifies this, rxTtiBusy
      ensures Enabled(old(View()), a) && View() == Apply(cfg, old(View()), a)
      ensures Valid()
    {
      var _ := WaitNotStuck(cfg, View());
      if
      case l1RxOut != [] => a := RuPull; PullRxCompletion();
      case aborted >= 3 =>
        a := RuGiveUp; StepInv(cfg, View(), a);
        ru := RuStopped;
      case tx.TxIdle? && l1TxOut != [] => a := TxPull; PullTxJob();
      case tx.TxHolding? => a := TxForward; ForwardRxJob();
      case tx.TxSending? => a := TxSend; SendSlot();
      case tx.TxIdle? && (exiting || aborted >= 2) => a := TxStop; Shutdown(TxStop);
      case rx.RxIdle? && respL1 != [] => a := RxPull; PullRxJob();
      case rx.RxProcessing? => a := RxFinish; FinishRx();
      case rx.RxIdle? && (exiting || aborted >= 1) => a := RxStop; Shutdown(RxStop);
      case exiting && aborted == 0 => a := AbortRxQ; Shutdown(AbortRxQ);
      case aborted == 1 && rx.RxStopped? => a := AbortTxQ; Shutdown(AbortTxQ);
      case aborted == 2 && tx.TxStopped? => a := AbortRxOut; Shutdown(AbortRxOut);
    }

    method BeginSlot(job: TxJob)
      requires Valid() && ru.RuLoop?
      modifies this, rxTtiBusy
      ensures View() == Apply(cfg, old(View()), RuStart(job)) && Valid()
    {
      StepInv(cfg, View(), RuStart(job));
      var slotType, idx := cfg.slotType(job.slotRx), job.slotRx % RU_RX_SLOT_DEPTH;
      if slotType != Uplink && slotType != Mixed {
        ru := RuEmitting(job);
      } else if rxTtiBusy[idx] {
        ru := RuWaiting(job);
      } else {
        rxTtiBusy[idx] := true;
        ru := RuFrontEnd(job);
      }
    }

    /** wait_free_rx_tti with every other thread running beside it: whatever
        they do, it returns, holding the buffer unless L1_rx_out was aborted. */
    method WaitFreeRxTti(job: TxJob) returns (ok: bool, ghost acts: seq<Action>)
      requires Valid() && ru.RuLoop? && cfg.slotType(job.slotRx) != Downlink
      modifies this, rxTtiBusy
      ensures Possible(cfg, old(View()), acts) && After(cfg, old(View()), acts) == View()
      ensures Valid()
      ensures ok ==> ru == RuFrontEnd(job) && rxTtiBusy[job.slotRx % RU_RX_SLOT_DEPTH]
      ensures !ok ==> ru.RuStopped? && aborted == 3
    {
      ghost var s0 := View();
      BeginSlot(job);
      acts := [RuStart(job)];
      while ru.RuWaiting?
        invariant Valid() && Possible(cfg, s0, acts) && After(cfg, s0, acts) == View()
        invariant WaitOutcome(View(), job)
        decreases Rank(View())
      {
        ghost var s := View();
        ghost var a := RequestExit;
        if {
          case !exiting => Shutdown(RequestExit);
          case true => a := StepWhileWaiting();
        }
        StepLowersRank(cfg, s, a);
        StepOutcome(cfg, s, a, job);
        Extend(cfg, s0, acts, a);
        acts := acts + [a];
      }
      ok := ru.RuFrontEnd?;
    }

    method EmitSlot()
      requires Valid() && (Enabled(View(), RuEmit) || Enabled(View(), RuFrontEndDone))
      modifies this
      ensures Valid() && ru.RuLoop?
      ensures var s := old(View());
              View() == if s.ru.RuEmitting? then Apply(cfg, s, RuEmit)
                        else Apply(cfg, Apply(cfg, s, RuFrontEndDone), RuEmit)
    {
      if ru.RuFrontEnd? {
        StepInv(cfg, View(), RuFrontEndDone);
        ru := RuEmitting(ru.job);
      }
      StepInv(cfg, View(), RuEmit);
      var resTx := ru.job;
      if aborted < 2 {
        l1TxOut := l1TxOut + [resTx];
      }
      log := log.(emitted := log.emitted + [resTx]);
      ru := RuLoop;
    }
  }

  ghost predicate WaitOutcome(s: State, job: TxJob) {
    |s.busy| == RU_RX_SLOT_DEPTH &&
    (|| s.ru == RuWaiting(job)
     || (s.ru == RuFrontEnd(job) && s.busy[job.slotRx % RU_RX_SLOT_DEPTH])
     || (s.ru.RuStopped? && s.aborted == 3))
  }

  lemma StepOutcome(cfg: Config, s: State, a: Action, job: TxJob)
    requires ShutdownOk(s) && WaitOutcome(s, job) && s.ru.RuWaiting? && Enabled(s, a)
    ensures WaitOutcome(Apply(cfg, s, a), job)
  {}

  /** A run can be continued by any step enabled at its end. */
  lemma {:induction false} Extend(cfg: Config, s: State, acts: seq<Action>, a: Action)
    requires Possible(cfg, s, acts) && Enabled(After(cfg, s, acts), a)
    ensures Possible(cfg, s, acts + [a])
    ensures |After(cfg, s, acts).busy| == RU_RX_SLOT_DEPTH
    ensures After(cfg, s, acts + [a]) == Apply(cfg, After(cfg, s, acts), a)
    decreases |acts|
  {
    if acts == [] {
      assert [a][1..] == [] && [] + [a] == [a];
    } else {
      Extend(cfg, Apply(cfg, s, acts[0]), acts[1..], a);
      assert (acts + [a])[1..] == acts[1..] + [a];
    }
  }
}
