/**
 Progress of the slot pipeline: wait_free_rx_tti never waits for a completion
 that cannot come, and the wait ends.
 */
module PipelineProgress {
  import opened SlotPipeline
  import opened PipelineFlow

  /** Hops still ahead of the jobs in flight and of the shutdown sequence.  Only
      ru_thread starting another slot raises it. */
  function Rank(s: State): nat {
    6 * |s.txQ| + 3 * |s.rxQ| + |s.rxOut|
    + (match s.tx case TxHolding(_) => 6 case TxSending(_) => 2 case TxIdle => 1 case TxStopped => 0)
    + (match s.rx case RxProcessing(_) => 3 case RxIdle => 1 case RxStopped => 0)
    + (match s.ru case RuWaiting(_) => 1 case _ => 0)
    + (if s.exiting then 0 else 1)
    + (if s.aborted < 3 then 3 - s.aborted else 0)
  }

  /** Every state of the run `acts` from s, its end included, has the RU waiting. */
  ghost predicate StaysWaiting(cfg: Config, s: State, acts: seq<Action>)
    requires Possible(cfg, s, acts)
    decreases |acts|
  {
    s.ru.RuWaiting? && (acts == [] || StaysWaiting(cfg, Apply(cfg, s, acts[0]), acts[1..]))
  }

  lemma StepLowersRank(cfg: Config, s: State, a: Action)
    requires |s.busy| == RU_RX_SLOT_DEPTH && s.ru.RuWaiting? && Enabled(s, a)
    requires ShutdownOk(s)
    ensures Rank(Apply(cfg, s, a)) < Rank(s)
  {
    var s' := Apply(cfg, s, a);
    match a
    case TxPull => assert |s'.txQ| == |s.txQ| - 1;
    case RxPull => assert |s'.rxQ| == |s.rxQ| - 1;
    case _ =>
  }

  /** A step that a thread takes whatever it waits for: a thread blocked in
      pullNotifiedFIFO does not see oai_exit until its queue is aborted. */
  predicate Certain(s: State, a: Action) {
    && Enabled(s, a) && !a.RequestExit?
    && (a.RxStop? ==> s.aborted >= 1)
    && (a.TxStop? ==> s.aborted >= 2)
  }

  ghost predicate CanGoOn(s: State) {
    exists a :: Certain(s, a)
  }

  /** While the RU waits, some thread can take a step. */
  lemma WaitNotStuck(cfg: Config, s: State) returns (a: Action)
    requires Inv(cfg, s) && s.ru.RuWaiting?
    ensures Certain(s, a) && !a.RuStart?
  {
    if s.rxOut != [] { return RuPull; }
    if s.aborted >= 3 { return RuGiveUp; }
    if s.tx.TxHolding? { return TxForward; }
    if s.tx.TxSending? { return TxSend; }
    if s.rx.RxProcessing? { return RxFinish; }
    if s.exiting {
      a := ShutdownStep(s);
      return;
    }
    if s.txQ != [] { return TxPull; }
    SomethingQueued(cfg, s);
    return RxPull;
  }

  /** With no thread at work, shutdown goes on. */
  lemma ShutdownStep(s: State) returns (a: Action)
    requires ShutdownOk(s) && s.exiting && s.aborted < 3
    requires !s.tx.TxHolding? && !s.tx.TxSending? && !s.rx.RxProcessing?
    ensures Certain(s, a) && !a.RuStart?
  {
    if s.aborted == 0 { return AbortRxQ; }
    if s.rx.RxIdle? { return RxStop; }
    if s.aborted == 1 { return AbortTxQ; }
    return if s.tx.TxIdle? then TxStop else AbortRxOut;
  }

  /** With every thread idle, the awaited job is in a queue. */
  lemma SomethingQueued(cfg: Config, s: State)
    requires Inv(cfg, s) && s.ru.RuWaiting? && s.aborted == 0
    requires s.rxOut == [] && s.txQ == [] && !s.tx.TxHolding? && !s.rx.RxProcessing?
    ensures s.rxQ != []
  {
    var o := Outstanding(cfg, s);
    assert s.busy[s.ru.job.slotRx % RU_RX_SLOT_DEPTH];
    var i :| 0 <= i < |o| && o[i] % RU_RX_SLOT_DEPTH == s.ru.job.slotRx % RU_RX_SLOT_DEPTH;
    if s.rxQ == [] {
      assert false;
    }
  }

  // Results -----------------------------------------------------------------------

  /** Whenever the RU waits before shutdown, exactly one job for the buffer it
      wants is in the pipeline, in one of the queues or in tx_func's or
      rx_func's hands, and some thread can move. */
  lemma WaitsForExactlyOneJob(cfg: Config, s: State)
    requires Reachable(cfg, s) && s.ru.RuWaiting? && s.aborted == 0
    ensures Count(Outstanding(cfg, s), s.ru.job.slotRx % RU_RX_SLOT_DEPTH) == 1
    ensures RuHand(cfg, s) == []
    ensures CanGoOn(s)
  {
    ReachableInv(cfg, s);
    var idx := s.ru.job.slotRx % RU_RX_SLOT_DEPTH;
    var o := Outstanding(cfg, s);
    assert s.busy[idx];
    var i :| 0 <= i < |o| && o[i] % RU_RX_SLOT_DEPTH == idx;
    CountDistinct(o, s.busy, idx, i);
    var a := WaitNotStuck(cfg, s);
  }

  /** The wait is bounded: no run keeps the RU waiting for more than Rank(s)
      steps of the other threads, and a run that has not ended the wait can go on. */
  lemma {:induction false} WaitEnds(cfg: Config, s: State, acts: seq<Action>)
    requires Inv(cfg, s) && Possible(cfg, s, acts) && StaysWaiting(cfg, s, acts)
    ensures |acts| <= Rank(s)
    ensures CanGoOn(After(cfg, s, acts))
    decreases |acts|
  {
    if acts == [] {
      var a := WaitNotStuck(cfg, s);
    } else {
      StepLowersRank(cfg, s, acts[0]);
      StepInv(cfg, s, acts[0]);
      WaitEnds(cfg, Apply(cfg, s, acts[0]), acts[1..]);
    }
  }
}
