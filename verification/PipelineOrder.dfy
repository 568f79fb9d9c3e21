/**
 Conservation and order in the slot pipeline: each stage sees a prefix of what
 the stage before it produced, and while no queue has been aborted nothing is
 lost, duplicated or reordered.
 */
module PipelineOrder {
  import opened SlotPipeline
  import opened PipelineFlow

  function ToRxs(js: seq<TxJob>): seq<RxJob> {
    seq(|js|, i requires 0 <= i < |js| => RxJob(js[i].frameRx, js[i].slotRx, js[i].timestampTx))
  }

  /** The completions owed for the receive jobs `js`: one per uplink or mixed slot. */
  function Completions(cfg: Config, js: seq<RxJob>): seq<Completion> {
    if js == [] then []
    else
      var last := js[|js| - 1];
      Completions(cfg, js[..|js| - 1])
      + (if cfg.slotType(last.slotRx) != Downlink then [Completion(last.frameRx, last.slotRx)] else [])
  }

  /** The jobs of `js` whose transmit slot goes to the RU. */
  function Transmitted(cfg: Config, js: seq<TxJob>): seq<TxJob> {
    if js == [] then []
    else
      var last := js[|js| - 1];
      Transmitted(cfg, js[..|js| - 1])
      + (if cfg.slotType(last.slot) != Uplink || cfg.alwaysTransmit then [last] else [])
  }

  /** `seen` without the job still in hand. */
  function Done<T>(seen: seq<T>, holding: bool): seq<T> {
    if holding && seen != [] then seen[..|seen| - 1] else seen
  }

  /** The jobs tx_func has pushed on resp_L1, those it has finished with, and
      those rx_func has finished with. */
  function Forwarded(s: State): seq<TxJob> {
    Done(s.log.txSeen, s.tx.TxHolding?)
  }

  function TxDone(s: State): seq<TxJob> {
    Done(s.log.txSeen, s.tx.TxHolding? || s.tx.TxSending?)
  }

  function RxDone(s: State): seq<RxJob> {
    Done(s.log.rxSeen, s.rx.RxProcessing?)
  }

  /** A queue between a producer that has pushed `made` and a consumer that has
      pulled `seen`; `intact` says it has not been aborted. */
  ghost predicate Queue<T>(made: seq<T>, seen: seq<T>, queued: seq<T>, intact: bool) {
    seen <= made && (intact ==> made == seen + queued) && (!intact ==> queued == [])
  }

  ghost predicate LastIs<T>(seen: seq<T>, job: T) {
    seen != [] && seen[|seen| - 1] == job
  }

  ghost predicate HandsInOrder(s: State) {
    && (s.tx.TxHolding? || s.tx.TxSending? ==> LastIs(s.log.txSeen, s.tx.job))
    && (s.rx.RxProcessing? ==> LastIs(s.log.rxSeen, s.rx.job))
  }

  ghost predicate QueuesInOrder(s: State) {
    && Queue(s.log.emitted, s.log.txSeen, s.txQ, s.aborted < 2)
    && Queue(ToRxs(Forwarded(s)), s.log.rxSeen, s.rxQ, s.aborted < 1)
    && Queue(s.log.posted, s.log.taken, s.rxOut, s.aborted < 3)
  }

  ghost predicate SentInOrder(cfg: Config, s: State) {
    s.log.sent == Transmitted(cfg, TxDone(s))
  }

  ghost predicate PostedInOrder(cfg: Config, s: State) {
    s.log.posted == Completions(cfg, RxDone(s))
  }

  ghost predicate Ordered(cfg: Config, s: State) {
    HandsInOrder(s) && QueuesInOrder(s) && SentInOrder(cfg, s) && PostedInOrder(cfg, s)
  }

  // Queues ------------------------------------------------------------------------

  lemma Push<T>(made: seq<T>, seen: seq<T>, queued: seq<T>, intact: bool, x: T)
    requires Queue(made, seen, queued, intact)
    ensures Queue(made + [x], seen, if intact then queued + [x] else queued, intact)
  {
    assert (seen + queued) + [x] == seen + (queued + [x]);
  }

  lemma Pull<T>(made: seq<T>, seen: seq<T>, queued: seq<T>, intact: bool)
    requires Queue(made, seen, queued, intact) && queued != []
    ensures Queue(made, seen + [queued[0]], queued[1..], intact)
  {
    assert seen + queued == (seen + [queued[0]]) + queued[1..];
  }

  lemma ToRxsAppend(a: seq<TxJob>, b: seq<TxJob>)
    ensures ToRxs(a + b) == ToRxs(a) + ToRxs(b)
  {}

  lemma ToRxsSnoc(js: seq<TxJob>, j: TxJob)
    ensures ToRxs(js + [j]) == ToRxs(js) + [ToRx(j)]
  {}

  lemma CompletionsSnoc(cfg: Config, js: seq<RxJob>, j: RxJob)
    ensures Completions(cfg, js + [j]) ==
            Completions(cfg, js) + if cfg.slotType(j.slotRx) != Downlink then [Completion(j.frameRx, j.slotRx)] else []
  {
    assert (js + [j])[..|js|] == js;
  }

  lemma TransmittedSnoc(cfg: Config, js: seq<TxJob>, j: TxJob)
    ensures Transmitted(cfg, js + [j]) ==
            Transmitted(cfg, js) + if cfg.slotType(j.slot) != Uplink || cfg.alwaysTransmit then [j] else []
  {
    assert (js + [j])[..|js|] == js;
  }

  lemma DoneLast<T>(seen: seq<T>, job: T)
    requires LastIs(seen, job)
    ensures seen == Done(seen, true) + [job]
  {}

  lemma TransmittedDone(cfg: Config, seen: seq<TxJob>, job: TxJob)
    requires LastIs(seen, job)
    ensures Transmitted(cfg, seen) ==
            Transmitted(cfg, Done(seen, true))
            + if cfg.slotType(job.slot) != Uplink || cfg.alwaysTransmit then [job] else []
  {
    DoneLast(seen, job);
    TransmittedSnoc(cfg, Done(seen, true), job);
  }

  lemma CompletionsDone(cfg: Config, seen: seq<RxJob>, job: RxJob)
    requires LastIs(seen, job)
    ensures Completions(cfg, seen) ==
            Completions(cfg, Done(seen, true))
            + if cfg.slotType(job.slotRx) != Downlink then [Completion(job.frameRx, job.slotRx)] else []
  {
    DoneLast(seen, job);
    CompletionsSnoc(cfg, Done(seen, true), job);
  }

  lemma DoneSnoc<T>(seen: seq<T>, job: T)
    ensures Done(seen + [job], true) == seen && LastIs(seen + [job], job)
  {}

  // One step ----------------------------------------------------------------------

  ghost predicate Ready(s: State, a: Action) {
    |s.busy| == RU_RX_SLOT_DEPTH && ShutdownOk(s) && Enabled(s, a)
  }

  lemma HandsStep(cfg: Config, s: State, a: Action)
    requires Ready(s, a) && HandsInOrder(s)
    ensures HandsInOrder(Apply(cfg, s, a))
  {
    if a.TxPull? {
      DoneSnoc(s.log.txSeen, s.txQ[0]);
    } else if a.RxPull? {
      DoneSnoc(s.log.rxSeen, s.rxQ[0]);
    }
  }

  lemma SentByTx(cfg: Config, s: State, a: Action)
    requires Enabled(s, a) && ByTx(a) && HandsInOrder(s) && SentInOrder(cfg, s)
    ensures SentInOrder(cfg, ApplyTx(cfg, s, a))
  {
    if a.TxPull? {
      DoneSnoc(s.log.txSeen, s.txQ[0]);
    } else if a.TxSend? {
      TransmittedDone(cfg, s.log.txSeen, s.tx.job);
    }
  }

  lemma SentStep(cfg: Config, s: State, a: Action)
    requires Ready(s, a) && HandsInOrder(s) && SentInOrder(cfg, s)
    ensures SentInOrder(cfg, Apply(cfg, s, a))
  {
    if ByTx(a) {
      SentByTx(cfg, s, a);
    }
  }

  lemma PostedByRx(cfg: Config, s: State, a: Action)
    requires Enabled(s, a) && ByRx(a) && HandsInOrder(s) && PostedInOrder(cfg, s)
    ensures PostedInOrder(cfg, ApplyRx(cfg, s, a))
  {
    if a.RxPull? {
      DoneSnoc(s.log.rxSeen, s.rxQ[0]);
    } else if a.RxFinish? {
      CompletionsDone(cfg, s.log.rxSeen, s.rx.job);
    }
  }

  lemma PostedStep(cfg: Config, s: State, a: Action)
    requires Ready(s, a) && HandsInOrder(s) && PostedInOrder(cfg, s)
    ensures PostedInOrder(cfg, Apply(cfg, s, a))
  {
    if ByRx(a) {
      PostedByRx(cfg, s, a);
    }
  }

  /** Only TxForward adds to what tx_func has forwarded. */
  lemma ForwardedStep(cfg: Config, s: State, a: Action)
    requires Enabled(s, a) && ByTx(a) && HandsInOrder(s)
    ensures var s' := ApplyTx(cfg, s, a);
            if a.TxForward? then Forwarded(s') == Forwarded(s) + [s.tx.job] else Forwarded(s') == Forwarded(s)
  {
    if a.TxPull? {
      DoneSnoc(s.log.txSeen, s.txQ[0]);
    } else if a.TxForward? {
      DoneLast(s.log.txSeen, s.tx.job);
    }
  }

  lemma TxQStep(cfg: Config, s: State, a: Action)
    requires Ready(s, a) && Queue(s.log.emitted, s.log.txSeen, s.txQ, s.aborted < 2)
    ensures var s' := Apply(cfg, s, a);
            Queue(s'.log.emitted, s'.log.txSeen, s'.txQ, s'.aborted < 2)
  {
    if a.RuEmit? {
      Push(s.log.emitted, s.log.txSeen, s.txQ, s.aborted < 2, s.ru.job);
    } else if a.TxPull? {
      Pull(s.log.emitted, s.log.txSeen, s.txQ, s.aborted < 2);
    }
  }

  lemma RxQStep(cfg: Config, s: State, a: Action)
    requires Ready(s, a) && HandsInOrder(s) && Queue(ToRxs(Forwarded(s)), s.log.rxSeen, s.rxQ, s.aborted < 1)
    ensures var s' := Apply(cfg, s, a);
            Queue(ToRxs(Forwarded(s')), s'.log.rxSeen, s'.rxQ, s'.aborted < 1)
  {
    if ByTx(a) {
      ForwardedStep(cfg, s, a);
      if a.TxForward? {
        ToRxsSnoc(Forwarded(s), s.tx.job);
        Push(ToRxs(Forwarded(s)), s.log.rxSeen, s.rxQ, s.aborted < 1, ToRx(s.tx.job));
      }
    } else if a.RxPull? {
      Pull(ToRxs(Forwarded(s)), s.log.rxSeen, s.rxQ, s.aborted < 1);
    }
  }

  lemma RxOutStep(cfg: Config, s: State, a: Action)
    requires Ready(s, a) && Queue(s.log.posted, s.log.taken, s.rxOut, s.aborted < 3)
    ensures var s' := Apply(cfg, s, a);
            Queue(s'.log.posted, s'.log.taken, s'.rxOut, s'.aborted < 3)
  {
    if a.RxFinish? {
      Push(s.log.posted, s.log.taken, s.rxOut, s.aborted < 3, Completion(s.rx.job.frameRx, s.rx.job.slotRx));
    } else if a.RuPull? {
      Pull(s.log.posted, s.log.taken, s.rxOut, s.aborted < 3);
    }
  }

  lemma {:induction false} RunOrder(cfg: Config, s: State, acts: seq<Action>)
    requires Inv(cfg, s) && Ordered(cfg, s) && Possible(cfg, s, acts)
    ensures Ordered(cfg, After(cfg, s, acts))
    decreases |acts|
  {
    if acts != [] {
      var a := acts[0];
      StepInv(cfg, s, a);
      HandsStep(cfg, s, a);
      TxQStep(cfg, s, a);
      RxQStep(cfg, s, a);
      RxOutStep(cfg, s, a);
      SentStep(cfg, s, a);
      PostedStep(cfg, s, a);
      RunOrder(cfg, Apply(cfg, s, a), acts[1..]);
    }
  }

  lemma ReachableOrder(cfg: Config, s: State)
    requires Reachable(cfg, s)
    ensures Ordered(cfg, s)
  {
    var acts :| Possible(cfg, Init(), acts) && After(cfg, Init(), acts) == s;
    InitInv(cfg);
    RunOrder(cfg, Init(), acts);
  }

  // Results -----------------------------------------------------------------------

  /** In every run, shutdown included, tx_func sees a prefix of what ru_thread
      emitted, rx_func a prefix of that, the RU transmits exactly the downlink
      part of what tx_func finished, and the completions posted are exactly the
      uplink and mixed part of what rx_func finished. */
  lemma StagesSeePrefixes(cfg: Config, s: State)
    requires Reachable(cfg, s)
    ensures s.log.txSeen <= s.log.emitted
    ensures s.log.rxSeen <= ToRxs(s.log.txSeen)
    ensures s.log.rxSeen <= ToRxs(s.log.emitted)
    ensures s.log.sent == Transmitted(cfg, TxDone(s))
    ensures s.log.posted == Completions(cfg, RxDone(s))
    ensures s.log.taken <= s.log.posted
  {
    ReachableOrder(cfg, s);
  }

  /** Before shutdown every emitted slot is accounted for, in order: handled by
      rx_func, queued for it, in tx_func's hands, or queued for tx_func; and
      every completion posted was taken or is queued. */
  lemma NothingLost(cfg: Config, s: State)
    requires Reachable(cfg, s) && s.aborted == 0
    ensures ToRxs(s.log.emitted) ==
            s.log.rxSeen + s.rxQ + (if s.tx.TxHolding? then ToRxs([s.tx.job]) else []) + ToRxs(s.txQ)
    ensures Completions(cfg, RxDone(s)) == s.log.taken + s.rxOut
  {
    ReachableOrder(cfg, s);
    if s.tx.TxHolding? {
      DoneLast(s.log.txSeen, s.tx.job);
      ToRxsSnoc(Forwarded(s), s.tx.job);
    }
    ToRxsAppend(s.log.txSeen, s.txQ);
  }

  // The jobs ru_thread starts --------------------------------------------------------

  /** The jobs of the run's RuStart actions. */
  ghost function Started(acts: seq<Action>): seq<TxJob> {
    if acts == [] then [] else (if acts[0].RuStart? then [acts[0].job] else []) + Started(acts[1..])
  }

  /** The job in ru_thread's hands. */
  function InHand(ru: RuThread): seq<TxJob> {
    match ru
    case RuWaiting(job) => [job]
    case RuFrontEnd(job) => [job]
    case RuEmitting(job) => [job]
    case _ => []
  }

  /** The jobs ru_thread has begun: emitted, and in hand. */
  function Begun(s: State): seq<TxJob> {
    s.log.emitted + InHand(s.ru)
  }

  lemma StartedStep(cfg: Config, s: State, a: Action)
    requires Ready(s, a) && !a.RuGiveUp?
    ensures Begun(Apply(cfg, s, a)) == Begun(s) + if a.RuStart? then [a.job] else []
  {}

  lemma AssocJobs(a: seq<TxJob>, b: seq<TxJob>, c: seq<TxJob>)
    ensures a + (b + c) == (a + b) + c
  {}

  /** In every run, up to the step in which ru_thread gives up, what it has emitted
      and what it has in hand are exactly the jobs it started, in order and unchanged. */
  lemma {:induction false} EmittedAreStarted(cfg: Config, s: State, acts: seq<Action>)
    requires Inv(cfg, s) && Possible(cfg, s, acts) && forall i :: 0 <= i < |acts| ==> !acts[i].RuGiveUp?
    ensures Begun(After(cfg, s, acts)) == Begun(s) + Started(acts)
    decreases |acts|
  {
    if acts != [] {
      var a, rest := acts[0], acts[1..];
      StepInv(cfg, s, a);
      StartedStep(cfg, s, a);
      EmittedAreStarted(cfg, Apply(cfg, s, a), rest);
      AssocJobs(Begun(s), if a.RuStart? then [a.job] else [], Started(rest));
    }
  }

  /** Threads between two jobs stop on an exit request before any queue is aborted. */
  lemma ExitWithoutAbort(cfg: Config)
    ensures var acts := [RequestExit, RuStop, TxStop, RxStop];
            Possible(cfg, Init(), acts) && After(cfg, Init(), acts).aborted == 0
  {
    var s1 := Apply(cfg, Init(), RequestExit);
    var s2 := Apply(cfg, s1, RuStop);
    var s3 := Apply(cfg, s2, TxStop);
    assert [RequestExit, RuStop, TxStop, RxStop][1..] == [RuStop, TxStop, RxStop];
    assert [RuStop, TxStop, RxStop][1..] == [TxStop, RxStop];
    assert [TxStop, RxStop][1..] == [RxStop] && [RxStop][1..] == [];
    assert Possible(cfg, s3, [RxStop]) && Possible(cfg, s2, [TxStop, RxStop]);
    assert Possible(cfg, s1, [RuStop, TxStop, RxStop]);
  }
}
