/**
 The gNB slot pipeline: ru_thread produces one job per slot on L1_tx_out,
 L1_tx_thread consumes it and forwards a receive job on resp_L1, L1_rx_thread
 consumes that and, for uplink and mixed slots, posts a completion on
 L1_rx_out.  ru_thread uses the completions to free the receive buffers, of
 which there are RU_RX_SLOT_DEPTH, indexed by slot number modulo the depth.

 Each action below is one atomic section of one thread, so a run of this
 transition system is an interleaving of the three threads and of the main
 thread's shutdown sequence.
 */
module SlotPipeline {

  const RU_RX_SLOT_DEPTH: nat := 4

  /** The three values of nr_slot_select. */
  datatype SlotType = Downlink | Uplink | Mixed

  /** What the threads read of the cell configuration.  `alwaysTransmit` stands
      for continuous_tx, the RF simulator and analog beamforming together. */
  datatype Config = Config(slotType: nat -> SlotType, alwaysTransmit: bool)

  /** Message on L1_tx_out. */
  datatype TxJob = TxJob(frame: int, slot: nat, frameRx: int, slotRx: nat, timestampTx: int)

  /** Message on resp_L1. */
  datatype RxJob = RxJob(frameRx: int, slotRx: nat, timestampTx: int)

  /** Message on L1_rx_out. */
  datatype Completion = Completion(frameRx: int, slotRx: nat)

  datatype RuThread =
    | RuLoop                  // top of the slot loop
    | RuWaiting(job: TxJob)   // inside wait_free_rx_tti, looping on L1_rx_out
    | RuFrontEnd(job: TxJob)  // the front end writes the receive buffer
    | RuEmitting(job: TxJob)  // about to push on L1_tx_out
    | RuStopped

  datatype TxThread =
    | TxIdle
    | TxHolding(job: TxJob)   // in tx_func, before the push on resp_L1
    | TxSending(job: TxJob)   // in tx_func, after it
    | TxStopped

  datatype RxThread = RxIdle | RxProcessing(job: RxJob) | RxStopped

  /** What each thread has done so far. */
  datatype Log = Log(
    emitted: seq<TxJob>,      // pushed by ru_thread
    txSeen: seq<TxJob>,       // handed to tx_func
    sent: seq<TxJob>,         // handed on to ru_tx_func
    rxSeen: seq<RxJob>,       // handed to rx_func
    posted: seq<Completion>,  // pushed by rx_func
    taken: seq<Completion>)   // pulled by wait_free_rx_tti

  datatype State = State(
    ru: RuThread,
    tx: TxThread,
    rx: RxThread,
    txQ: seq<TxJob>,          // L1_tx_out
    rxQ: seq<RxJob>,          // resp_L1
    rxOut: seq<Completion>,   // L1_rx_out
    busy: seq<bool>,          // rx_tti_busy
    exiting: bool,            // oai_exit
    aborted: nat,             // how many queues shutdown has aborted: resp_L1, L1_tx_out, L1_rx_out
    log: Log)

  datatype Action =
    | RuStart(job: TxJob) | RuPull | RuGiveUp | RuFrontEndDone | RuEmit | RuStop
    | TxPull | TxForward | TxSend | TxStop
    | RxPull | RxFinish | RxStop
    | RequestExit | AbortRxQ | AbortTxQ | AbortRxOut

  predicate HasUplink(cfg: Config, slot: nat) {
    cfg.slotType(slot) == Uplink || cfg.slotType(slot) == Mixed
  }

  predicate Transmits(cfg: Config, slot: nat) {
    cfg.slotType(slot) == Downlink || cfg.slotType(slot) == Mixed || cfg.alwaysTransmit
  }

  function Residue(slot: nat): (idx: nat)
    ensures idx < RU_RX_SLOT_DEPTH
  {
    slot % RU_RX_SLOT_DEPTH
  }

  function ToRx(j: TxJob): RxJob {
    RxJob(j.frameRx, j.slotRx, j.timestampTx)
  }

  function Init(): State {
    State(RuLoop, TxIdle, RxIdle, [], [], [], [false, false, false, false], false, 0, Log([], [], [], [], [], []))
  }

  predicate Enabled(s: State, a: Action) {
    match a
    case RuStart(job) => s.ru.RuLoop?
    case RuPull => s.ru.RuWaiting? && s.rxOut != []
    case RuGiveUp => s.ru.RuWaiting? && s.aborted >= 3
    case RuFrontEndDone => s.ru.RuFrontEnd?
    case RuEmit => s.ru.RuEmitting?
    case RuStop => s.ru.RuLoop? && s.exiting
    case TxPull => s.tx.TxIdle? && s.txQ != []
    case TxForward => s.tx.TxHolding?
    case TxSend => s.tx.TxSending?
    case TxStop => s.tx.TxIdle? && (s.exiting || s.aborted >= 2)
    case RxPull => s.rx.RxIdle? && s.rxQ != []
    case RxFinish => s.rx.RxProcessing?
    case RxStop => s.rx.RxIdle? && (s.exiting || s.aborted >= 1)
    case RequestExit => !s.exiting
    case AbortRxQ => s.exiting && s.aborted == 0
    case AbortTxQ => s.aborted == 1 && s.rx.RxStopped?
    case AbortRxOut => s.aborted == 2 && s.tx.TxStopped?
  }

  /** ru_thread from the fronthaul read to the receive front end. */
  function StartSlot(cfg: Config, s: State, job: TxJob): State
    requires |s.busy| == RU_RX_SLOT_DEPTH
  {
    var idx := Residue(job.slotRx);
    if !HasUplink(cfg, job.slotRx) then s.(ru := RuEmitting(job))
    else if s.busy[idx] then s.(ru := RuWaiting(job))
    else s.(ru := RuFrontEnd(job), busy := s.busy[idx := true])
  }

  /** One turn of the loop of wait_free_rx_tti. */
  function PullCompletion(s: State): State
    requires |s.busy| == RU_RX_SLOT_DEPTH
    requires s.ru.RuWaiting? && s.rxOut != []
  {
    var c := s.rxOut[0];
    var idx := Residue(s.ru.job.slotRx);
    var freed := s.busy[Residue(c.slotRx) := false];
    var s1 := s.(rxOut := s.rxOut[1..], log := s.log.(taken := s.log.taken + [c]));
    if Residue(c.slotRx) == idx then s1.(ru := RuFrontEnd(s.ru.job), busy := freed[idx := true])
    else s1.(busy := freed)
  }

  predicate ByRu(a: Action) {
    a.RuStart? || a.RuPull? || a.RuGiveUp? || a.RuFrontEndDone? || a.RuEmit? || a.RuStop?
  }

  predicate ByTx(a: Action) {
    a.TxPull? || a.TxForward? || a.TxSend? || a.TxStop?
  }

  predicate ByRx(a: Action) {
    a.RxPull? || a.RxFinish? || a.RxStop?
  }

  function ApplyRu(cfg: Config, s: State, a: Action): (s': State)
    requires |s.busy| == RU_RX_SLOT_DEPTH && Enabled(s, a) && ByRu(a)
    ensures |s'.busy| == RU_RX_SLOT_DEPTH
    ensures s' == s.(ru := s'.ru, txQ := s'.txQ, rxOut := s'.rxOut, busy := s'.busy,
                     log := s.log.(emitted := s'.log.emitted, taken := s'.log.taken))
  {
    match a
    case RuStart(job) => StartSlot(cfg, s, job)
    case RuPull => PullCompletion(s)
    case RuFrontEndDone => s.(ru := RuEmitting(s.ru.job))
    case RuEmit =>
      s.(ru := RuLoop,
         txQ := if s.aborted >= 2 then s.txQ else s.txQ + [s.ru.job],
         log := s.log.(emitted := s.log.emitted + [s.ru.job]))
    case _ => s.(ru := RuStopped)
  }

  function ApplyTx(cfg: Config, s: State, a: Action): (s': State)
    requires Enabled(s, a) && ByTx(a)
    ensures s' == s.(tx := s'.tx, txQ := s'.txQ, rxQ := s'.rxQ,
                     log := s.log.(txSeen := s'.log.txSeen, sent := s'.log.sent))
  {
    match a
    case TxPull =>
      s.(tx := TxHolding(s.txQ[0]), txQ := s.txQ[1..], log := s.log.(txSeen := s.log.txSeen + [s.txQ[0]]))
    case TxForward =>
      s.(tx := TxSending(s.tx.job), rxQ := if s.aborted >= 1 then s.rxQ else s.rxQ + [ToRx(s.tx.job)])
    case TxSend =>
      s.(tx := TxIdle,
         log := if Transmits(cfg, s.tx.job.slot) then s.log.(sent := s.log.sent + [s.tx.job]) else s.log)
    case TxStop => s.(tx := TxStopped)
  }

  function ApplyRx(cfg: Config, s: State, a: Action): (s': State)
    requires Enabled(s, a) && ByRx(a)
    ensures s' == s.(rx := s'.rx, rxQ := s'.rxQ, rxOut := s'.rxOut,
                     log := s.log.(rxSeen := s'.log.rxSeen, posted := s'.log.posted))
  {
    match a
    case RxPull =>
      s.(rx := RxProcessing(s.rxQ[0]), rxQ := s.rxQ[1..], log := s.log.(rxSeen := s.log.rxSeen + [s.rxQ[0]]))
    case RxFinish =>
      var c := Completion(s.rx.job.frameRx, s.rx.job.slotRx);
      if HasUplink(cfg, s.rx.job.slotRx) then
        s.(rx := RxIdle,
           rxOut := if s.aborted >= 3 then s.rxOut else s.rxOut + [c],
           log := s.log.(posted := s.log.posted + [c]))
      else s.(rx := RxIdle)
    case RxStop => s.(rx := RxStopped)
  }

  /** The main thread: oai_exit and term_gNB_Tpool. */
  function ApplyMain(s: State, a: Action): (s': State)
    requires Enabled(s, a) && !ByRu(a) && !ByTx(a) && !ByRx(a)
    ensures s' == s.(exiting := s'.exiting, aborted := s'.aborted, txQ := s'.txQ, rxQ := s'.rxQ, rxOut := s'.rxOut)
  {
    match a
    case RequestExit => s.(exiting := true)
    case AbortRxQ => s.(aborted := 1, rxQ := [])
    case AbortTxQ => s.(aborted := 2, txQ := [])
    case AbortRxOut => s.(aborted := 3, rxOut := [])
  }

  function Apply(cfg: Config, s: State, a: Action): (s': State)
    requires |s.busy| == RU_RX_SLOT_DEPTH
    requires Enabled(s, a)
    ensures |s'.busy| == RU_RX_SLOT_DEPTH
  {
    if ByRu(a) then ApplyRu(cfg, s, a)
    else if ByTx(a) then ApplyTx(cfg, s, a)
    else if ByRx(a) then ApplyRx(cfg, s, a)
    else ApplyMain(s, a)
  }

  /** `acts` is a possible run from s. */
  ghost predicate Possible(cfg: Config, s: State, acts: seq<Action>)
    decreases |acts|
  {
    |s.busy| == RU_RX_SLOT_DEPTH &&
    (acts == [] || (Enabled(s, acts[0]) && Possible(cfg, Apply(cfg, s, acts[0]), acts[1..])))
  }

  /** The state after the run `acts` from s. */
  ghost function After(cfg: Config, s: State, acts: seq<Action>): State
    requires Possible(cfg, s, acts)
    decreases |acts|
  {
    if acts == [] then s else After(cfg, Apply(cfg, s, acts[0]), acts[1..])
  }

  ghost predicate Reachable(cfg: Config, s: State) {
    exists acts :: Possible(cfg, Init(), acts) && After(cfg, Init(), acts) == s
  }
}
