/**
 Flow control of the slot pipeline: what rx_tti_busy guarantees in every
 interleaving.
 */
module PipelineFlow {
  import opened SlotPipeline

  function One(cfg: Config, slot: nat): seq<nat> {
    if cfg.slotType(slot) != Downlink then [slot] else []
  }

  /** The slots of `slots` that carry a receive job, in order. */
  function Ul(cfg: Config, slots: seq<nat>): seq<nat> {
    if slots == [] then [] else One(cfg, slots[0]) + Ul(cfg, slots[1..])
  }

  function TxSlots(js: seq<TxJob>): seq<nat> {
    seq(|js|, i requires 0 <= i < |js| => js[i].slotRx)
  }

  function RxSlots(js: seq<RxJob>): seq<nat> {
    seq(|js|, i requires 0 <= i < |js| => js[i].slotRx)
  }

  function DoneSlots(cs: seq<Completion>): seq<nat> {
    seq(|cs|, i requires 0 <= i < |cs| => cs[i].slotRx)
  }

  /** The receive job in each thread's hands. */
  function RuHand(cfg: Config, s: State): seq<nat> {
    match s.ru
    case RuFrontEnd(job) => [job.slotRx]
    case RuEmitting(job) => One(cfg, job.slotRx)
    case _ => []
  }

  function TxHand(cfg: Config, s: State): seq<nat> {
    if s.tx.TxHolding? then One(cfg, s.tx.job.slotRx) else []
  }

  function RxHand(cfg: Config, s: State): seq<nat> {
    if s.rx.RxProcessing? then One(cfg, s.rx.job.slotRx) else []
  }

  function Chain(a: seq<nat>, b: seq<nat>, c: seq<nat>, d: seq<nat>): seq<nat> {
    a + (b + (c + d))
  }

  function RxStage(cfg: Config, s: State): seq<nat> {
    RxHand(cfg, s) + Ul(cfg, RxSlots(s.rxQ))
  }

  function TxStage(cfg: Config, s: State): seq<nat> {
    TxHand(cfg, s) + Ul(cfg, TxSlots(s.txQ))
  }

  /** Every receive job that is queued or in a thread's hands, oldest first. */
  function Outstanding(cfg: Config, s: State): seq<nat> {
    Chain(DoneSlots(s.rxOut), RxStage(cfg, s), TxStage(cfg, s), RuHand(cfg, s))
  }

  /** How many of `slots` use receive buffer idx. */
  function Count(slots: seq<nat>, idx: nat): nat {
    if slots == [] then 0 else (if slots[0] % RU_RX_SLOT_DEPTH == idx then 1 else 0) + Count(slots[1..], idx)
  }

  /** No two outstanding jobs share a buffer, and busy marks their buffers;
      when `exact`, it marks no others. */
  ghost predicate FlowOk(slots: seq<nat>, busy: seq<bool>, exact: bool) {
    && |busy| == RU_RX_SLOT_DEPTH
    && (forall i, j :: 0 <= i < j < |slots| ==> slots[i] % RU_RX_SLOT_DEPTH != slots[j] % RU_RX_SLOT_DEPTH)
    && (forall i :: 0 <= i < |slots| ==> busy[slots[i] % RU_RX_SLOT_DEPTH])
    && (exact ==> forall idx :: 0 <= idx < |busy| && busy[idx] ==>
          exists i :: 0 <= i < |slots| && slots[i] % RU_RX_SLOT_DEPTH == idx)
  }

  ghost predicate ShutdownOk(s: State) {
    && s.aborted <= 3
    && (s.aborted >= 1 ==> s.exiting && s.rxQ == [])
    && (s.aborted >= 2 ==> s.rx.RxStopped? && s.txQ == [])
    && (s.aborted >= 3 ==> s.tx.TxStopped? && s.rxOut == [])
    && (s.rx.RxStopped? || s.tx.TxStopped? || s.ru.RuStopped? ==> s.exiting)
  }

  ghost predicate Inv(cfg: Config, s: State) {
    && ShutdownOk(s)
    && FlowOk(Outstanding(cfg, s), s.busy, s.aborted == 0)
    && (s.ru.RuFrontEnd? ==> cfg.slotType(s.ru.job.slotRx) != Downlink)
    && (s.ru.RuWaiting? ==>
          && cfg.slotType(s.ru.job.slotRx) != Downlink
          && (s.aborted == 0 ==> s.busy[s.ru.job.slotRx % RU_RX_SLOT_DEPTH]))
  }

  // Sequences of outstanding slots ------------------------------------------------

  lemma ChainShift(a: seq<nat>, b: seq<nat>, c: seq<nat>, d: seq<nat>, h: seq<nat>)
    ensures Chain(a + h, b, c, d) == Chain(a, h + b, c, d)
    ensures Chain(a, b + h, c, d) == Chain(a, b, h + c, d)
    ensures Chain(a, b, c + h, d) == Chain(a, b, c, h + d)
    ensures Chain(a, b, c, d + h) == Chain(a, b, c, d) + h
    ensures Chain(h + a, b, c, d) == h + Chain(a, b, c, d)
  {
    assert (a + h) + (b + (c + d)) == a + ((h + b) + (c + d));
    assert (b + h) + (c + d) == b + ((h + c) + d);
    assert (c + h) + d == c + (h + d);
  }

  lemma Assoc(a: seq<nat>, b: seq<nat>, c: seq<nat>)
    ensures a + (b + c) == (a + b) + c
  {}

  lemma {:induction false} UlSnoc(cfg: Config, slots: seq<nat>, x: nat)
    ensures Ul(cfg, slots + [x]) == Ul(cfg, slots) + One(cfg, x)
  {
    if slots == [] {
      assert slots + [x] == [x] && [x][1..] == [];
    } else {
      assert (slots + [x])[1..] == slots[1..] + [x];
      UlSnoc(cfg, slots[1..], x);
      assert Ul(cfg, slots + [x]) == One(cfg, slots[0]) + (Ul(cfg, slots[1..]) + One(cfg, x));
    }
  }

  lemma FlowDrop(a: seq<nat>, b: seq<nat>, c: seq<nat>, busy: seq<bool>, exact: bool, exact': bool)
    requires FlowOk(a + b + c, busy, exact)
    requires exact' ==> exact && b == []
    ensures FlowOk(a + c, busy, exact')
  {
    var before, after := a + b + c, a + c;
    forall i | 0 <= i < |after|
      ensures after[i] == before[if i < |a| then i else i + |b|]
    {}
    if exact' {
      assert after == before;
    }
  }

  lemma FlowTake(slots: seq<nat>, busy: seq<bool>, exact: bool)
    requires slots != [] && FlowOk(slots, busy, exact)
    ensures FlowOk(slots[1..], busy[slots[0] % RU_RX_SLOT_DEPTH := false], exact)
  {
    var rest, freed := slots[1..], busy[slots[0] % RU_RX_SLOT_DEPTH := false];
    forall i | 0 <= i < |rest|
      ensures rest[i] == slots[i + 1]
    {}
    if exact {
      forall idx | 0 <= idx < |freed| && freed[idx]
        ensures exists i :: 0 <= i < |rest| && rest[i] % RU_RX_SLOT_DEPTH == idx
      {
        var i :| 0 <= i < |slots| && slots[i] % RU_RX_SLOT_DEPTH == idx;
        assert rest[i - 1] == slots[i];
      }
    }
  }

  lemma FlowAdd(slots: seq<nat>, busy: seq<bool>, exact: bool, slot: nat)
    requires FlowOk(slots, busy, exact) && !busy[slot % RU_RX_SLOT_DEPTH]
    ensures FlowOk(slots + [slot], busy[slot % RU_RX_SLOT_DEPTH := true], exact)
  {
    var more, taken := slots + [slot], busy[slot % RU_RX_SLOT_DEPTH := true];
    if exact {
      forall idx | 0 <= idx < |taken| && taken[idx]
        ensures exists i :: 0 <= i < |more| && more[i] % RU_RX_SLOT_DEPTH == idx
      {
        if idx == slot % RU_RX_SLOT_DEPTH {
          assert more[|slots|] % RU_RX_SLOT_DEPTH == idx;
        } else {
          var i :| 0 <= i < |slots| && slots[i] % RU_RX_SLOT_DEPTH == idx;
          assert more[i] == slots[i];
        }
      }
    }
  }

  /** Five slots share a buffer somewhere. */
  lemma Pigeonhole(slots: seq<nat>) returns (i: nat, j: nat)
    requires |slots| > RU_RX_SLOT_DEPTH
    ensures i < j < |slots| && slots[i] % RU_RX_SLOT_DEPTH == slots[j] % RU_RX_SLOT_DEPTH
  {
    var a, b, c, d, e := slots[0] % 4, slots[1] % 4, slots[2] % 4, slots[3] % 4, slots[4] % 4;
    if a == b { return 0, 1; }
    if a == c || b == c { return if a == c then 0 else 1, 2; }
    if a == d || b == d || c == d { return if a == d then 0 else if b == d then 1 else 2, 3; }
    return if a == e then 0 else if b == e then 1 else if c == e then 2 else 3, 4;
  }

  /** Four buffers, so at most four outstanding jobs. */
  lemma FlowBound(slots: seq<nat>, busy: seq<bool>, exact: bool)
    requires FlowOk(slots, busy, exact)
    ensures |slots| <= RU_RX_SLOT_DEPTH
  {
    if |slots| > RU_RX_SLOT_DEPTH {
      var i, j := Pigeonhole(slots);
    }
  }

  lemma {:induction false} CountAppend(a: seq<nat>, b: seq<nat>, idx: nat)
    ensures Count(a + b, idx) == Count(a, idx) + Count(b, idx)
  {
    if a == [] {
      assert a + b == b;
    } else {
      assert (a + b)[1..] == a[1..] + b;
      CountAppend(a[1..], b, idx);
    }
  }

  lemma {:induction false} CountAbsent(slots: seq<nat>, idx: nat)
    requires forall i :: 0 <= i < |slots| ==> slots[i] % RU_RX_SLOT_DEPTH != idx
    ensures Count(slots, idx) == 0
  {
    if slots != [] {
      CountAbsent(slots[1..], idx);
    }
  }

  /** Among slots with distinct residues a residue occurs once or not at all. */
  lemma CountDistinct(slots: seq<nat>, busy: seq<bool>, idx: nat, i: nat)
    requires FlowOk(slots, busy, false)
    requires i < |slots| && slots[i] % RU_RX_SLOT_DEPTH == idx
    ensures Count(slots, idx) == 1
  {
    var a, b := slots[..i], slots[i + 1..];
    assert slots == a + ([slots[i]] + b);
    CountAppend(a, [slots[i]] + b, idx);
    CountAppend([slots[i]], b, idx);
    CountAbsent(a, idx);
    CountAbsent(b, idx);
  }

  // One step ----------------------------------------------------------------------

  lemma FlowEmpty()
    ensures FlowOk([], [false, false, false, false], true)
  {}

  lemma InitInv(cfg: Config)
    ensures Inv(cfg, Init())
  {
    FlowEmpty();
    assert Outstanding(cfg, Init()) == [];
  }

  lemma EmitMoves(cfg: Config, s: State)
    requires Enabled(s, RuEmit) && |s.busy| == RU_RX_SLOT_DEPTH && s.aborted < 2
    ensures Outstanding(cfg, Apply(cfg, s, RuEmit)) == Outstanding(cfg, s)
  {
    var s' := Apply(cfg, s, RuEmit);
    var slot := s.ru.job.slotRx;
    assert TxSlots(s'.txQ) == TxSlots(s.txQ) + [slot];
    UlSnoc(cfg, TxSlots(s.txQ), slot);
    assert TxStage(cfg, s') == TxStage(cfg, s) + One(cfg, slot);
  }

  lemma TxPullMoves(cfg: Config, s: State)
    requires Enabled(s, TxPull) && |s.busy| == RU_RX_SLOT_DEPTH
    ensures Outstanding(cfg, Apply(cfg, s, TxPull)) == Outstanding(cfg, s)
  {
    var s' := Apply(cfg, s, TxPull);
    assert TxSlots(s.txQ)[1..] == TxSlots(s'.txQ);
    assert TxStage(cfg, s') == TxStage(cfg, s);
  }

  lemma TxForwardMoves(cfg: Config, s: State)
    requires Enabled(s, TxForward) && |s.busy| == RU_RX_SLOT_DEPTH && s.aborted < 1
    ensures Outstanding(cfg, Apply(cfg, s, TxForward)) == Outstanding(cfg, s)
  {
    var s' := Apply(cfg, s, TxForward);
    var h, q := TxHand(cfg, s), Ul(cfg, TxSlots(s.txQ));
    assert RxSlots(s'.rxQ) == RxSlots(s.rxQ) + [s.tx.job.slotRx];
    UlSnoc(cfg, RxSlots(s.rxQ), s.tx.job.slotRx);
    Assoc(RxHand(cfg, s), Ul(cfg, RxSlots(s.rxQ)), h);
    assert TxStage(cfg, s') == q;
    ChainShift(DoneSlots(s.rxOut), RxStage(cfg, s), q, RuHand(cfg, s), h);
  }

  lemma RxPullMoves(cfg: Config, s: State)
    requires Enabled(s, RxPull) && |s.busy| == RU_RX_SLOT_DEPTH
    ensures Outstanding(cfg, Apply(cfg, s, RxPull)) == Outstanding(cfg, s)
  {
    var s' := Apply(cfg, s, RxPull);
    assert RxSlots(s.rxQ)[1..] == RxSlots(s'.rxQ);
    assert RxStage(cfg, s') == RxStage(cfg, s);
  }

  lemma RxFinishMoves(cfg: Config, s: State)
    requires Enabled(s, RxFinish) && |s.busy| == RU_RX_SLOT_DEPTH && s.aborted < 3
    ensures Outstanding(cfg, Apply(cfg, s, RxFinish)) == Outstanding(cfg, s)
  {
    var s' := Apply(cfg, s, RxFinish);
    var h, q := RxHand(cfg, s), Ul(cfg, RxSlots(s.rxQ));
    assert DoneSlots(s'.rxOut) == DoneSlots(s.rxOut) + h && RxStage(cfg, s') == q;
    ChainShift(DoneSlots(s.rxOut), q, TxStage(cfg, s), RuHand(cfg, s), h);
  }

  lemma ChainLast(a: seq<nat>, b: seq<nat>, c: seq<nat>, h: seq<nat>)
    ensures Chain(a, b, c, h) == Chain(a, b, c, []) + h
  {
    assert c + [] == c;
    assert a + (b + (c + h)) == (a + (b + c)) + h;
  }

  lemma ChainFirst(x: nat, a: seq<nat>, b: seq<nat>)
    ensures ([x] + a) + b == [x] + (a + b)
    ensures ([x] + (a + b))[1..] == a + b
  {}

  lemma HandMoves(cfg: Config, s: State, s': State)
    requires s' == s.(ru := s'.ru, busy := s'.busy) && RuHand(cfg, s) == []
    ensures Outstanding(cfg, s') == Outstanding(cfg, s) + RuHand(cfg, s')
  {
    ChainLast(DoneSlots(s.rxOut), RxStage(cfg, s), TxStage(cfg, s), RuHand(cfg, s'));
  }

  lemma PullMoves(cfg: Config, s: State)
    requires Enabled(s, RuPull) && |s.busy| == RU_RX_SLOT_DEPTH
    ensures var o, s' := Outstanding(cfg, s), PullCompletion(s);
            o != [] && o[0] == s.rxOut[0].slotRx && Outstanding(cfg, s') == o[1..] + RuHand(cfg, s')
  {
    var s' := PullCompletion(s);
    var first, rest := s.rxOut[0].slotRx, DoneSlots(s'.rxOut);
    assert DoneSlots(s.rxOut) == [first] + rest;
    ChainFirst(first, rest, RxStage(cfg, s) + (TxStage(cfg, s) + []));
    ChainLast(rest, RxStage(cfg, s), TxStage(cfg, s), RuHand(cfg, s'));
  }

  lemma FlowSame(o: seq<nat>, busy: seq<bool>, exact: bool)
    requires FlowOk(o, busy, exact)
    ensures FlowOk(o + [], busy, exact)
  {
    assert o + [] == o;
  }

  lemma StartStep(cfg: Config, s: State, job: TxJob)
    requires Inv(cfg, s) && Enabled(s, RuStart(job))
    ensures Inv(cfg, StartSlot(cfg, s, job))
  {
    HandMoves(cfg, s, StartSlot(cfg, s, job));
    if cfg.slotType(job.slotRx) != Downlink && !s.busy[job.slotRx % RU_RX_SLOT_DEPTH] {
      FlowAdd(Outstanding(cfg, s), s.busy, s.aborted == 0, job.slotRx);
    } else {
      FlowSame(Outstanding(cfg, s), s.busy, s.aborted == 0);
    }
  }

  /** What taking completion o[0] does to the flow: its buffer is free, and is at
      once taken again when it is the one waited for. */
  lemma FlowPull(o: seq<nat>, busy: seq<bool>, exact: bool, slot: nat)
    requires o != [] && FlowOk(o, busy, exact)
    ensures var freed := busy[o[0] % RU_RX_SLOT_DEPTH := false];
            if o[0] % RU_RX_SLOT_DEPTH == slot % RU_RX_SLOT_DEPTH then
              FlowOk(o[1..] + [slot], freed[slot % RU_RX_SLOT_DEPTH := true], exact)
            else FlowOk(o[1..] + [], freed, exact)
  {
    FlowTake(o, busy, exact);
    var freed := busy[o[0] % RU_RX_SLOT_DEPTH := false];
    if o[0] % RU_RX_SLOT_DEPTH == slot % RU_RX_SLOT_DEPTH {
      FlowAdd(o[1..], freed, exact, slot);
    } else {
      FlowSame(o[1..], freed, exact);
    }
  }

  lemma PullStep(cfg: Config, s: State)
    requires Inv(cfg, s) && Enabled(s, RuPull)
    ensures Inv(cfg, PullCompletion(s))
  {
    PullMoves(cfg, s);
    FlowPull(Outstanding(cfg, s), s.busy, s.aborted == 0, s.ru.job.slotRx);
  }

  lemma LoseAt(a: seq<nat>, lost: seq<nat>, c: seq<nat>, busy: seq<bool>, exact: bool)
    requires FlowOk(a + (lost + c), busy, exact)
    ensures FlowOk(a + c, busy, false)
  {
    assert a + (lost + c) == a + lost + c;
    FlowDrop(a, lost, c, busy, exact, false);
  }

  /** Losing part of a stage of the chain keeps the flow in order. */
  lemma LoseFirst(a: seq<nat>, b: seq<nat>, c: seq<nat>, d: seq<nat>, busy: seq<bool>, exact: bool)
    requires FlowOk(Chain(a, b, c, d), busy, exact)
    ensures FlowOk(Chain([], b, c, d), busy, false)
  {
    var rest := b + (c + d);
    assert [] + (a + rest) == a + rest;
    LoseAt([], a, rest, busy, exact);
  }

  lemma LoseSecond(a: seq<nat>, b: seq<nat>, lost: seq<nat>, c: seq<nat>, d: seq<nat>, busy: seq<bool>, exact: bool)
    requires FlowOk(Chain(a, b + lost, c, d), busy, exact)
    ensures FlowOk(Chain(a, b, c, d), busy, false)
  {
    var rest := c + d;
    assert a + ((b + lost) + rest) == (a + b) + (lost + rest);
    LoseAt(a + b, lost, rest, busy, exact);
    assert (a + b) + rest == a + (b + rest);
  }

  lemma LoseThird(a: seq<nat>, b: seq<nat>, c: seq<nat>, lost: seq<nat>, d: seq<nat>, busy: seq<bool>, exact: bool)
    requires FlowOk(Chain(a, b, c + lost, d), busy, exact)
    ensures FlowOk(Chain(a, b, c, d), busy, false)
  {
    assert a + (b + ((c + lost) + d)) == (a + (b + c)) + (lost + d);
    LoseAt(a + (b + c), lost, d, busy, exact);
    assert (a + (b + c)) + d == a + (b + (c + d));
  }

  lemma LoseThirdHead(a: seq<nat>, b: seq<nat>, lost: seq<nat>, c: seq<nat>, d: seq<nat>, busy: seq<bool>, exact: bool)
    requires FlowOk(Chain(a, b, lost + c, d), busy, exact)
    ensures FlowOk(Chain(a, b, c, d), busy, false)
  {
    assert a + (b + ((lost + c) + d)) == (a + b) + (lost + (c + d));
    LoseAt(a + b, lost, c + d, busy, exact);
    assert (a + b) + (c + d) == a + (b + (c + d));
  }

  lemma LoseLast(a: seq<nat>, b: seq<nat>, c: seq<nat>, d: seq<nat>, busy: seq<bool>, exact: bool)
    requires FlowOk(Chain(a, b, c, d), busy, exact)
    ensures FlowOk(Chain(a, b, c, []), busy, false)
  {
    var front := a + (b + c);
    assert a + (b + (c + d)) == front + (d + []);
    LoseAt(front, d, [], busy, exact);
    assert front + [] == a + (b + (c + []));
  }

  // What each loss leaves

  lemma RuEmitLoses(cfg: Config, s: State)
    requires Enabled(s, RuEmit) && |s.busy| == RU_RX_SLOT_DEPTH && s.aborted >= 2
    ensures Outstanding(cfg, Apply(cfg, s, RuEmit)) == Chain(DoneSlots(s.rxOut), RxStage(cfg, s), TxStage(cfg, s), [])
  {}

  lemma TxForwardLoses(cfg: Config, s: State)
    requires Enabled(s, TxForward) && |s.busy| == RU_RX_SLOT_DEPTH && s.aborted >= 1
    ensures Outstanding(cfg, Apply(cfg, s, TxForward)) ==
            Chain(DoneSlots(s.rxOut), RxStage(cfg, s), Ul(cfg, TxSlots(s.txQ)), RuHand(cfg, s))
  {
    assert TxStage(cfg, Apply(cfg, s, TxForward)) == Ul(cfg, TxSlots(s.txQ));
  }

  lemma AbortRxQLoses(cfg: Config, s: State)
    requires Enabled(s, AbortRxQ) && |s.busy| == RU_RX_SLOT_DEPTH
    ensures Outstanding(cfg, Apply(cfg, s, AbortRxQ)) ==
            Chain(DoneSlots(s.rxOut), RxHand(cfg, s), TxStage(cfg, s), RuHand(cfg, s))
  {
    assert RxStage(cfg, Apply(cfg, s, AbortRxQ)) == RxHand(cfg, s);
  }

  lemma AbortTxQLoses(cfg: Config, s: State)
    requires Enabled(s, AbortTxQ) && |s.busy| == RU_RX_SLOT_DEPTH
    ensures Outstanding(cfg, Apply(cfg, s, AbortTxQ)) ==
            Chain(DoneSlots(s.rxOut), RxStage(cfg, s), TxHand(cfg, s), RuHand(cfg, s))
  {
    assert TxStage(cfg, Apply(cfg, s, AbortTxQ)) == TxHand(cfg, s);
  }

  lemma AbortRxOutLoses(cfg: Config, s: State)
    requires Enabled(s, AbortRxOut) && |s.busy| == RU_RX_SLOT_DEPTH
    ensures Outstanding(cfg, Apply(cfg, s, AbortRxOut)) == Chain([], RxStage(cfg, s), TxStage(cfg, s), RuHand(cfg, s))
  {}

  /** A push on an aborted queue loses the job, and aborting a queue the jobs in it. */
  predicate Loses(s: State, a: Action) {
    || (a.RuEmit? && s.aborted >= 2) || (a.TxForward? && s.aborted >= 1)
    || a.AbortRxQ? || a.AbortTxQ? || a.AbortRxOut?
  }

  lemma LoseStep(cfg: Config, s: State, a: Action)
    requires Inv(cfg, s) && Enabled(s, a)
    requires Loses(s, a)
    ensures FlowOk(Outstanding(cfg, Apply(cfg, s, a)), s.busy, false)
  {
    var done, rxs, txs, ruh := DoneSlots(s.rxOut), RxStage(cfg, s), TxStage(cfg, s), RuHand(cfg, s);
    var exact := s.aborted == 0;
    match a
    case RuEmit =>
      RuEmitLoses(cfg, s);
      LoseLast(done, rxs, txs, ruh, s.busy, exact);
    case TxForward =>
      TxForwardLoses(cfg, s);
      LoseThirdHead(done, rxs, TxHand(cfg, s), Ul(cfg, TxSlots(s.txQ)), ruh, s.busy, exact);
    case AbortRxQ =>
      AbortRxQLoses(cfg, s);
      LoseSecond(done, RxHand(cfg, s), Ul(cfg, RxSlots(s.rxQ)), txs, ruh, s.busy, exact);
    case AbortTxQ =>
      AbortTxQLoses(cfg, s);
      LoseThird(done, rxs, TxHand(cfg, s), Ul(cfg, TxSlots(s.txQ)), ruh, s.busy, exact);
    case AbortRxOut =>
      AbortRxOutLoses(cfg, s);
      LoseFirst(done, rxs, txs, ruh, s.busy, exact);
  }

  lemma LoseInv(cfg: Config, s: State, a: Action)
    requires Inv(cfg, s) && Enabled(s, a)
    requires Loses(s, a)
    ensures Inv(cfg, Apply(cfg, s, a))
  {
    LoseStep(cfg, s, a);
  }

  /** The steps that leave every receive job where it is. */
  lemma QuietStep(cfg: Config, s: State, a: Action)
    requires Inv(cfg, s) && Enabled(s, a)
    requires a.RuGiveUp? || a.RuFrontEndDone? || a.RuStop? || a.TxSend? || a.TxStop? || a.RxStop? || a.RequestExit?
    ensures Inv(cfg, Apply(cfg, s, a))
  {
    var s' := Apply(cfg, s, a);
    assert RuHand(cfg, s') == RuHand(cfg, s);
    assert TxStage(cfg, s') == TxStage(cfg, s);
    assert RxStage(cfg, s') == RxStage(cfg, s);
  }

  lemma RuEmitStep(cfg: Config, s: State)
    requires Inv(cfg, s) && Enabled(s, RuEmit) && s.aborted < 2
    ensures Inv(cfg, Apply(cfg, s, RuEmit))
  {
    EmitMoves(cfg, s);
  }

  lemma TxPullStep(cfg: Config, s: State)
    requires Inv(cfg, s) && Enabled(s, TxPull)
    ensures Inv(cfg, Apply(cfg, s, TxPull))
  {
    TxPullMoves(cfg, s);
  }

  lemma TxForwardStep(cfg: Config, s: State)
    requires Inv(cfg, s) && Enabled(s, TxForward) && s.aborted < 1
    ensures Inv(cfg, Apply(cfg, s, TxForward))
  {
    TxForwardMoves(cfg, s);
  }

  lemma RxPullStep(cfg: Config, s: State)
    requires Inv(cfg, s) && Enabled(s, RxPull)
    ensures Inv(cfg, Apply(cfg, s, RxPull))
  {
    RxPullMoves(cfg, s);
  }

  lemma RxFinishStep(cfg: Config, s: State)
    requires Inv(cfg, s) && Enabled(s, RxFinish)
    ensures Inv(cfg, Apply(cfg, s, RxFinish))
  {
    RxFinishMoves(cfg, s);
  }

  lemma StepInv(cfg: Config, s: State, a: Action)
    requires Inv(cfg, s) && Enabled(s, a)
    ensures Inv(cfg, Apply(cfg, s, a))
  {
    match a
    case RuStart(job) => StartStep(cfg, s, job);
    case RuPull => PullStep(cfg, s);
    case RuGiveUp => QuietStep(cfg, s, a);
    case RuFrontEndDone => QuietStep(cfg, s, a);
    case RuEmit => if s.aborted < 2 { RuEmitStep(cfg, s); } else { LoseInv(cfg, s, a); }
    case RuStop => QuietStep(cfg, s, a);
    case TxPull => TxPullStep(cfg, s);
    case TxForward => if s.aborted < 1 { TxForwardStep(cfg, s); } else { LoseInv(cfg, s, a); }
    case TxSend => QuietStep(cfg, s, a);
    case TxStop => QuietStep(cfg, s, a);
    case RxPull => RxPullStep(cfg, s);
    case RxFinish => RxFinishStep(cfg, s);
    case RxStop => QuietStep(cfg, s, a);
    case RequestExit => QuietStep(cfg, s, a);
    case AbortRxQ => LoseInv(cfg, s, a);
    case AbortTxQ => LoseInv(cfg, s, a);
    case AbortRxOut => LoseInv(cfg, s, a);
  }

  lemma {:induction false} RunInv(cfg: Config, s: State, acts: seq<Action>)
    requires Inv(cfg, s) && Possible(cfg, s, acts)
    ensures Inv(cfg, After(cfg, s, acts))
    decreases |acts|
  {
    if acts != [] {
      StepInv(cfg, s, acts[0]);
      RunInv(cfg, Apply(cfg, s, acts[0]), acts[1..]);
    }
  }

  lemma ReachableInv(cfg: Config, s: State)
    requires Reachable(cfg, s)
    ensures Inv(cfg, s)
  {
    var acts :| Possible(cfg, Init(), acts) && After(cfg, Init(), acts) == s;
    InitInv(cfg);
    RunInv(cfg, Init(), acts);
  }

  // Results -----------------------------------------------------------------------

  /** Until shutdown aborts a queue, the receive jobs for buffer idx over all
      queues and all thread hands number exactly one if the buffer is marked
      busy and none otherwise; during shutdown, at most that. */
  lemma BusyCountsJobs(cfg: Config, s: State, idx: nat)
    requires Reachable(cfg, s) && idx < RU_RX_SLOT_DEPTH
    ensures |s.busy| == RU_RX_SLOT_DEPTH
    ensures var n := Count(DoneSlots(s.rxOut), idx) + Count(RxHand(cfg, s), idx) + Count(Ul(cfg, RxSlots(s.rxQ)), idx)
                     + Count(TxHand(cfg, s), idx) + Count(Ul(cfg, TxSlots(s.txQ)), idx) + Count(RuHand(cfg, s), idx);
            && n <= (if s.busy[idx] then 1 else 0)
            && (s.aborted == 0 ==> n == (if s.busy[idx] then 1 else 0))
  {
    ReachableInv(cfg, s);
    var rxq, txq := Ul(cfg, RxSlots(s.rxQ)), Ul(cfg, TxSlots(s.txQ));
    CountAppend(RxHand(cfg, s), rxq, idx);
    CountAppend(TxHand(cfg, s), txq, idx);
    CountAppend(TxStage(cfg, s), RuHand(cfg, s), idx);
    CountAppend(RxStage(cfg, s), TxStage(cfg, s) + RuHand(cfg, s), idx);
    CountAppend(DoneSlots(s.rxOut), RxStage(cfg, s) + (TxStage(cfg, s) + RuHand(cfg, s)), idx);
    var o := Outstanding(cfg, s);
    if i :| 0 <= i < |o| && o[i] % RU_RX_SLOT_DEPTH == idx {
      CountDistinct(o, s.busy, idx, i);
    } else {
      CountAbsent(o, idx);
    }
  }

  /** At most RU_RX_SLOT_DEPTH receive jobs are ever in flight, and L1_rx_out
      never grows beyond that. */
  lemma AtMostDepthInFlight(cfg: Config, s: State)
    requires Reachable(cfg, s)
    ensures |Outstanding(cfg, s)| <= RU_RX_SLOT_DEPTH
    ensures |s.rxOut| <= RU_RX_SLOT_DEPTH
  {
    ReachableInv(cfg, s);
    FlowBound(Outstanding(cfg, s), s.busy, s.aborted == 0);
  }

  /** A receive job for buffer idx: an uplink or mixed slot with that number modulo
      the depth. */
  predicate ForBuffer(cfg: Config, slot: nat, idx: nat) {
    cfg.slotType(slot) != Downlink && slot % RU_RX_SLOT_DEPTH == idx
  }

  /** A receive job for buffer idx, or its completion, is queued or in the hands of
      tx_func or rx_func. */
  ghost predicate InFlight(cfg: Config, s: State, idx: nat) {
    || (exists i :: 0 <= i < |s.rxOut| && s.rxOut[i].slotRx % RU_RX_SLOT_DEPTH == idx)
    || (s.rx.RxProcessing? && ForBuffer(cfg, s.rx.job.slotRx, idx))
    || (exists i :: 0 <= i < |s.rxQ| && ForBuffer(cfg, s.rxQ[i].slotRx, idx))
    || (s.tx.TxHolding? && ForBuffer(cfg, s.tx.job.slotRx, idx))
    || (exists i :: 0 <= i < |s.txQ| && ForBuffer(cfg, s.txQ[i].slotRx, idx))
  }

  /** The jobs beyond ru_thread's hands. */
  function Others(cfg: Config, s: State): seq<nat> {
    Chain(DoneSlots(s.rxOut), RxStage(cfg, s), TxStage(cfg, s), [])
  }

  lemma InFlightListed(cfg: Config, s: State, idx: nat) returns (x: nat)
    requires InFlight(cfg, s, idx)
    ensures x in Others(cfg, s) && x % RU_RX_SLOT_DEPTH == idx
  {
    if i :| 0 <= i < |s.rxOut| && s.rxOut[i].slotRx % RU_RX_SLOT_DEPTH == idx {
      x := s.rxOut[i].slotRx;
      assert DoneSlots(s.rxOut)[i] == x;
    } else if s.rx.RxProcessing? && ForBuffer(cfg, s.rx.job.slotRx, idx) {
      x := s.rx.job.slotRx;
      assert RxHand(cfg, s)[0] == x;
    } else if i :| 0 <= i < |s.rxQ| && ForBuffer(cfg, s.rxQ[i].slotRx, idx) {
      x := s.rxQ[i].slotRx;
      UlKeeps(cfg, RxSlots(s.rxQ), i);
    } else if s.tx.TxHolding? && ForBuffer(cfg, s.tx.job.slotRx, idx) {
      x := s.tx.job.slotRx;
      assert TxHand(cfg, s)[0] == x;
    } else {
      var i :| 0 <= i < |s.txQ| && ForBuffer(cfg, s.txQ[i].slotRx, idx);
      x := s.txQ[i].slotRx;
      UlKeeps(cfg, TxSlots(s.txQ), i);
    }
    ChainHas(DoneSlots(s.rxOut), RxStage(cfg, s), TxStage(cfg, s), x);
  }

  lemma ChainHas(a: seq<nat>, b: seq<nat>, c: seq<nat>, x: nat)
    ensures x in Chain(a, b, c, []) <==> x in a || x in b || x in c
  {}

  lemma ListedInFlight(cfg: Config, s: State, x: nat)
    requires x in Others(cfg, s)
    ensures InFlight(cfg, s, x % RU_RX_SLOT_DEPTH)
  {
    ChainHas(DoneSlots(s.rxOut), RxStage(cfg, s), TxStage(cfg, s), x);
    if x in DoneSlots(s.rxOut) {
      var i :| 0 <= i < |s.rxOut| && DoneSlots(s.rxOut)[i] == x;
    } else if x in Ul(cfg, RxSlots(s.rxQ)) {
      var i := UlOnly(cfg, RxSlots(s.rxQ), x);
      assert ForBuffer(cfg, s.rxQ[i].slotRx, x % RU_RX_SLOT_DEPTH);
    } else if x in Ul(cfg, TxSlots(s.txQ)) {
      var i := UlOnly(cfg, TxSlots(s.txQ), x);
      assert ForBuffer(cfg, s.txQ[i].slotRx, x % RU_RX_SLOT_DEPTH);
    }
  }

  /** While the RU front end writes the receive buffer of slot a, no queued message,
      and no job in the hands of tx_func or rx_func, is for a slot congruent to a
      modulo the depth. */
  lemma FrontEndOwnsBuffer(cfg: Config, s: State)
    requires Reachable(cfg, s) && s.ru.RuFrontEnd?
    ensures !InFlight(cfg, s, s.ru.job.slotRx % RU_RX_SLOT_DEPTH)
  {
    ReachableInv(cfg, s);
    var slot := s.ru.job.slotRx;
    ChainLast(DoneSlots(s.rxOut), RxStage(cfg, s), TxStage(cfg, s), [slot]);
    LastIsDistinct(Others(cfg, s), slot, s.busy, s.aborted == 0);
    if InFlight(cfg, s, slot % RU_RX_SLOT_DEPTH) {
      var x := InFlightListed(cfg, s, slot % RU_RX_SLOT_DEPTH);
    }
  }

  /** Before shutdown, ru_thread waits on starting an uplink or mixed slot if and only
      if a job for a slot congruent to it modulo the depth is in flight; otherwise the
      front end starts at once. */
  lemma StartWaitsIff(cfg: Config, s: State, job: TxJob)
    requires Reachable(cfg, s) && s.ru.RuLoop? && s.aborted == 0 && cfg.slotType(job.slotRx) != Downlink
    ensures |s.busy| == RU_RX_SLOT_DEPTH
    ensures var ru := Apply(cfg, s, RuStart(job)).ru;
            ru == if InFlight(cfg, s, job.slotRx % RU_RX_SLOT_DEPTH) then RuWaiting(job) else RuFrontEnd(job)
  {
    ReachableInv(cfg, s);
    var idx := job.slotRx % RU_RX_SLOT_DEPTH;
    var o := Outstanding(cfg, s);
    if InFlight(cfg, s, idx) {
      var x := InFlightListed(cfg, s, idx);
      var i :| 0 <= i < |o| && o[i] == x;
    } else if s.busy[idx] {
      var i :| 0 <= i < |o| && o[i] % RU_RX_SLOT_DEPTH == idx;
      ListedInFlight(cfg, s, o[i]);
    }
  }

  lemma LastIsDistinct(others: seq<nat>, slot: nat, busy: seq<bool>, exact: bool)
    requires FlowOk(others + [slot], busy, exact)
    ensures forall x :: x in others ==> x % RU_RX_SLOT_DEPTH != slot % RU_RX_SLOT_DEPTH
  {
    var o := others + [slot];
    forall x | x in others
      ensures x % RU_RX_SLOT_DEPTH != slot % RU_RX_SLOT_DEPTH
    {
      var i :| 0 <= i < |others| && others[i] == x;
      assert o[i] == x && o[|others|] == slot;
    }
  }

  lemma {:induction false} UlKeeps(cfg: Config, slots: seq<nat>, i: nat)
    requires i < |slots| && cfg.slotType(slots[i]) != Downlink
    ensures slots[i] in Ul(cfg, slots)
  {
    if i > 0 {
      UlKeeps(cfg, slots[1..], i - 1);
    }
  }

  lemma {:induction false} UlOnly(cfg: Config, slots: seq<nat>, x: nat) returns (i: nat)
    requires x in Ul(cfg, slots)
    ensures i < |slots| && slots[i] == x && cfg.slotType(x) != Downlink
  {
    if x in One(cfg, slots[0]) {
      i := 0;
    } else {
      i := UlOnly(cfg, slots[1..], x);
      i := i + 1;
    }
  }
}
