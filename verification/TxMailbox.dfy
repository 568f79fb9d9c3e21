/**
 The one-slot mailbox between L1_thread and L1_thread_tx: wakeup_tx deposits a
 subframe, L1_thread_tx works on it and clears it, and both wait on the same
 condition variable.

 Each action is one critical section under the mutex, or one step outside it.
 A thread in pthread_cond_wait is asleep; a signal marks the other thread, if it
 sleeps there, as woken; a woken thread re-tests its condition when it gets the
 mutex back.  Spurious wake-ups are allowed.
 */
module TxMailbox {

  datatype Item = Item(frameRx: int, subframeRx: nat, frameTx: int, subframeTx: nat, timestampTx: int)

  datatype Producer =
    | Free                             // between two calls of wakeup_tx
    | Asleep(item: Item, woken: bool)  // in pthread_cond_wait

  datatype Consumer =
    | Top                         // about to call wait_on_condition
    | Dozing(woken: bool)         // in pthread_cond_wait
    | Working                     // phy_procedures_eNB_TX, without the mutex
    | Delivering(item: Item)      // wakeup_txfh, without the mutex

  datatype State = State(
    cnt: int,                     // instance_cnt
    slot: Item,                   // frame, subframe and timestamp fields
    producer: Producer,
    consumer: Consumer,
    offered: seq<Item>,           // non-uplink subframes passed to wakeup_tx
    started: seq<Item>,           // the fields as L1_thread_tx saw them on starting work
    delivered: seq<Item>)         // passed to wakeup_txfh

  datatype Action =
    | Offer(item: Item)    // wakeup_tx up to its wait or its return
    | ProducerRetry        // wakeup_tx after waking
    | ProducerSpurious
    | Enter                // wait_on_condition up to its wait or its return
    | ConsumerRetry
    | ConsumerSpurious
    | Finish               // the critical section after the work
    | Deliver              // wakeup_txfh returns

  predicate Sleeping(p: Producer) { p.Asleep? && !p.woken }

  predicate DozingStill(c: Consumer) { c.Dozing? && !c.woken }

  function Init(): State {
    var none := Item(0, 0, 0, 0, 0);
    State(-1, none, Free, Top, [], [], [])
  }

  predicate Enabled(s: State, a: Action) {
    match a
    case Offer(item) => s.producer.Free?
    case ProducerRetry => s.producer.Asleep? && s.producer.woken
    case ProducerSpurious => Sleeping(s.producer)
    case Enter => s.consumer.Top?
    case ConsumerRetry => s.consumer.Dozing? && s.consumer.woken
    case ConsumerSpurious => DozingStill(s.consumer)
    case Finish => s.consumer.Working?
    case Deliver => s.consumer.Delivering?
  }

  /** wakeup_tx holding the mutex with `item` to deposit. */
  function TryDeposit(s: State, item: Item): State {
    if s.cnt == 0 then s.(producer := Asleep(item, false))
    else s.(cnt := 0, slot := item, producer := Free,
            consumer := if s.consumer.Dozing? then Dozing(true) else s.consumer)
  }

  /** wait_on_condition holding the mutex. */
  function TryStart(s: State): State {
    if s.cnt < 0 then s.(consumer := Dozing(false))
    else s.(consumer := Working, started := s.started + [s.slot])
  }

  /** One step; `uplink` is subframe_select(subframe) == SF_UL. */
  function Apply(uplink: nat -> bool, s: State, a: Action): State
    requires Enabled(s, a)
  {
    match a
    case Offer(item) =>
      if uplink(item.subframeTx) then s
      else TryDeposit(s.(offered := s.offered + [item]), item)
    case ProducerRetry => TryDeposit(s, s.producer.item)
    case ProducerSpurious => s.(producer := Asleep(s.producer.item, true))
    case Enter => TryStart(s)
    case ConsumerRetry => TryStart(s)
    case ConsumerSpurious => s.(consumer := Dozing(true))
    case Finish =>
      s.(cnt := -1, consumer := Delivering(s.slot),
         producer := if s.producer.Asleep? then Asleep(s.producer.item, true) else s.producer)
    case Deliver => s.(consumer := Top, delivered := s.delivered + [s.consumer.item])
  }

  ghost predicate Possible(uplink: nat -> bool, s: State, acts: seq<Action>)
    decreases |acts|
  {
    acts == [] || (Enabled(s, acts[0]) && Possible(uplink, Apply(uplink, s, acts[0]), acts[1..]))
  }

  ghost function After(uplink: nat -> bool, s: State, acts: seq<Action>): State
    requires Possible(uplink, s, acts)
    decreases |acts|
  {
    if acts == [] then s else After(uplink, Apply(uplink, s, acts[0]), acts[1..])
  }

  /** The subframes handed over but not yet delivered, oldest first: with the
      consumer, in the mailbox, with the producer. */
  function Held(s: State): seq<Item> {
    (if s.consumer.Delivering? then [s.consumer.item] else [])
    + (if s.cnt == 0 then [s.slot] else [])
    + (if s.producer.Asleep? then [s.producer.item] else [])
  }

  ghost predicate Inv(s: State) {
    && (s.cnt == -1 || s.cnt == 0)
    && (s.consumer.Working? ==> s.cnt == 0 && s.started != [] && s.started[|s.started| - 1] == s.slot)
    && (DozingStill(s.consumer) ==> s.cnt == -1)
    && (Sleeping(s.producer) ==> s.cnt == 0)
    && s.offered == s.delivered + Held(s)
    && s.started == s.delivered
         + (if s.consumer.Delivering? then [s.consumer.item] else if s.consumer.Working? then [s.slot] else [])
  }

  lemma StepInv(uplink: nat -> bool, s: State, a: Action)
    requires Inv(s) && Enabled(s, a)
    ensures Inv(Apply(uplink, s, a))
  {
    var s' := Apply(uplink, s, a);
    match a
    case Offer(item) =>
      if !uplink(item.subframeTx) {
        assert Held(s') == Held(s) + [item];
      }
    case ProducerRetry => assert Held(s') == Held(s);
    case Finish => assert Held(s') == Held(s);
    case Deliver => assert Held(s) == [s.consumer.item] + Held(s');
    case _ => assert Held(s') == Held(s);
  }

  lemma {:induction false} RunInv(uplink: nat -> bool, s: State, acts: seq<Action>)
    requires Inv(s) && Possible(uplink, s, acts)
    ensures Inv(After(uplink, s, acts))
    decreases |acts|
  {
    if acts != [] {
      StepInv(uplink, s, acts[0]);
      RunInv(uplink, Apply(uplink, s, acts[0]), acts[1..]);
    }
  }

  /** The subframes of a run that wakeup_tx was offered and did not turn away. */
  ghost function Offers(uplink: nat -> bool, acts: seq<Action>): seq<Item> {
    if acts == [] then []
    else
      (match acts[0]
       case Offer(item) => if uplink(item.subframeTx) then [] else [item]
       case _ => [])
      + Offers(uplink, acts[1..])
  }

  lemma {:induction false} RunOffers(uplink: nat -> bool, s: State, acts: seq<Action>)
    requires Possible(uplink, s, acts)
    ensures After(uplink, s, acts).offered == s.offered + Offers(uplink, acts)
    decreases |acts|
  {
    if acts != [] {
      RunOffers(uplink, Apply(uplink, s, acts[0]), acts[1..]);
    }
  }

  // Results -----------------------------------------------------------------------

  /** In every interleaving, spurious wake-ups included: what has been delivered
      and what is still held are together exactly the non-uplink subframes offered,
      in order, each with its own fields; the counter is -1 or 0; and producer and
      consumer are never both asleep without a wake-up. */
  lemma DeliveredOnceInOrder(uplink: nat -> bool, acts: seq<Action>)
    requires Possible(uplink, Init(), acts)
    ensures var s := After(uplink, Init(), acts);
            && Offers(uplink, acts) == s.delivered + Held(s)
            && |Held(s)| <= 3
            && (s.cnt == -1 || s.cnt == 0)
            && !(Sleeping(s.producer) && DozingStill(s.consumer))
  {
    RunInv(uplink, Init(), acts);
    RunOffers(uplink, Init(), acts);
  }

  /** The fields L1_thread_tx works on without the mutex do not change under it:
      what it started with is what it delivers. */
  lemma WorkSeesStableFields(uplink: nat -> bool, acts: seq<Action>)
    requires Possible(uplink, Init(), acts)
    ensures var s := After(uplink, Init(), acts);
            && s.delivered <= s.started
            && (s.consumer.Working? ==> s.started == s.delivered + [s.slot])
            && (s.consumer.Delivering? ==> s.started == s.delivered + [s.consumer.item])
  {
    RunInv(uplink, Init(), acts);
  }

  // Progress ------------------------------------------------------------------------

  /** The steps the two threads take on their own. */
  predicate Own(a: Action) {
    !a.Offer? && !a.ProducerSpurious? && !a.ConsumerSpurious?
  }

  /** Bounds the steps needed to deliver everything held. */
  function Rank(s: State): nat {
    (match s.producer case Free => 0 case Asleep(_, woken) => if woken then 11 else 10)
    + (if s.cnt == 0 then 5 else 0)
    + (match s.consumer
       case Delivering(_) => 2
       case Top => 1
       case Dozing(woken) => if woken then 1 else 0
       case Working => 0)
  }

  lemma OwnStepLowersRank(uplink: nat -> bool, s: State, a: Action)
    requires Inv(s) && Enabled(s, a) && Own(a)
    ensures Rank(Apply(uplink, s, a)) < Rank(s)
  {}

  lemma HeldNotStuck(s: State) returns (a: Action)
    requires Inv(s) && Held(s) != []
    ensures Enabled(s, a) && Own(a)
  {
    a := match s.consumer
      case Top => Enter
      case Dozing(woken) => if woken then ConsumerRetry else ProducerRetry
      case Working => Finish
      case Delivering(_) => Deliver;
  }

  /** Without further offers the threads come to rest after at most Rank(s) steps,
      and at rest everything offered has been delivered. */
  lemma {:induction false} EverythingDelivered(uplink: nat -> bool, s: State, acts: seq<Action>)
    requires Inv(s) && Possible(uplink, s, acts) && forall i :: 0 <= i < |acts| ==> Own(acts[i])
    ensures |acts| <= Rank(s)
    ensures var t := After(uplink, s, acts);
            (forall a :: Own(a) ==> !Enabled(t, a)) ==> t.delivered == t.offered == s.offered
    decreases |acts|
  {
    if acts == [] {
      if Held(s) != [] {
        var a := HeldNotStuck(s);
      }
    } else {
      OwnStepLowersRank(uplink, s, acts[0]);
      StepInv(uplink, s, acts[0]);
      EverythingDelivered(uplink, Apply(uplink, s, acts[0]), acts[1..]);
    }
  }

  // The program -----------------------------------------------------------------------

  class L1ProcTx {
    const uplink: nat -> bool
    var cnt: int
    var slot: Item
    var producer: Producer
    var consumer: Consumer
    ghost var offered: seq<Item>
    ghost var started: seq<Item>
    ghost var delivered: seq<Item>

    ghost function View(): State
      reads this
    {
      State(cnt, slot, producer, consumer, offered, started, delivered)
    }

    constructor (uplink: nat -> bool)
      ensures View() == Init() && Inv(View())
    {
      this.uplink := uplink;
      cnt, slot, producer, consumer := -1, Item(0, 0, 0, 0, 0), Free, Top;
      offered, started, delivered := [], [], [];
    }

    /** L1_thread_tx from its place in the loop to the next. */
    method ConsumerStep() returns (ghost a: Action)
      requires Inv(View()) && !DozingStill(consumer)
      modifies this`cnt, this`producer, this`consumer, this`started, this`delivered
      ensures Own(a) && Enabled(old(View()), a) && View() == Apply(uplink, old(View()), a)
      ensures producer.Free? <==> old(producer).Free?
    {
      match consumer {
        case Working =>
          a := Finish;
          consumer := Delivering(slot);
          cnt := -1;
          if producer.Asleep? {
            producer := Asleep(producer.item, true);
          }
        case Delivering(item) =>
          a := Deliver;
          delivered := delivered + [item];
          consumer := Top;
        case _ =>
          a := if consumer.Top? then Enter else ConsumerRetry;
          if cnt < 0 {
            consumer := Dozing(false);
          } else {
            started := started + [slot];
            consumer := Working;
          }
      }
    }

    /** wakeup_tx with L1_thread_tx running beside it: it always returns, having
        deposited the subframe, or nothing for an uplink subframe. */
    method WakeupTx(item: Item) returns (ghost acts: seq<Action>)
      requires Inv(View()) && producer.Free?
      modifies this
      ensures Inv(View()) && producer.Free?
      ensures Possible(uplink, old(View()), acts) && After(uplink, old(View()), acts) == View()
      ensures offered == old(offered) + if uplink(item.subframeTx) then [] else [item]
    {
      ghost var s0 := View();
      acts := [Offer(item)];
      StepInv(uplink, s0, Offer(item));
      if uplink(item.subframeTx) {
        return;
      }
      offered := offered + [item];
      if cnt == 0 {
        producer := Asleep(item, false);
      } else {
        Deposit(item);
      }
      while !producer.Free?
        invariant Inv(View()) && Possible(uplink, s0, acts) && After(uplink, s0, acts) == View()
        invariant offered == old(offered) + [item]
        decreases Rank(View())
      {
        ghost var s := View();
        ghost var a := ProducerRetry;
        if {
          case producer.woken =>
            if cnt == 0 {
              producer := Asleep(producer.item, false);
            } else {
              Deposit(producer.item);
            }
          case !DozingStill(consumer) => a := ConsumerStep();
        }
        OwnStepLowersRank(uplink, s, a);
        StepInv(uplink, s, a);
        Extend(uplink, s0, acts, a);
        acts := acts + [a];
      }
    }

    method Deposit(item: Item)
      modifies this`cnt, this`slot, this`producer, this`consumer
      requires cnt != 0
      ensures View() == TryDeposit(old(View()), item)
    {
      cnt := 0;
      slot := item;
      producer := Free;
      if consumer.Dozing? {
        consumer := Dozing(true);
      }
    }
  }

  /** A run can be continued by any step enabled at its end. */
  lemma {:induction false} Extend(uplink: nat -> bool, s: State, acts: seq<Action>, a: Action)
    requires Possible(uplink, s, acts) && Enabled(After(uplink, s, acts), a)
    ensures Possible(uplink, s, acts + [a])
    ensures After(uplink, s, acts + [a]) == Apply(uplink, After(uplink, s, acts), a)
    decreases |acts|
  {
    if acts == [] {
      assert acts + [a] == [a] && [a][1..] == [];
    } else {
      assert (acts + [a])[1..] == acts[1..] + [a];
      Extend(uplink, Apply(uplink, s, acts[0]), acts[1..], a);
    }
  }
}
