/**
 Uplink reassembly of the LTE radio unit (fh_if4p5_south_in): OFDM symbols of
 ten subframes arrive in any order and are collected in symbol_mask[10].

 The receiver is a function of its state and the packet stream, and its returns
 are numbered; the class at the end is the program, proved to compute them.
 */
module Reassembly {
  import opened BitMask
  import opened CArithmetic
  import opened SubframeRing

  /** An IF4p5 packet body: PULFFT, PULTICK or PRACH. */
  datatype Body = Symbol(number: nat) | Tick | Prach

  type SubframeNumber = n: nat | n < 10

  /** A packet with the frame and subframe number it carries.  `k` says which
      subframe since frame 0 it belongs to, which the receiver does not see. */
  datatype Arrival = Arrival(k: nat, frame: nat, sf: SubframeNumber, body: Body)

  /** What the radio unit expects in a subframe: `symbols` counts the bits of
      symbol_mask_full, and `tick` says that one PULTICK stands for them all. */
  datatype Expect = Expect(symbols: nat, tick: bool)

  type Layout = l: seq<Expect> | |l| == 10 && forall i :: 0 <= i < 10 ==> 1 <= l[i].symbols <= 14
    witness seq(10, i => Expect(14, false))

  const TICK_MASK: nat := 0xffff

  // The receiver ----------------------------------------------------------------------

  /** The receiving thread between two calls: symbol_mask, first_rx, the counters
      of ru_thread, and how many packets it has taken from the stream. */
  datatype Rx = Rx(masks: seq<nat>, firstRx: bool, frame: nat, subframe: nat, pos: nat)

  const FRESH_RX: Rx := Rx([0, 0, 0, 0, 0, 0, 0, 0, 0, 0], true, 1023, 9, 0)

  ghost predicate Shaped(arr: seq<Arrival>, rx: Rx) {
    |rx.masks| == 10 && rx.subframe < 10 && rx.pos <= |arr|
  }

  /** The mask update of the receive loop. */
  function Receive(masks: seq<nat>, a: Arrival): (masks': seq<nat>)
    requires |masks| == 10
    ensures |masks'| == 10 && forall r :: 0 <= r < 10 && r != a.sf ==> masks'[r] == masks[r]
  {
    match a.body
    case Symbol(n) => masks[a.sf := SetBit(masks[a.sf], n)]
    case Tick => masks[a.sf := TICK_MASK]
    case Prach => masks
  }

  /** The negation of the loop test, for subframe number r. */
  predicate MaskFull(l: Layout, masks: seq<nat>, r: nat)
    requires |masks| == 10 && r < 10
  {
    masks[r] >= Full(l[r].symbols)
  }

  datatype Reading = Blocked | Filled(masks: seq<nat>, pos: nat, f: nat, sf: nat)

  /** The receive loop from packet pos on, with the numbers f and sf it has so far. */
  function Read(l: Layout, masks: seq<nat>, arr: seq<Arrival>, pos: nat, r: nat, f: nat, sf: nat): (x: Reading)
    requires |masks| == 10 && pos <= |arr| && r < 10
    ensures x.Filled? ==> |x.masks| == 10 && pos <= x.pos <= |arr|
    decreases |arr| - pos
  {
    if MaskFull(l, masks, r) then Filled(masks, pos, f, sf)
    else if pos == |arr| then Blocked
    else Read(l, Receive(masks, arr[pos]), arr, pos + 1, r, arr[pos].frame, arr[pos].sf)
  }

  /** What a call comes to: it waits for ever, or returns with frame_rx and says
      whether a mismatch branch was taken; tti_rx is rx.subframe. */
  datatype Outcome = Waits | Returns(rx: Rx, frameRx: nat, mismatch: bool)

  function Advance(rx: Rx): Rx {
    if rx.subframe == 9 then rx.(subframe := 0, frame := (rx.frame + 1) % 1024)
    else rx.(subframe := rx.subframe + 1)
  }

  /** fh_if4p5_south_in. */
  function SouthIn(l: Layout, arr: seq<Arrival>, rx: Rx): (o: Outcome)
    requires Shaped(arr, rx)
    ensures o.Returns? ==> Shaped(arr, o.rx)
  {
    match Read(l, rx.masks, arr, rx.pos, rx.subframe, rx.frame, rx.subframe)
    case Blocked => Waits
    case Filled(masks, pos, f, sf) =>
      OwnSubframe(l, rx.masks, arr, rx.pos, rx.subframe, rx.frame, rx.subframe);
      Returns(Rx(masks[sf := 0], false, if rx.firstRx then f else rx.frame, sf, pos), f,
              !rx.firstRx && (f, sf) != (rx.frame, rx.subframe))
  }

  /** Whatever the packets, the loop ends with the awaited subframe number: only a
      packet with that number can end it. */
  lemma {:induction false} OwnSubframe(l: Layout, masks: seq<nat>, arr: seq<Arrival>, pos: nat, r: nat, f: nat, sf: nat)
    requires |masks| == 10 && pos <= |arr| && r < 10
    requires MaskFull(l, masks, r) ==> sf == r
    ensures var x := Read(l, masks, arr, pos, r, f, sf); x.Filled? ==> x.sf == r
    decreases |arr| - pos
  {
    if !MaskFull(l, masks, r) && pos < |arr| {
      OwnSubframe(l, Receive(masks, arr[pos]), arr, pos + 1, r, arr[pos].frame, arr[pos].sf);
    }
  }

  /** One turn of ru_thread's loop. */
  function Call(l: Layout, arr: seq<Arrival>, rx: Rx): (o: Outcome)
    requires Shaped(arr, rx)
    ensures o.Returns? ==> Shaped(arr, o.rx)
  {
    SouthIn(l, arr, Advance(rx))
  }

  /** The n-th call of a fresh receiver on a packet stream. */
  function Nth(l: Layout, arr: seq<Arrival>, n: nat): (o: Outcome)
    ensures o.Returns? ==> Shaped(arr, o.rx)
  {
    if n == 0 then Call(l, arr, FRESH_RX)
    else
      match Nth(l, arr, n - 1)
      case Waits => Waits
      case Returns(rx, _, _) => Call(l, arr, rx)
  }

  // What has arrived ------------------------------------------------------------------

  function Item(b: Body): set<nat> {
    if b.Symbol? then {b.number} else if b.Tick? then {0} else {}
  }

  /** What has arrived of subframe j: symbol numbers, or 0 for the tick. */
  ghost function Got(arr: seq<Arrival>, j: nat): set<nat> {
    if arr == [] then {}
    else
      var a := arr[|arr| - 1];
      Got(arr[..|arr| - 1], j) + if a.k == j then Item(a.body) else {}
  }

  function Need(l: Layout, r: nat): (n: nat)
    requires r < 10
    ensures n >= 1
  {
    if l[r].tick then 1 else l[r].symbols
  }

  /** Everything subframe j needs has arrived. */
  ghost predicate Complete(l: Layout, arr: seq<Arrival>, j: nat) {
    HasAll(Got(arr, j), Need(l, j % 10))
  }

  /** Frame and subframe number of the k-th subframe. */
  function Label(k: nat): (nat, nat) {
    ((k / 10) % 1024, k % 10)
  }

  /** A packet with its subframe's numbers, of a kind its subframe expects. */
  ghost predicate Expected(l: Layout, a: Arrival) {
    && (a.frame, a.sf) == Label(a.k)
    && (a.body.Tick? <==> l[a.sf].tick)
    && (a.body.Symbol? ==> a.body.number < l[a.sf].symbols)
  }

  ghost predicate New(arr: seq<Arrival>, i: nat)
    requires i < |arr|
  {
    Item(arr[i].body) !! Got(arr[..i], arr[i].k)
  }

  /** Arrival i is expected, arrives for the first time, belongs to the stream that
      starts with subframe base, and is not for a subframe more than `window` ahead
      of one still incomplete. */
  ghost predicate OrderlyAt(l: Layout, base: nat, window: nat, arr: seq<Arrival>, i: nat)
    requires i < |arr|
  {
    arr[i].body.Prach? ||
    (&& base <= arr[i].k && Expected(l, arr[i]) && New(arr, i)
     && (forall j :: base <= j && j + window < arr[i].k ==> Complete(l, arr[..i], j)))
  }

  ghost predicate OrderlyWithin(l: Layout, base: nat, window: nat, arr: seq<Arrival>) {
    forall i :: 0 <= i < |arr| ==> OrderlyAt(l, base, window, arr, i)
  }

  /** Packets may overtake each other by up to nine subframes. */
  ghost predicate Orderly(l: Layout, base: nat, arr: seq<Arrival>) {
    OrderlyWithin(l, base, 9, arr)
  }

  /** Subframe by subframe; within one, packets come in any order. */
  ghost predicate InOrder(l: Layout, base: nat, arr: seq<Arrival>) {
    OrderlyWithin(l, base, 0, arr)
  }

  lemma InOrderIsOrderly(l: Layout, base: nat, arr: seq<Arrival>)
    requires InOrder(l, base, arr)
    ensures Orderly(l, base, arr)
  {
    forall i | 0 <= i < |arr|
      ensures OrderlyAt(l, base, 9, arr, i)
    {
      assert OrderlyAt(l, base, 0, arr, i);
    }
  }

  lemma GotSnoc(arr: seq<Arrival>, i: nat, j: nat)
    requires i < |arr|
    ensures Got(arr[..i + 1], j) == Got(arr[..i], j) + if arr[i].k == j then Item(arr[i].body) else {}
  {
    assert arr[..i + 1][..i] == arr[..i];
  }

  lemma CompleteGrows(l: Layout, arr: seq<Arrival>, i: nat, j: nat)
    requires i < |arr| && Complete(l, arr[..i], j)
    ensures Complete(l, arr[..i + 1], j)
  {
    GotSnoc(arr, i, j);
  }

  /** A subframe of which nothing has arrived is not complete. */
  lemma NothingIsIncomplete(l: Layout, arr: seq<Arrival>, j: nat)
    requires Got(arr, j) == {}
    ensures !Complete(l, arr, j)
  {
    assert 0 !in Got(arr, j);
  }

  // Masks stand for sets ----------------------------------------------------------------

  ghost function MaskFor(l: Layout, r: nat, got: set<nat>): nat
    requires r < 10
  {
    if l[r].tick then (if 0 in got then TICK_MASK else 0) else MaskOf(got, l[r].symbols)
  }

  /** The comparison `symbol_mask < symbol_mask_full` tests exactly completeness. */
  lemma MaskTestsComplete(l: Layout, r: nat, got: set<nat>)
    requires r < 10
    ensures MaskFor(l, r, got) < Full(l[r].symbols) <==> !HasAll(got, Need(l, r))
  {
    MaskFullIff(got, l[r].symbols);
    FullRange(l[r].symbols);
  }

  lemma FullRange(n: nat)
    requires 1 <= n <= 14
    ensures 1 <= Full(n) <= TICK_MASK
  {
    Pow2Grows(1, n);
    Pow2Grows(n, 14);
    assert Pow2(14) == 16384;
  }

  lemma {:induction false} Pow2Grows(a: nat, b: nat)
    requires a <= b
    ensures Pow2(a) <= Pow2(b)
    decreases b - a
  {
    if a < b {
      Pow2Grows(a + 1, b);
    }
  }

  /** The masks hold the sets `gots`. */
  ghost predicate Stands(l: Layout, masks: seq<nat>, gots: seq<set<nat>>) {
    |masks| == |gots| == 10 && forall r :: 0 <= r < 10 ==> masks[r] == MaskFor(l, r, gots[r])
  }

  ghost function Add(gots: seq<set<nat>>, a: Arrival): (gots': seq<set<nat>>)
    requires |gots| == 10
    ensures |gots'| == 10
  {
    gots[a.sf := gots[a.sf] + Item(a.body)]
  }

  lemma ReceiveStands(l: Layout, masks: seq<nat>, gots: seq<set<nat>>, a: Arrival)
    requires Stands(l, masks, gots) && (a.body.Prach? || Expected(l, a))
    ensures Stands(l, Receive(masks, a), Add(gots, a))
  {
    var r := a.sf;
    match a.body
    case Symbol(n) => SetBitAdds(gots[r], l[r].symbols, n);
    case Tick =>
    case Prach => assert gots[r] + {} == gots[r];
  }

  lemma ClearStands(l: Layout, masks: seq<nat>, gots: seq<set<nat>>, r: nat)
    requires Stands(l, masks, gots) && r < 10
    ensures Stands(l, masks[r := 0], gots[r := {}])
  {
    MaskEmpty(l[r].symbols);
  }

  ghost function NothingGot(): seq<set<nat>> {
    [{}, {}, {}, {}, {}, {}, {}, {}, {}, {}]
  }

  lemma FreshStands(l: Layout)
    ensures Stands(l, FRESH_RX.masks, NothingGot())
  {
    forall r | 0 <= r < 10
      ensures MaskFor(l, r, {}) == 0
    {
      MaskEmpty(l[r].symbols);
    }
  }

  lemma FullStands(l: Layout, masks: seq<nat>, gots: seq<set<nat>>, r: nat)
    requires Stands(l, masks, gots) && r < 10
    ensures MaskFull(l, masks, r) <==> HasAll(gots[r], Need(l, r))
  {
    MaskTestsComplete(l, r, gots[r]);
  }

  // Any orderly stream --------------------------------------------------------------------

  /** The counters of ru_thread make the first call await subframe 0 of a frame. */
  function First(base: nat): (k: nat)
    ensures base <= k <= base + 9 && k % 10 == 0
  {
    Using(base, 0)
  }

  /** Subframe numbers of the stream's subframes before First(base), which no call
      awaits but whose packets are stored all the same. */
  predicate Lagging(base: nat, r: nat) {
    base % 10 != 0 && r >= base % 10
  }

  /** Subframe k is awaited after the packets `arr`.  The sets hold at least what
      has arrived of the next ten subframes, for subframe numbers that do not lag
      exactly that, and subframes returned under such numbers were complete. */
  ghost predicate Tracks(l: Layout, base: nat, k: nat, arr: seq<Arrival>, gots: seq<set<nat>>) {
    && |gots| == 10 && First(base) <= k
    && (forall r :: 0 <= r < 10 ==> Got(arr, Using(k, r)) <= gots[r])
    && (forall r :: 0 <= r < 10 && !Lagging(base, r) ==> gots[r] <= Got(arr, Using(k, r)))
    && (forall j :: First(base) <= j < k && !Lagging(base, j % 10) ==> Complete(l, arr, j))
    && (forall j :: k + 10 <= j ==> Got(arr, j) == {})
  }

  lemma TracksStart(l: Layout, base: nat)
    ensures Tracks(l, base, First(base), [], NothingGot())
  {}

  lemma BeforeFirstLags(base: nat, j: nat)
    requires base <= j < First(base)
    ensures Lagging(base, j % 10)
  {
    var d := j - base;
    assert j == 10 * (base / 10) + base % 10 + d;
  }

  /** While k is awaited an orderly packet belongs to no subframe after k + 9, and
      under a number that does not lag to none before k. */
  lemma InWindow(l: Layout, base: nat, k: nat, arr: seq<Arrival>, i: nat, gots: seq<set<nat>>)
    requires i < |arr| && OrderlyAt(l, base, 9, arr, i) && !arr[i].body.Prach?
    requires Tracks(l, base, k, arr[..i], gots) && !HasAll(gots[k % 10], Need(l, k % 10))
    ensures arr[i].k <= k + 9
    ensures !Lagging(base, arr[i].sf) ==> k <= arr[i].k
  {
    var a := arr[i];
    UsingUnique(k, k);
    assert !Complete(l, arr[..i], k);
    if !Lagging(base, a.sf) && a.k < k {
      if a.k < First(base) {
        BeforeFirstLags(base, a.k);
      } else {
        NewIsIncomplete(l, arr, i);
      }
    }
  }

  /** A new packet's subframe was not complete before it. */
  lemma NewIsIncomplete(l: Layout, arr: seq<Arrival>, i: nat)
    requires i < |arr| && !arr[i].body.Prach? && Expected(l, arr[i]) && New(arr, i)
    ensures !Complete(l, arr[..i], arr[i].k)
  {
    var n := if arr[i].body.Tick? then 0 else arr[i].body.number;
    assert n in Item(arr[i].body);
  }

  lemma TracksReceive(l: Layout, base: nat, k: nat, arr: seq<Arrival>, i: nat, gots: seq<set<nat>>)
    requires i < |arr| && OrderlyAt(l, base, 9, arr, i)
    requires Tracks(l, base, k, arr[..i], gots) && !HasAll(gots[k % 10], Need(l, k % 10))
    ensures Tracks(l, base, k, arr[..i + 1], Add(gots, arr[i]))
  {
    var a, after, gots' := arr[i], arr[..i + 1], Add(gots, arr[i]);
    if !a.body.Prach? {
      InWindow(l, base, k, arr, i, gots);
      if k <= a.k {
        UsingUnique(k, a.k);
      }
    }
    forall r | 0 <= r < 10
      ensures Got(after, Using(k, r)) <= gots'[r]
      ensures !Lagging(base, r) ==> gots'[r] <= Got(after, Using(k, r))
    {
      GotSnoc(arr, i, Using(k, r));
    }
    forall j | First(base) <= j < k && !Lagging(base, j % 10)
      ensures Complete(l, after, j)
    {
      CompleteGrows(l, arr, i, j);
    }
    forall j | k + 10 <= j
      ensures Got(after, j) == {}
    {
      GotSnoc(arr, i, j);
    }
  }

  /** Clearing the returned subframe's mask makes room for the one ten later. */
  lemma TracksNext(l: Layout, base: nat, k: nat, arr: seq<Arrival>, gots: seq<set<nat>>)
    requires Tracks(l, base, k, arr, gots) && HasAll(gots[k % 10], Need(l, k % 10))
    ensures Tracks(l, base, k + 1, arr, gots[k % 10 := {}])
    ensures !Lagging(base, k % 10) ==> Complete(l, arr, k)
  {
    UsingUnique(k, k);
    forall r | 0 <= r < 10
      ensures Using(k + 1, r) == if r == k % 10 then k + 10 else Using(k, r)
    {
      UsingMoves(k, r);
    }
  }

  /** The sets after the packets from i up to j. */
  ghost function Collect(gots: seq<set<nat>>, arr: seq<Arrival>, i: nat, j: nat): (gots': seq<set<nat>>)
    requires |gots| == 10 && i <= j <= |arr|
    ensures |gots'| == 10
    decreases j - i
  {
    if i == j then gots else Collect(Add(gots, arr[i]), arr, i + 1, j)
  }

  /** A packet that fills the awaited mask has the awaited subframe number, and
      belongs to subframe k itself if that number does not lag. */
  lemma FillingPacket(l: Layout, base: nat, k: nat, arr: seq<Arrival>, i: nat, masks: seq<nat>, gots: seq<set<nat>>)
    requires i < |arr| && OrderlyAt(l, base, 9, arr, i)
    requires Tracks(l, base, k, arr[..i], gots) && !HasAll(gots[k % 10], Need(l, k % 10))
    requires |masks| == 10 && !MaskFull(l, masks, k % 10) && MaskFull(l, Receive(masks, arr[i]), k % 10)
    ensures arr[i].sf == k % 10
    ensures !Lagging(base, k % 10) ==> arr[i].k == k
  {
    InWindow(l, base, k, arr, i, gots);
    if !Lagging(base, k % 10) {
      UsingUnique(k, k);
      UsingUnique(k, arr[i].k);
    }
  }

  /** The receive loop on an orderly stream: if it blocks, subframe k never
      completes; if it ends, the mask is full, and under a number that does not lag
      the frame number is that of subframe k and no packet was taken too many. */
  lemma {:induction false} ReadTracks(l: Layout, base: nat, k: nat, arr: seq<Arrival>, masks: seq<nat>, pos: nat,
                                      gots: seq<set<nat>>, f: nat, sf: nat)
    requires Orderly(l, base, arr) && pos <= |arr|
    requires Stands(l, masks, gots) && Tracks(l, base, k, arr[..pos], gots)
    requires MaskFull(l, masks, k % 10) ==> sf == k % 10 && (!Lagging(base, k % 10) ==> f == (k / 10) % 1024)
    ensures match Read(l, masks, arr, pos, k % 10, f, sf)
            case Blocked => !Complete(l, arr, k)
            case Filled(masks', pos', f', sf') =>
              Ended(l, base, k, arr, pos, gots, masks', pos', f', sf')
    decreases |arr| - pos
  {
    FullStands(l, masks, gots, k % 10);
    if !MaskFull(l, masks, k % 10) {
      if pos == |arr| {
        assert arr[..pos] == arr;
        AwaitedIsIncomplete(l, base, k, arr, gots);
      } else {
        var a := arr[pos];
        ReadTurn(l, base, k, arr, masks, pos, gots);
        ReadTracks(l, base, k, arr, Receive(masks, a), pos + 1, Add(gots, a), a.frame, a.sf);
      }
    }
  }

  lemma AwaitedIsIncomplete(l: Layout, base: nat, k: nat, arr: seq<Arrival>, gots: seq<set<nat>>)
    requires Tracks(l, base, k, arr, gots) && !HasAll(gots[k % 10], Need(l, k % 10))
    ensures !Complete(l, arr, k)
  {
    UsingUnique(k, k);
  }

  /** One turn of the receive loop. */
  lemma ReadTurn(l: Layout, base: nat, k: nat, arr: seq<Arrival>, masks: seq<nat>, pos: nat, gots: seq<set<nat>>)
    requires Orderly(l, base, arr) && pos < |arr|
    requires Stands(l, masks, gots) && Tracks(l, base, k, arr[..pos], gots) && !MaskFull(l, masks, k % 10)
    ensures !Complete(l, arr[..pos], k)
    ensures Stands(l, Receive(masks, arr[pos]), Add(gots, arr[pos]))
    ensures Tracks(l, base, k, arr[..pos + 1], Add(gots, arr[pos]))
    ensures MaskFull(l, Receive(masks, arr[pos]), k % 10) ==>
              arr[pos].sf == k % 10 && (!Lagging(base, k % 10) ==> arr[pos].frame == (k / 10) % 1024)
  {
    var a := arr[pos];
    assert OrderlyAt(l, base, 9, arr, pos);
    FullStands(l, masks, gots, k % 10);
    AwaitedIsIncomplete(l, base, k, arr[..pos], gots);
    ReceiveStands(l, masks, gots, a);
    TracksReceive(l, base, k, arr, pos, gots);
    if MaskFull(l, Receive(masks, a), k % 10) {
      FillingPacket(l, base, k, arr, pos, masks, gots);
    }
  }

  /** What ReadTracks says of a loop that took packets pos to pos' - 1. */
  ghost predicate Ended(l: Layout, base: nat, k: nat, arr: seq<Arrival>, pos: nat, gots: seq<set<nat>>,
                        masks': seq<nat>, pos': nat, f': nat, sf': nat)
    requires |gots| == 10 && pos <= pos' <= |arr|
  {
    var gots' := Collect(gots, arr, pos, pos');
    && sf' == k % 10
    && Stands(l, masks', gots') && Tracks(l, base, k, arr[..pos'], gots') && HasAll(gots'[k % 10], Need(l, k % 10))
    && (!Lagging(base, k % 10) ==> f' == (k / 10) % 1024)
    && (pos < pos' ==> !Complete(l, arr[..pos' - 1], k))
  }

  // The counters --------------------------------------------------------------------------

  lemma LabelNext(k: nat)
    ensures var (f, sf) := Label(k);
            Label(k + 1) == if sf == 9 then ((f + 1) % 1024, 0) else (f, sf + 1)
  {
    DivSucc(k, 10);
    WrapSucc(k / 10);
  }

  /** The receiver is about to be called for subframe k. */
  ghost predicate InStep(l: Layout, base: nat, k: nat, arr: seq<Arrival>, rx: Rx, gots: seq<set<nat>>) {
    && Shaped(arr, rx) && Stands(l, rx.masks, gots) && Tracks(l, base, k, arr[..rx.pos], gots)
    && (if rx.firstRx then rx.subframe == 9 && rx.pos == 0 && k == First(base)
        else k >= 1 && (rx.frame, rx.subframe) == Label(k - 1))
  }

  lemma FreshInStep(l: Layout, base: nat, arr: seq<Arrival>)
    ensures InStep(l, base, First(base), arr, FRESH_RX, NothingGot())
  {
    FreshStands(l);
    TracksStart(l, base);
    assert arr[..0] == [];
  }

  lemma AdvanceCounts(l: Layout, base: nat, k: nat, arr: seq<Arrival>, rx: Rx, gots: seq<set<nat>>)
    requires InStep(l, base, k, arr, rx, gots)
    ensures var rx' := Advance(rx);
            rx'.subframe == k % 10 && (!rx.firstRx ==> rx'.frame == (k / 10) % 1024)
    ensures rx.firstRx ==> !Lagging(base, k % 10) && !MaskFull(l, rx.masks, k % 10)
  {
    if rx.firstRx {
      assert arr[..0] == [];
      assert 0 !in gots[0];
      FullStands(l, rx.masks, gots, 0);
    } else {
      LabelNext(k - 1);
    }
  }

  ghost function NextGots(k: nat, arr: seq<Arrival>, p: nat, q: nat, gots: seq<set<nat>>): (gots': seq<set<nat>>)
    requires |gots| == 10 && p <= q <= |arr|
    ensures |gots'| == 10
  {
    Collect(gots, arr, p, q)[k % 10 := {}]
  }

  /** What a call for subframe k that returns has done. */
  ghost predicate Stepped(l: Layout, base: nat, k: nat, arr: seq<Arrival>, rx: Rx, gots: seq<set<nat>>, o: Outcome)
    requires o.Returns? && |gots| == 10
  {
    && rx.pos <= o.rx.pos <= |arr|
    && InStep(l, base, k + 1, arr, o.rx, NextGots(k, arr, rx.pos, o.rx.pos, gots))
    && (o.rx.frame, o.rx.subframe) == Label(k)
    && (!Lagging(base, k % 10) ==> Complete(l, arr[..o.rx.pos], k) && o.frameRx == o.rx.frame && !o.mismatch)
    && (rx.pos < o.rx.pos ==> !Complete(l, arr[..o.rx.pos - 1], k))
    && (o.mismatch <==> o.frameRx != o.rx.frame)
  }

  /** The end of a call, when the loop has ended. */
  lemma EndedSteps(l: Layout, base: nat, k: nat, arr: seq<Arrival>, rx: Rx, gots: seq<set<nat>>,
                   masks: seq<nat>, pos: nat, f: nat)
    requires InStep(l, base, k, arr, rx, gots) && rx.pos <= pos <= |arr|
    requires Ended(l, base, k, arr, rx.pos, gots, masks, pos, f, k % 10)
    requires rx.firstRx ==> !Lagging(base, k % 10)
    ensures var frame := (k / 10) % 1024;
            Stepped(l, base, k, arr, rx, gots,
                    Returns(Rx(masks[k % 10 := 0], false, if rx.firstRx then f else frame, k % 10, pos), f,
                            !rx.firstRx && f != frame))
  {
    var gots' := Collect(gots, arr, rx.pos, pos);
    ClearStands(l, masks, gots', k % 10);
    TracksNext(l, base, k, arr[..pos], gots');
  }

  lemma CallStep(l: Layout, base: nat, k: nat, arr: seq<Arrival>, rx: Rx, gots: seq<set<nat>>)
    requires Orderly(l, base, arr) && InStep(l, base, k, arr, rx, gots)
    ensures var o := Call(l, arr, rx);
            if o.Waits? then !Complete(l, arr, k) else Stepped(l, base, k, arr, rx, gots, o)
  {
    AdvanceCounts(l, base, k, arr, rx, gots);
    ReadTracksFirst(l, base, k, arr, rx, gots);
    var x := Read(l, rx.masks, arr, rx.pos, k % 10, Advance(rx).frame, k % 10);
    if x.Filled? {
      EndedSteps(l, base, k, arr, rx, gots, x.masks, x.pos, x.f);
    }
  }

  lemma ReadTracksFirst(l: Layout, base: nat, k: nat, arr: seq<Arrival>, rx: Rx, gots: seq<set<nat>>)
    requires Orderly(l, base, arr) && InStep(l, base, k, arr, rx, gots)
    ensures match Read(l, rx.masks, arr, rx.pos, k % 10, Advance(rx).frame, k % 10)
            case Blocked => !Complete(l, arr, k)
            case Filled(masks', pos', f', sf') => Ended(l, base, k, arr, rx.pos, gots, masks', pos', f', sf')
  {
    AdvanceCounts(l, base, k, arr, rx, gots);
    ReadTracks(l, base, k, arr, rx.masks, rx.pos, gots, Advance(rx).frame, k % 10);
  }

  // Streams in order ------------------------------------------------------------------------

  /** The subframe one frame before the one that entry r stands for. */
  function Prior(k: nat, r: nat): nat
    requires r < 10
  {
    if Using(k, r) >= 10 then Using(k, r) - 10 else 0
  }

  /** When subframe k is about to be awaited, exactly the subframes before this one
      have arrived. */
  function Front(base: nat, k: nat): nat
    requires base % 10 != 0 && First(base) <= k
  {
    var s, r := base % 10, k % 10;
    if r == 0 then k - (10 - s) else if r <= s then k else k - r + s
  }

  /** Under a lagging number the sets hold the subframe of the frame before; every
      subframe before lo is complete and nothing has arrived from hi on. */
  ghost predicate Behind(l: Layout, base: nat, k: nat, lo: nat, hi: nat, arr: seq<Arrival>, gots: seq<set<nat>>) {
    && |gots| == 10
    && (forall r :: 0 <= r < 10 && Lagging(base, r) ==> gots[r] == Got(arr, Prior(k, r)))
    && (forall j :: base <= j < lo ==> Complete(l, arr, j))
    && (forall j :: hi <= j ==> Got(arr, j) == {})
  }

  lemma BehindStart(l: Layout, base: nat)
    requires base % 10 != 0
    ensures Front(base, First(base)) == base
    ensures Behind(l, base, First(base), base, base, [], NothingGot())
  {
    FirstForm(base);
  }

  lemma FirstForm(base: nat)
    requires base % 10 != 0
    ensures First(base) == base + 10 - base % 10
  {
    UsingUnique(base, base + 10 - base % 10);
  }

  /** In an in-order stream a packet that arrives while k is awaited lies from the
      front up to k. */
  lemma BetweenFrontAndAwaited(l: Layout, base: nat, k: nat, lo: nat, arr: seq<Arrival>, i: nat)
    requires i < |arr| && OrderlyAt(l, base, 0, arr, i) && !arr[i].body.Prach?
    requires base <= k && !Complete(l, arr[..i], k)
    requires forall j :: base <= j < lo ==> Complete(l, arr[..i], j)
    ensures lo <= arr[i].k <= k
  {
    NewIsIncomplete(l, arr, i);
  }

  lemma LaggingIsPrior(base: nat, k: nat, j: nat)
    requires base % 10 != 0 && First(base) <= k && !Lagging(base, k % 10)
    requires Front(base, k) <= j <= k && Lagging(base, j % 10)
    ensures Prior(k, j % 10) == j
  {
    if k % 10 == 0 {
      UsingUnique(k, j + 10);
      assert (j + 10) % 10 == j % 10;
    }
  }

  lemma PriorNumber(base: nat, k: nat, r: nat)
    requires base % 10 != 0 && First(base) <= k && r < 10 && Lagging(base, r)
    ensures Prior(k, r) + 10 == Using(k, r) && Prior(k, r) % 10 == r && base <= Prior(k, r)
  {
    FirstForm(base);
    var u := Using(k, r);
    assert u == 10 * (u / 10) + r && First(base) == 10 * (First(base) / 10);
  }

  lemma BehindReceive(l: Layout, base: nat, k: nat, arr: seq<Arrival>, i: nat, gots: seq<set<nat>>)
    requires base % 10 != 0 && First(base) <= k && !Lagging(base, k % 10)
    requires i < |arr| && OrderlyAt(l, base, 0, arr, i) && !Complete(l, arr[..i], k)
    requires Behind(l, base, k, Front(base, k), k + 1, arr[..i], gots)
    ensures Behind(l, base, k, Front(base, k), k + 1, arr[..i + 1], Add(gots, arr[i]))
  {
    var a, after := arr[i], arr[..i + 1];
    if !a.body.Prach? {
      BetweenFrontAndAwaited(l, base, k, Front(base, k), arr, i);
    }
    forall r | 0 <= r < 10 && Lagging(base, r)
      ensures Add(gots, a)[r] == Got(after, Prior(k, r))
    {
      GotSnoc(arr, i, Prior(k, r));
      PriorNumber(base, k, r);
      if !a.body.Prach? && r == a.sf {
        LaggingIsPrior(base, k, a.k);
      }
    }
    forall j | base <= j < Front(base, k)
      ensures Complete(l, after, j)
    {
      CompleteGrows(l, arr, i, j);
    }
    forall j | k + 1 <= j
      ensures Got(after, j) == {}
    {
      GotSnoc(arr, i, j);
    }
  }

  lemma {:induction false} CompleteStays(l: Layout, arr: seq<Arrival>, p: nat, q: nat, j: nat)
    requires p <= q <= |arr| && Complete(l, arr[..p], j)
    ensures Complete(l, arr[..q], j)
    decreases q - p
  {
    if p < q {
      CompleteGrows(l, arr, p, j);
      CompleteStays(l, arr, p + 1, q, j);
    }
  }

  lemma {:induction false} BehindCollect(l: Layout, base: nat, k: nat, arr: seq<Arrival>, p: nat, q: nat,
                                         gots: seq<set<nat>>)
    requires base % 10 != 0 && First(base) <= k && !Lagging(base, k % 10) && InOrder(l, base, arr)
    requires p <= q <= |arr| && (p < q ==> !Complete(l, arr[..q - 1], k))
    requires Behind(l, base, k, Front(base, k), k + 1, arr[..p], gots)
    ensures Behind(l, base, k, Front(base, k), k + 1, arr[..q], Collect(gots, arr, p, q))
    decreases q - p
  {
    if p < q {
      if Complete(l, arr[..p], k) {
        CompleteStays(l, arr, p, q - 1, k);
      }
      assert OrderlyAt(l, base, 0, arr, p);
      BehindReceive(l, base, k, arr, p, gots);
      BehindCollect(l, base, k, arr, p + 1, q, Add(gots, arr[p]));
    }
  }

  /** In an in-order stream a subframe completes only after all before it. */
  lemma CompletesInOrder(l: Layout, base: nat, arr: seq<Arrival>, q: nat, k: nat, j: nat)
    requires InOrder(l, base, arr) && 1 <= q <= |arr|
    requires !Complete(l, arr[..q - 1], k) && Complete(l, arr[..q], k) && base <= j <= k
    ensures Complete(l, arr[..q], j)
  {
    var i := q - 1;
    GotSnoc(arr, i, k);
    assert OrderlyAt(l, base, 0, arr, i);
    assert arr[i].k == k && !arr[i].body.Prach? by {
      if arr[i].k != k || arr[i].body.Prach? {
        SameGot(l, arr[..i], arr[..q], k);
      }
    }
    if j < k {
      CompleteGrows(l, arr, i, j);
    }
  }

  lemma SameGot(l: Layout, a: seq<Arrival>, b: seq<Arrival>, k: nat)
    requires Got(b, k) <= Got(a, k) && Complete(l, b, k)
    ensures Complete(l, a, k)
  {}

  /** A call for a subframe number that does not lag takes exactly the packets up to
      the one that completes subframe k. */
  lemma OwnCall(l: Layout, base: nat, k: nat, arr: seq<Arrival>, p: nat, q: nat, gots: seq<set<nat>>)
    requires base % 10 != 0 && First(base) <= k && !Lagging(base, k % 10) && InOrder(l, base, arr)
    requires p <= q <= |arr| && Complete(l, arr[..q], k) && (p < q ==> !Complete(l, arr[..q - 1], k))
    requires Behind(l, base, k, Front(base, k), Front(base, k), arr[..p], gots)
    ensures Behind(l, base, k + 1, Front(base, k + 1), Front(base, k + 1), arr[..q], NextGots(k, arr, p, q, gots))
  {
    if p == q {
      NothingIsIncomplete(l, arr[..p], k);
    }
    BehindCollect(l, base, k, arr, p, q, gots);
    forall j | base <= j <= k
      ensures Complete(l, arr[..q], j)
    {
      CompletesInOrder(l, base, arr, q, k, j);
    }
    FrontOwn(base, k);
    PriorMoves(k);
  }

  lemma FrontOwn(base: nat, k: nat)
    requires base % 10 != 0 && First(base) <= k && !Lagging(base, k % 10)
    ensures Front(base, k) <= k && Front(base, k + 1) == k + 1
  {}

  lemma FrontLagging(base: nat, k: nat)
    requires base % 10 != 0 && First(base) <= k && Lagging(base, k % 10)
    ensures Front(base, k + 1) == Front(base, k) <= k
    ensures Prior(k, k % 10) + 10 == k && base <= Prior(k, k % 10) < Front(base, k)
    ensures Prior(k, k % 10) % 10 == k % 10
    ensures Prior(k + 1, k % 10) == k
  {
    UsingUnique(k, k);
    UsingMoves(k, k % 10);
    PriorNumber(base, k, k % 10);
  }

  /** A call for a lagging number finds the mask full of the frame before's symbols:
      it takes no packet, and nothing of subframe k has arrived. */
  lemma LaggingCall(l: Layout, base: nat, k: nat, arr: seq<Arrival>, gots: seq<set<nat>>)
    requires base % 10 != 0 && First(base) <= k && Lagging(base, k % 10)
    requires Behind(l, base, k, Front(base, k), Front(base, k), arr, gots)
    ensures HasAll(gots[k % 10], Need(l, k % 10)) && Got(arr, k) == {}
    ensures Behind(l, base, k + 1, Front(base, k + 1), Front(base, k + 1), arr, gots[k % 10 := {}])
  {
    FrontLagging(base, k);
    PriorMoves(k);
    LaggingSets(l, base, k, k % 10, Front(base, k), arr, gots);
  }

  lemma LaggingSets(l: Layout, base: nat, k: nat, r: nat, front: nat, arr: seq<Arrival>, gots: seq<set<nat>>)
    requires r < 10 && Lagging(base, r) && Behind(l, base, k, front, front, arr, gots)
    requires front <= k && base <= Prior(k, r) < front && Prior(k, r) % 10 == r && Prior(k + 1, r) == k
    requires forall e :: 0 <= e < 10 && e != r ==> Prior(k + 1, e) == Prior(k, e)
    ensures HasAll(gots[r], Need(l, r)) && Got(arr, k) == {}
    ensures Behind(l, base, k + 1, front, front, arr, gots[r := {}])
  {
    assert Complete(l, arr, Prior(k, r));
  }

  lemma PriorMoves(k: nat)
    ensures forall r :: 0 <= r < 10 && r != k % 10 ==> Prior(k + 1, r) == Prior(k, r)
  {
    forall r | 0 <= r < 10 && r != k % 10
      ensures Prior(k + 1, r) == Prior(k, r)
    {
      UsingMoves(k, r);
    }
  }

  /** In an in-order stream that starts inside a frame: what every call does. */
  ghost predicate Lags(l: Layout, base: nat, k: nat, arr: seq<Arrival>, rx: Rx, gots: seq<set<nat>>) {
    && Shaped(arr, rx) && First(base) <= k
    && (base % 10 != 0 ==> Behind(l, base, k, Front(base, k), Front(base, k), arr[..rx.pos], gots))
  }

  /** A call that finds the awaited mask full takes no packet. */
  lemma FullCall(l: Layout, arr: seq<Arrival>, rx: Rx)
    requires Shaped(arr, rx) && MaskFull(l, rx.masks, Advance(rx).subframe)
    ensures var o := Call(l, arr, rx);
            o.Returns? && o.rx.pos == rx.pos && !o.mismatch
  {}

  lemma LagsLagging(l: Layout, base: nat, k: nat, arr: seq<Arrival>, rx: Rx, gots: seq<set<nat>>)
    requires base % 10 != 0 && Lagging(base, k % 10)
    requires InStep(l, base, k, arr, rx, gots) && Lags(l, base, k, arr, rx, gots)
    ensures var o := Call(l, arr, rx);
            o.Returns? && o.rx.pos == rx.pos && !o.mismatch && Got(arr[..rx.pos], k) == {}
    ensures Lags(l, base, k + 1, arr, Call(l, arr, rx).rx, NextGots(k, arr, rx.pos, rx.pos, gots))
  {
    LaggingCall(l, base, k, arr[..rx.pos], gots);
    FullStands(l, rx.masks, gots, k % 10);
    AdvanceCounts(l, base, k, arr, rx, gots);
    FullCall(l, arr, rx);
  }

  lemma LagsOwn(l: Layout, base: nat, k: nat, arr: seq<Arrival>, rx: Rx, gots: seq<set<nat>>, o: Outcome)
    requires InOrder(l, base, arr) && base % 10 != 0 && !Lagging(base, k % 10)
    requires Lags(l, base, k, arr, rx, gots) && |gots| == 10
    requires o.Returns? && Shaped(arr, o.rx) && Stepped(l, base, k, arr, rx, gots, o)
    ensures Lags(l, base, k + 1, arr, o.rx, NextGots(k, arr, rx.pos, o.rx.pos, gots))
  {
    OwnCall(l, base, k, arr, rx.pos, o.rx.pos, gots);
  }

  // Whole runs -----------------------------------------------------------------------------

  /** The receiver before the call for subframe k, in any stream and in one in order. */
  ghost predicate OnTrack(l: Layout, base: nat, k: nat, arr: seq<Arrival>, rx: Rx, gots: seq<set<nat>>) {
    InStep(l, base, k, arr, rx, gots) && (InOrder(l, base, arr) ==> Lags(l, base, k, arr, rx, gots))
  }

  lemma FreshOnTrack(l: Layout, base: nat, k: nat, arr: seq<Arrival>)
    requires k == First(base)
    ensures OnTrack(l, base, k, arr, FRESH_RX, NothingGot())
  {
    FreshInStep(l, base, arr);
    assert arr[..0] == [];
    if base % 10 != 0 {
      BehindStart(l, base);
    }
  }

  lemma StaysOnTrack(l: Layout, base: nat, k: nat, next: nat, arr: seq<Arrival>, rx: Rx, gots: seq<set<nat>>,
                     o: Outcome)
    returns (gots': seq<set<nat>>)
    requires Orderly(l, base, arr) && OnTrack(l, base, k, arr, rx, gots) && next == k + 1
    requires o.Returns? && o == Call(l, arr, rx)
    ensures OnTrack(l, base, next, arr, o.rx, gots')
  {
    CallStep(l, base, k, arr, rx, gots);
    if InOrder(l, base, arr) && base % 10 != 0 {
      if Lagging(base, k % 10) {
        LagsLagging(l, base, k, arr, rx, gots);
      } else {
        LagsOwn(l, base, k, arr, rx, gots, o);
      }
    }
    gots' := NextGots(k, arr, rx.pos, o.rx.pos, gots);
  }

  /** The receiver before call n. */
  function Before(l: Layout, arr: seq<Arrival>, n: nat): (rx: Rx)
    requires n == 0 || Nth(l, arr, n - 1).Returns?
    ensures Shaped(arr, rx)
  {
    if n == 0 then FRESH_RX else Nth(l, arr, n - 1).rx
  }

  lemma NthIsCall(l: Layout, arr: seq<Arrival>, n: nat)
    requires n == 0 || Nth(l, arr, n - 1).Returns?
    ensures Nth(l, arr, n) == Call(l, arr, Before(l, arr, n))
  {}

  lemma {:induction false} RunOnTrack(l: Layout, base: nat, arr: seq<Arrival>, n: nat, k: nat)
    returns (gots: seq<set<nat>>)
    requires Orderly(l, base, arr) && (n == 0 || Nth(l, arr, n - 1).Returns?) && k == First(base) + n
    ensures OnTrack(l, base, k, arr, Before(l, arr, n), gots)
    decreases n
  {
    if n == 0 {
      gots := NothingGot();
      FreshOnTrack(l, base, k, arr);
    } else {
      var m, j := n - 1, k - 1;
      var before := RunOnTrack(l, base, arr, m, j);
      NthIsCall(l, arr, m);
      gots := StaysOnTrack(l, base, j, k, arr, Before(l, arr, m), before, Nth(l, arr, m));
    }
  }

  // Results --------------------------------------------------------------------------------

  /** Every orderly stream, whatever subframe it starts with.  Call n is for the
      n-th subframe from the first frame start on.  It returns with the counters
      at that subframe, or the subframe never completes.  It takes no packet after
      the one that completes the subframe.  Unless the subframe number lags, it
      returns only once the subframe is complete, in its own frame.  A mismatch branch
      is taken exactly when frame_rx is not the awaited frame. */
  lemma CallsAreConsecutive(l: Layout, base: nat, arr: seq<Arrival>, n: nat, k: nat)
    requires Orderly(l, base, arr) && (n == 0 || Nth(l, arr, n - 1).Returns?) && k == First(base) + n
    ensures match Nth(l, arr, n)
            case Waits => !Complete(l, arr, k)
            case Returns(rx, frameRx, mismatch) =>
              && (rx.frame, rx.subframe) == Label(k) && (mismatch <==> frameRx != rx.frame)
              && (!Lagging(base, k % 10) ==> Complete(l, arr[..rx.pos], k) && !mismatch)
              && (Before(l, arr, n).pos < rx.pos ==> !Complete(l, arr[..rx.pos - 1], k))
  {
    var gots := RunOnTrack(l, base, arr, n, k);
    NthIsCall(l, arr, n);
    CallStep(l, base, k, arr, Before(l, arr, n), gots);
  }

  /** A stream that starts with a frame, in any orderly arrival order: the calls
      return consecutive subframes from the first on, each complete, and take no
      mismatch branch. */
  lemma FrameStartIsExact(l: Layout, base: nat, arr: seq<Arrival>, n: nat)
    requires Orderly(l, base, arr) && base % 10 == 0 && Nth(l, arr, n).Returns?
    ensures var o := Nth(l, arr, n);
            && (o.frameRx, o.rx.subframe) == (o.rx.frame, o.rx.subframe) == Label(base + n)
            && Complete(l, arr[..o.rx.pos], base + n) && !o.mismatch
  {
    UsingUnique(base, base);
    CallsAreConsecutive(l, base, arr, n, base + n);
  }

  /** No call waits for a subframe that has arrived. */
  lemma {:induction false} ArrivedIsReturned(l: Layout, base: nat, arr: seq<Arrival>, n: nat)
    requires Orderly(l, base, arr)
    requires forall j :: First(base) <= j <= First(base) + n ==> Complete(l, arr, j)
    ensures Nth(l, arr, n).Returns?
  {
    if n > 0 {
      ArrivedIsReturned(l, base, arr, n - 1);
    }
    CallsAreConsecutive(l, base, arr, n, First(base) + n);
  }

  /** A call that returns subframe k at once, before anything of it has arrived. */
  ghost predicate EmptyReturn(arr: seq<Arrival>, k: nat, before: Rx, o: Outcome) {
    && o.Returns? && (o.rx.frame, o.rx.subframe) == Label(k) && !o.mismatch
    && o.rx.pos == before.pos <= |arr| && Got(arr[..o.rx.pos], k) == {}
  }

  lemma LaggingStep(l: Layout, base: nat, k: nat, arr: seq<Arrival>, rx: Rx, gots: seq<set<nat>>)
    requires InOrder(l, base, arr) && Lagging(base, k % 10) && OnTrack(l, base, k, arr, rx, gots)
    ensures EmptyReturn(arr, k, rx, Call(l, arr, rx))
  {
    InOrderIsOrderly(l, base, arr);
    LagsLagging(l, base, k, arr, rx, gots);
    CallStep(l, base, k, arr, rx, gots);
  }

  /** An in-order stream that starts inside a frame: under the subframe numbers
      from the start's on, every call returns at once, before anything of its
      subframe has arrived. */
  lemma LaggingReturnsEmpty(l: Layout, base: nat, arr: seq<Arrival>, n: nat, k: nat)
    requires InOrder(l, base, arr) && n > 0 && Nth(l, arr, n - 1).Returns?
    requires k == First(base) + n && Lagging(base, k % 10)
    ensures EmptyReturn(arr, k, Before(l, arr, n), Nth(l, arr, n))
  {
    InOrderIsOrderly(l, base, arr);
    var gots := RunOnTrack(l, base, arr, n, k);
    NthIsCall(l, arr, n);
    LaggingStep(l, base, k, arr, Before(l, arr, n), gots);
  }

  ghost predicate ReturnsComplete(l: Layout, base: nat, arr: seq<Arrival>, n: nat) {
    var o := Nth(l, arr, n);
    o.Returns? && Complete(l, arr[..o.rx.pos], First(base) + n)
  }

  lemma {:induction false} EarlierReturns(l: Layout, arr: seq<Arrival>, i: nat, n: nat)
    requires i <= n && Nth(l, arr, n).Returns?
    ensures Nth(l, arr, i).Returns?
    decreases n
  {
    if i < n {
      EarlierReturns(l, arr, i, n - 1);
    }
  }

  lemma FrameStartComplete(l: Layout, base: nat, arr: seq<Arrival>, i: nat)
    requires Orderly(l, base, arr) && base % 10 == 0 && Nth(l, arr, i).Returns?
    ensures ReturnsComplete(l, base, arr, i)
  {
    FrameStartIsExact(l, base, arr, i);
    UsingUnique(base, base);
  }

  lemma FirstPlus(base: nat, s: nat)
    requires s < 10
    ensures (First(base) + s) % 10 == s
  {}

  lemma EmptyIsIncomplete(l: Layout, base: nat, arr: seq<Arrival>, n: nat, before: Rx)
    requires EmptyReturn(arr, First(base) + n, before, Nth(l, arr, n))
    ensures !ReturnsComplete(l, base, arr, n)
  {
    NothingIsIncomplete(l, arr[..Nth(l, arr, n).rx.pos], First(base) + n);
  }

  lemma MidFrameIncomplete(l: Layout, base: nat, arr: seq<Arrival>, s: nat)
    requires InOrder(l, base, arr) && s == base % 10 && s > 0 && Nth(l, arr, s - 1).Returns?
    ensures !ReturnsComplete(l, base, arr, s)
  {
    FirstPlus(base, s);
    LaggingReturnsEmpty(l, base, arr, s, First(base) + s);
    EmptyIsIncomplete(l, base, arr, s, Before(l, arr, s));
  }

  /** For in-order streams every return is of a complete subframe if and only if the
      stream starts with a frame. */
  lemma EveryReturnCompleteIff(l: Layout, base: nat, arr: seq<Arrival>, n: nat)
    requires InOrder(l, base, arr) && Nth(l, arr, n).Returns? && n >= base % 10
    ensures (forall i :: 0 <= i <= n ==> ReturnsComplete(l, base, arr, i)) <==> base % 10 == 0
  {
    if base % 10 == 0 {
      InOrderIsOrderly(l, base, arr);
      forall i | 0 <= i <= n
        ensures ReturnsComplete(l, base, arr, i)
      {
        EarlierReturns(l, arr, i, n);
        FrameStartComplete(l, base, arr, i);
      }
    } else {
      var s := base % 10;
      EarlierReturns(l, arr, s - 1, n);
      MidFrameIncomplete(l, base, arr, s);
    }
  }

  // A stream that starts inside a frame -----------------------------------------------------

  const ONE_SYMBOL: Layout := seq(10, i => Expect(1, false))

  /** One packet in each of n subframes from base on. */
  function Stream(base: nat, n: nat): seq<Arrival> {
    seq(n, i requires 0 <= i => Arrival(base + i, ((base + i) / 10) % 1024, (base + i) % 10, Symbol(0)))
  }

  lemma {:induction false} StreamGot(base: nat, n: nat, i: nat, j: nat)
    requires i <= n
    ensures Got(Stream(base, n)[..i], j) == if base <= j < base + i then {0} else {}
  {
    if i > 0 {
      StreamGot(base, n, i - 1, j);
      GotSnoc(Stream(base, n), i - 1, j);
    }
  }

  lemma StreamInOrder(base: nat, n: nat)
    ensures InOrder(ONE_SYMBOL, base, Stream(base, n))
  {
    var arr := Stream(base, n);
    forall i | 0 <= i < n
      ensures OrderlyAt(ONE_SYMBOL, base, 0, arr, i)
    {
      StreamGot(base, n, i, arr[i].k);
      forall j | base <= j < arr[i].k
        ensures Complete(ONE_SYMBOL, arr[..i], j)
      {
        StreamGot(base, n, i, j);
      }
    }
  }

  /** One packet for each subframe from base on, which is number s > 0 of its
      frame: after s calls the next one returns subframe base + 10, of which nothing
      has arrived. */
  lemma MidFrameStart(base: nat, s: nat, n: nat)
    requires s == base % 10 && s > 0 && n >= 10
    ensures var o := Nth(ONE_SYMBOL, Stream(base, n), s);
            && o.Returns? && (o.rx.frame, o.rx.subframe) == Label(base + 10)
            && Got(Stream(base, n)[..o.rx.pos], base + 10) == {}
  {
    var arr := Stream(base, n);
    StreamInOrder(base, n);
    InOrderIsOrderly(ONE_SYMBOL, base, arr);
    FirstForm(base);
    FirstPlus(base, s);
    StreamArrived(base, n, s - 1);
    ArrivedIsReturned(ONE_SYMBOL, base, arr, s - 1);
    LaggingReturnsEmpty(ONE_SYMBOL, base, arr, s, base + 10);
  }

  lemma StreamArrived(base: nat, n: nat, m: nat)
    requires First(base) + m < base + n
    ensures forall j :: First(base) <= j <= First(base) + m ==> Complete(ONE_SYMBOL, Stream(base, n), j)
  {
    var arr := Stream(base, n);
    assert arr[..n] == arr;
    forall j | First(base) <= j <= First(base) + m
      ensures Complete(ONE_SYMBOL, arr, j)
    {
      StreamGot(base, n, n, j);
    }
  }

  // The program -----------------------------------------------------------------------

  /** timestamp_rx of a subframe. */
  function TimeOf(samplesPerTti: nat, f: nat, sf: nat): nat {
    (f * 10 + sf) * samplesPerTti
  }

  class Receiver {
    const layout: Layout
    const samplesPerTti: nat
    const symbolMask: array<nat>
    const arr: seq<Arrival>  // the packets recv_IF4p5 delivers
    var pos: nat             // how many it has delivered
    var firstRx: bool
    var frameRx: nat
    var ttiRx: nat
    var timestampRx: nat
    var frame: nat           // the counters of ru_thread
    var subframe: nat

    ghost function View(): Rx
      reads this, symbolMask
    {
      Rx(symbolMask[..], firstRx, frame, subframe, pos)
    }

    constructor (layout: Layout, samplesPerTti: nat, arr: seq<Arrival>)
      ensures this.layout == layout && this.samplesPerTti == samplesPerTti && this.arr == arr
      ensures fresh(symbolMask) && View() == FRESH_RX
    {
      this.layout := layout;
      this.samplesPerTti := samplesPerTti;
      this.arr := arr;
      symbolMask := new nat[10](_ => 0);
      pos, firstRx, frame, subframe := 0, true, 1023, 9;
      frameRx, ttiRx, timestampRx := 0, 0, 0;
      new;
      assert symbolMask[..] == FRESH_RX.masks;
    }

    method Store(a: Arrival)
      requires symbolMask.Length == 10
      modifies symbolMask
      ensures symbolMask[..] == Receive(old(symbolMask[..]), a)
    {
      var sf := a.sf;
      match a.body {
        case Symbol(n) => symbolMask[sf] := SetBit(symbolMask[sf], n);
        case Tick => symbolMask[sf] := TICK_MASK;
        case Prach =>
      }
    }

    /** The receive loop; `blocked` says that it never ends. */
    method Gather() returns (blocked: bool, f: nat, sf: nat)
      requires Shaped(arr, View())
      modifies symbolMask, this`pos
      ensures match Read(layout, old(symbolMask[..]), arr, old(pos), subframe, frame, subframe)
              case Blocked => blocked
              case Filled(masks, pos', f', sf') =>
                !blocked && symbolMask[..] == masks && pos == pos' && f == f' && sf == sf'
    {
      blocked, f, sf := false, frame, subframe;
      ghost var goal := Read(layout, symbolMask[..], arr, pos, subframe, frame, subframe);
      while symbolMask[subframe] < Full(layout[subframe].symbols)
        invariant pos <= |arr| && !blocked
        invariant Read(layout, symbolMask[..], arr, pos, subframe, f, sf) == goal
        decreases |arr| - pos
      {
        if pos == |arr| {
          blocked := true;
          return;
        }
        var a := arr[pos];
        f, sf := a.frame, a.sf;
        Store(a);
        pos := pos + 1;
      }
    }

    /** Setting the radio unit's time. */
    method Publish(f: nat, sf: nat)
      modifies this`frameRx, this`ttiRx, this`timestampRx
      ensures frameRx == f && ttiRx == sf && timestampRx == TimeOf(samplesPerTti, f, sf)
    {
      ttiRx, frameRx := sf, f;
      timestampRx := (frameRx * 10 + ttiRx) * samplesPerTti;
    }

    /** fh_if4p5_south_in. */
    method ReceiveSubframe() returns (blocked: bool, mismatch: bool)
      requires Shaped(arr, View())
      modifies this, symbolMask
      ensures match SouthIn(layout, arr, old(View()))
              case Waits => blocked
              case Returns(rx, f, m) =>
                && !blocked && View() == rx && mismatch == m
                && frameRx == f && ttiRx == subframe && timestampRx == TimeOf(samplesPerTti, f, subframe)
    {
      mismatch := false;
      var f, sf;
      OwnSubframe(layout, symbolMask[..], arr, pos, subframe, frame, subframe);
      blocked, f, sf := Gather();
      if blocked {
        return;
      }
      Publish(f, sf);
      if !firstRx {
        mismatch := ttiRx != subframe || frameRx != frame;
        subframe := sf;
      } else {
        firstRx := false;
        frame, subframe := frameRx, ttiRx;
      }
      symbolMask[sf] := 0;
    }

    /** One turn of ru_thread's loop. */
    method NextSubframe() returns (blocked: bool, mismatch: bool)
      requires Shaped(arr, View())
      modifies this, symbolMask
      ensures match Call(layout, arr, old(View()))
              case Waits => blocked
              case Returns(rx, f, m) =>
                && !blocked && View() == rx && mismatch == m
                && frameRx == f && ttiRx == subframe && timestampRx == TimeOf(samplesPerTti, f, subframe)
    {
      if subframe == 9 {
        subframe := 0;
        frame := (frame + 1) % 1024;
      } else {
        subframe := subframe + 1;
      }
      blocked, mismatch := ReceiveSubframe();
    }
  }

  datatype Returned = Returned(frameRx: nat, ttiRx: nat, timestampRx: nat, pos: nat, mismatch: bool)

  /** The receiving thread on a packet stream, for the given number of calls or
      until one blocks: each return is that of Nth, to which the results above
      apply. */
  method ReceiveAll(layout: Layout, samplesPerTti: nat, arr: seq<Arrival>, calls: nat) returns (out: seq<Returned>)
    ensures |out| <= calls
    ensures Recorded(layout, samplesPerTti, arr, out)
    ensures |out| < calls ==> Nth(layout, arr, |out|).Waits?
  {
    var rx := new Receiver(layout, samplesPerTti, arr);
    out := [];
    while |out| < calls
      invariant |out| <= calls && fresh(rx) && fresh(rx.symbolMask)
      invariant rx.layout == layout && rx.samplesPerTti == samplesPerTti && rx.arr == arr && Shaped(arr, rx.View())
      invariant Nth(layout, arr, |out|) == Call(layout, arr, rx.View())
      invariant Recorded(layout, samplesPerTti, arr, out)
      decreases calls - |out|
    {
      var blocked, mismatch := rx.NextSubframe();
      if blocked {
        return;
      }
      var x := Returned(rx.frameRx, rx.ttiRx, rx.timestampRx, rx.pos, mismatch);
      RecordedSnoc(layout, samplesPerTti, arr, out, x);
      out := out + [x];
    }
  }

  ghost predicate IsNth(l: Layout, spt: nat, arr: seq<Arrival>, n: nat, x: Returned) {
    match Nth(l, arr, n)
    case Waits => false
    case Returns(rx, f, m) => x == Returned(f, rx.subframe, TimeOf(spt, f, rx.subframe), rx.pos, m)
  }

  ghost predicate Recorded(l: Layout, spt: nat, arr: seq<Arrival>, out: seq<Returned>) {
    forall n :: 0 <= n < |out| ==> IsNth(l, spt, arr, n, out[n])
  }

  lemma RecordedSnoc(l: Layout, spt: nat, arr: seq<Arrival>, out: seq<Returned>, x: Returned)
    requires Recorded(l, spt, arr, out) && IsNth(l, spt, arr, |out|, x)
    ensures Recorded(l, spt, arr, out + [x])
  {}

  /** timestamp_rx of subframe k counts its samples from the start of its period of
      1024 frames. */
  lemma TimeOfLabel(spt: nat, k: nat)
    ensures TimeOf(spt, Label(k).0, Label(k).1) == (k % 10240) * spt
  {
    var q := k / 10;
    assert k == (q / 1024) * 10240 + (q % 1024 * 10 + k % 10);
    DivMod(k, 10240, q / 1024, q % 1024 * 10 + k % 10);
  }

  /** What the program returns for a stream that starts with a frame: subframe base + n
      at its n-th return, complete, with its numbers and its timestamp. */
  lemma ReturnedExactly(l: Layout, spt: nat, base: nat, arr: seq<Arrival>, out: seq<Returned>, n: nat)
    requires Orderly(l, base, arr) && base % 10 == 0 && Recorded(l, spt, arr, out) && n < |out|
    ensures (out[n].frameRx, out[n].ttiRx) == Label(base + n) && !out[n].mismatch
    ensures out[n].timestampRx == ((base + n) % 10240) * spt
    ensures out[n].pos <= |arr| && Complete(l, arr[..out[n].pos], base + n)
  {
    assert IsNth(l, spt, arr, n, out[n]);
    FrameStartIsExact(l, base, arr, n);
    TimeOfLabel(spt, base + n);
  }
}
