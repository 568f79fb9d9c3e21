/**
 The synchronisation handshake of the LTE UE: UE_thread fills the receive
 buffer and hands it to UE_thread_synch through instance_cnt_synch, and the
 latter searches for a cell, stepping the carrier offset after each failure.
 */
module UeSync {

  datatype UeThread =
    | UeTop        // about to read instance_cnt_synch and is_synchronized
    | UeFilling    // reading 10 ms of samples into rxdata
    | UeFilled     // about to increment instance_cnt_synch
    | UeDummy      // reading into the dummy buffer
    | UeStreaming  // synchronised: reading into rxdata

  datatype SyncThread =
    | SyncTop                   // about to test instance_cnt_synch
    | SyncAsleep(woken: bool)   // in pthread_cond_wait
    | SyncRunning               // in initial_sync, which reads rxdata
    | SyncFound                 // about to set is_synchronized
    | SyncDump                  // rx_dump_frame mode, after setting it
    | SyncDone                  // about to decrement instance_cnt_synch

  datatype State = State(
    cnt: int,              // instance_cnt_synch
    synchronized: bool,    // is_synchronized
    scan: bool,            // UE_scan_carrier
    offset: int,           // freq_offset
    failures: nat,         // failures of initial_sync while scanning
    ue: UeThread,
    sync: SyncThread,
    busyExit: bool,        // the "sync thread busy" exit was taken
    abandoned: bool)       // the search gave up and the process exited

  /** Each action is one critical section under the mutex, or one step outside it.
      The signal marks the sync thread, if it sleeps, as woken; a woken thread tests
      the counter again, and wake-ups may be spurious.  In rx_dump_frame mode the
      program either undoes is_synchronized or exits; SyncKeep stands for the exit
      and lets the run go on, which only adds runs. */
  datatype Action =
    | UeLook | UeFill | UeSignal | UeRead | UeStream
    | SyncTest | SyncSpurious | SyncSucceed | SyncFail | SyncSet | SyncUnset | SyncKeep | SyncRelease

  const STEP: int := 100
  const LIMIT: int := 7500

  function Init(scan: bool): State {
    State(-1, false, scan, 0, 0, UeTop, SyncTop, false, false)
  }

  /** The carrier offset after one more failure. */
  function NextOffset(offset: int): int {
    -(if offset >= 0 then offset + STEP else offset)
  }

  predicate Enabled(s: State, a: Action) {
    !s.busyExit && !s.abandoned &&
    match a
    case UeLook => s.ue.UeTop?
    case UeFill => s.ue.UeFilling?
    case UeSignal => s.ue.UeFilled?
    case UeRead => s.ue.UeDummy?
    case UeStream => s.ue.UeStreaming?
    case SyncTest => s.sync.SyncTop? || s.sync == SyncAsleep(true)
    case SyncSpurious => s.sync == SyncAsleep(false)
    case SyncSucceed => s.sync.SyncRunning?
    case SyncFail => s.sync.SyncRunning?
    case SyncSet => s.sync.SyncFound?
    case SyncUnset => s.sync.SyncDump?
    case SyncKeep => s.sync.SyncDump?
    case SyncRelease => s.sync.SyncDone?
  }

  /** One step; `dump` is rx_dump_frame mode. */
  function Apply(dump: bool, s: State, a: Action): State
    requires Enabled(s, a)
  {
    match a
    case UeLook => s.(ue := if s.synchronized then UeStreaming else if s.cnt < 0 then UeFilling else UeDummy)
    case UeFill => s.(ue := UeFilled)
    case UeSignal =>
      if s.cnt + 1 == 0 then s.(cnt := 0, ue := UeTop, sync := if s.sync.SyncAsleep? then SyncAsleep(true) else s.sync)
      else s.(cnt := s.cnt + 1, ue := UeTop, busyExit := true)
    case UeRead => s.(ue := UeTop)
    case UeStream => s.(ue := UeTop)
    case SyncTest => s.(sync := if s.cnt < 0 then SyncAsleep(false) else SyncRunning)
    case SyncSpurious => s.(sync := SyncAsleep(true))
    case SyncSucceed =>
      if s.scan then s.(sync := SyncDone, scan := false, offset := 0) else s.(sync := SyncFound)
    case SyncFail =>
      if s.scan then
        s.(sync := SyncDone, offset := NextOffset(s.offset), failures := s.failures + 1,
           abandoned := Abs(NextOffset(s.offset)) > LIMIT)
      else s.(sync := SyncDone)
    case SyncSet => s.(synchronized := true, sync := if dump then SyncDump else SyncDone)
    case SyncUnset => s.(synchronized := false, sync := SyncDone)
    case SyncKeep => s.(sync := SyncDone)
    case SyncRelease => s.(cnt := s.cnt - 1, sync := SyncTop)
  }

  function Abs(x: int): nat {
    if x < 0 then -x else x
  }

  ghost predicate Possible(dump: bool, s: State, acts: seq<Action>)
    decreases |acts|
  {
    acts == [] || (Enabled(s, acts[0]) && Possible(dump, Apply(dump, s, acts[0]), acts[1..]))
  }

  ghost function After(dump: bool, s: State, acts: seq<Action>): State
    requires Possible(dump, s, acts)
    decreases |acts|
  {
    if acts == [] then s else After(dump, Apply(dump, s, acts[0]), acts[1..])
  }

  // The carrier search ------------------------------------------------------------------

  /** The offset tried after k failures. */
  function OffsetAfter(k: nat): int {
    if k == 0 then 0 else NextOffset(OffsetAfter(k - 1))
  }

  /** 0, -100, 100, -200, 200, ... */
  function Tried(k: nat): int {
    if k % 2 == 1 then -STEP * ((k + 1) / 2) else STEP * (k / 2)
  }

  lemma TriedNext(k: nat)
    ensures Tried(k + 1) == NextOffset(Tried(k))
  {}

  lemma {:induction false} OffsetForm(k: nat)
    ensures OffsetAfter(k) == Tried(k)
  {
    if k > 0 {
      OffsetForm(k - 1);
      TriedNext(k - 1);
    }
  }

  /** The search gives up at exactly the 151st failure. */
  lemma AbandonsAt151(k: nat)
    ensures Abs(OffsetAfter(k)) > LIMIT <==> k >= 151
  {
    OffsetForm(k);
  }

  /** Until then it tries every multiple of 100 Hz from -7500 to 7500. */
  lemma CoversEveryOffset(m: int) returns (k: nat)
    requires -75 <= m <= 75
    ensures k <= 150 && OffsetAfter(k) == STEP * m
  {
    k := if m < 0 then 2 * -m - 1 else 2 * m;
    OffsetForm(k);
  }

  /** It tries no offset twice. */
  lemma NoOffsetTwice(j: nat, k: nat)
    ensures OffsetAfter(j) == OffsetAfter(k) ==> j == k
  {
    OffsetForm(j);
    OffsetForm(k);
  }

  // The handshake -------------------------------------------------------------------------

  predicate Waits(t: SyncThread) {
    t.SyncTop? || t.SyncAsleep?
  }

  ghost predicate Inv(s: State) {
    && !s.busyExit
    && (s.cnt == -1 || s.cnt == 0)
    && (s.sync == SyncAsleep(false) ==> s.cnt == -1)
    && (s.ue.UeFilling? || s.ue.UeFilled? ==> s.cnt == -1 && Waits(s.sync) && !s.synchronized)
    && (!Waits(s.sync) ==> s.cnt == 0)
    && (s.sync.SyncRunning? || s.sync.SyncFound? || (Waits(s.sync) && s.cnt == 0) ==> !s.synchronized)
    && (s.ue.UeStreaming? ==> s.sync.SyncDump? || s.sync.SyncDone? || (Waits(s.sync) && s.cnt == -1))
    && s.offset == (if s.scan then OffsetAfter(s.failures) else 0)
    && (s.abandoned <==> s.failures >= 151)
  }

  lemma StepInv(dump: bool, s: State, a: Action)
    requires Inv(s) && Enabled(s, a)
    ensures Inv(Apply(dump, s, a))
  {
    if a.SyncFail? && s.scan {
      var next := s.failures + 1;
      assert OffsetAfter(next) == NextOffset(s.offset);
      AbandonsAt151(next);
    }
  }

  lemma {:induction false} RunInv(dump: bool, s: State, acts: seq<Action>)
    requires Inv(s) && Possible(dump, s, acts)
    ensures Inv(After(dump, s, acts))
    decreases |acts|
  {
    if acts != [] {
      StepInv(dump, s, acts[0]);
      RunInv(dump, Apply(dump, s, acts[0]), acts[1..]);
    }
  }

  // Results -----------------------------------------------------------------------

  /** In every interleaving and in every mode: instance_cnt_synch is -1 or 0, the
      "sync thread busy" exit is not taken, and UE_thread never writes rxdata while
      initial_sync is running. */
  lemma HandshakeExcludes(dump: bool, scan: bool, acts: seq<Action>)
    requires Possible(dump, Init(scan), acts)
    ensures var s := After(dump, Init(scan), acts);
            && (s.cnt == -1 || s.cnt == 0)
            && !s.busyExit
            && !(s.sync.SyncRunning? && (s.ue.UeFilling? || s.ue.UeStreaming?))
  {
    RunInv(dump, Init(scan), acts);
  }

  /** No wake-up is lost: the sync thread never sleeps unwoken on a buffer that was
      handed over. */
  lemma NoLostWakeUp(dump: bool, scan: bool, acts: seq<Action>)
    requires Possible(dump, Init(scan), acts)
    ensures var s := After(dump, Init(scan), acts);
            !(s.cnt == 0 && s.sync == SyncAsleep(false))
  {
    RunInv(dump, Init(scan), acts);
  }

  /** Successful calls of initial_sync in a run. */
  ghost function Successes(acts: seq<Action>): nat {
    if acts == [] then 0 else (if acts[0].SyncSucceed? then 1 else 0) + Successes(acts[1..])
  }

  /** Failed calls while scanning: those before the first success, if the run starts
      scanning. */
  ghost function ScanFailures(scan: bool, acts: seq<Action>): nat {
    if !scan || acts == [] || acts[0].SyncSucceed? then 0
    else (if acts[0].SyncFail? then 1 else 0) + ScanFailures(scan, acts[1..])
  }

  lemma {:induction false} ScanRun(dump: bool, s: State, acts: seq<Action>)
    requires Possible(dump, s, acts)
    ensures var t := After(dump, s, acts);
            && t.scan == (s.scan && Successes(acts) == 0)
            && t.failures == s.failures + ScanFailures(s.scan, acts)
    decreases |acts|
  {
    if acts != [] {
      ScanRun(dump, Apply(dump, s, acts[0]), acts[1..]);
    }
  }

  /** The scan goes on until the first success.  Throughout it the offset is that of
      the number of failures so far, after it 0, and the process gives up in exactly the
      runs with 151 failures of the scan. */
  lemma SearchFollowsSequence(dump: bool, scan: bool, acts: seq<Action>)
    requires Possible(dump, Init(scan), acts)
    ensures var s := After(dump, Init(scan), acts);
            && s.scan == (scan && Successes(acts) == 0)
            && s.offset == (if s.scan then OffsetAfter(ScanFailures(scan, acts)) else 0)
            && (s.abandoned <==> ScanFailures(scan, acts) >= 151)
  {
    RunInv(dump, Init(scan), acts);
    ScanRun(dump, Init(scan), acts);
  }

  // Synchronisation ------------------------------------------------------------------------

  ghost predicate NoUnset(acts: seq<Action>) {
    forall i :: 0 <= i < |acts| ==> !acts[i].SyncUnset?
  }

  /** Some SyncSet has no SyncUnset after it. */
  ghost predicate SetLast(acts: seq<Action>) {
    exists i :: 0 <= i < |acts| && acts[i].SyncSet? && NoUnset(acts[i + 1..])
  }

  lemma SetLastCons(acts: seq<Action>)
    requires acts != []
    ensures SetLast(acts) <==> (acts[0].SyncSet? && NoUnset(acts[1..])) || SetLast(acts[1..])
    ensures NoUnset(acts) <==> !acts[0].SyncUnset? && NoUnset(acts[1..])
  {
    var rest := acts[1..];
    if SetLast(acts) {
      var i :| 0 <= i < |acts| && acts[i].SyncSet? && NoUnset(acts[i + 1..]);
      if i > 0 {
        assert rest[i - 1] == acts[i] && rest[i..] == acts[i + 1..];
        assert rest[i - 1].SyncSet? && NoUnset(rest[(i - 1) + 1..]);
      }
    }
    if SetLast(rest) {
      var i :| 0 <= i < |rest| && rest[i].SyncSet? && NoUnset(rest[i + 1..]);
      assert acts[i + 1] == rest[i] && acts[(i + 1) + 1..] == rest[i + 1..];
    }
    if NoUnset(rest) && !acts[0].SyncUnset? {
      forall i | 0 <= i < |acts|
        ensures !acts[i].SyncUnset?
      {
        assert i == 0 || acts[i] == rest[i - 1];
      }
    }
  }

  lemma {:induction false} SyncedRun(dump: bool, s: State, acts: seq<Action>)
    requires Possible(dump, s, acts)
    ensures After(dump, s, acts).synchronized <==> SetLast(acts) || (s.synchronized && NoUnset(acts))
    decreases |acts|
  {
    if acts != [] {
      SyncedRun(dump, Apply(dump, s, acts[0]), acts[1..]);
      SetLastCons(acts);
    }
  }

  ghost function Sets(acts: seq<Action>): nat {
    if acts == [] then 0 else (if acts[0].SyncSet? then 1 else 0) + Sets(acts[1..])
  }

  ghost function DumpSteps(acts: seq<Action>): nat {
    if acts == [] then 0 else (if acts[0].SyncUnset? || acts[0].SyncKeep? then 1 else 0) + DumpSteps(acts[1..])
  }

  /** The successes that count: all but the one that ends a scan. */
  ghost function Found(scan: bool, acts: seq<Action>): nat {
    if scan && Successes(acts) > 0 then Successes(acts) - 1 else Successes(acts)
  }

  lemma {:induction false} SetsRun(dump: bool, s: State, acts: seq<Action>)
    requires Possible(dump, s, acts)
    ensures var t := After(dump, s, acts);
            && Sets(acts) + (if t.sync.SyncFound? then 1 else 0) ==
               Found(s.scan, acts) + (if s.sync.SyncFound? then 1 else 0)
            && DumpSteps(acts) + (if t.sync.SyncDump? then 1 else 0) ==
               (if dump then Sets(acts) else 0) + (if s.sync.SyncDump? then 1 else 0)
    decreases |acts|
  {
    if acts != [] {
      SetsRun(dump, Apply(dump, s, acts[0]), acts[1..]);
    }
  }

  /** In every run is_synchronized is set once for each success of initial_sync other
      than the one that ends a scan, all but perhaps the last so far; and in
      rx_dump_frame mode, only, each time is followed by the dump. */
  lemma SetOncePerSuccess(dump: bool, scan: bool, acts: seq<Action>)
    requires Possible(dump, Init(scan), acts)
    ensures var s := After(dump, Init(scan), acts);
            && Sets(acts) + (if s.sync.SyncFound? then 1 else 0) == Found(scan, acts)
            && DumpSteps(acts) + (if s.sync.SyncDump? then 1 else 0) == if dump then Sets(acts) else 0
  {
    SetsRun(dump, Init(scan), acts);
  }

  /** The "sync thread busy" exit is taken, from any state of UE_thread, exactly when a
      second buffer is handed over before the first is handed back. */
  lemma {:induction false} BusyExitIff(dump: bool, s: State, acts: seq<Action>)
    requires Possible(dump, s, acts) && !s.busyExit
    requires (s.cnt == -1 || s.cnt == 0) && (!Waits(s.sync) ==> s.cnt == 0)
    ensures var t := After(dump, s, acts);
            t.busyExit <==> t.cnt == 1
    decreases |acts|
  {
    if acts != [] {
      var s', rest := Apply(dump, s, acts[0]), acts[1..];
      if s'.busyExit {
        assert rest == [];
      } else {
        BusyExitIff(dump, s', rest);
      }
    }
  }

  /** After any run the UE is synchronised if and only if is_synchronized was set and
      not undone since, and exactly then UE_thread's next look starts streaming. */
  lemma SynchronisedIff(dump: bool, scan: bool, acts: seq<Action>)
    requires Possible(dump, Init(scan), acts)
    ensures var s := After(dump, Init(scan), acts);
            && (s.synchronized <==> SetLast(acts))
            && (Enabled(s, UeLook) ==> (Apply(dump, s, UeLook).ue.UeStreaming? <==> SetLast(acts)))
  {
    SyncedRun(dump, Init(scan), acts);
  }

  lemma {:induction false} SuccessRun(s: State, acts: seq<Action>)
    requires Possible(false, s, acts) && !s.sync.SyncDump?
    requires s.synchronized || s.sync.SyncFound? || Successes(acts) >= if s.scan then 2 else 1
    ensures var t := After(false, s, acts);
            t.synchronized || t.sync.SyncFound?
    decreases |acts|
  {
    if acts != [] {
      SuccessRun(Apply(false, s, acts[0]), acts[1..]);
    }
  }

  /** Outside rx_dump_frame mode a success of initial_sync, or the second one if the
      carrier is scanned, makes the UE synchronised before the buffer is handed back,
      for good. */
  lemma SuccessSynchronises(scan: bool, acts: seq<Action>)
    requires Possible(false, Init(scan), acts) && Successes(acts) >= if scan then 2 else 1
    ensures var s := After(false, Init(scan), acts);
            s.cnt == -1 ==> s.synchronized
  {
    RunInv(false, Init(scan), acts);
    SuccessRun(Init(scan), acts);
  }

  // Hand-over ------------------------------------------------------------------------------

  predicate ByUe(a: Action) {
    a.UeLook? || a.UeFill? || a.UeSignal? || a.UeRead? || a.UeStream?
  }

  /** The sync thread's own steps. */
  predicate BySync(a: Action) {
    !ByUe(a) && !a.SyncSpurious?
  }

  ghost function UeSteps(acts: seq<Action>): nat {
    if acts == [] then 0 else (if ByUe(acts[0]) then 1 else 0) + UeSteps(acts[1..])
  }

  ghost function SyncSteps(acts: seq<Action>): nat {
    if acts == [] then 0 else (if BySync(acts[0]) then 1 else 0) + SyncSteps(acts[1..])
  }

  /** The counter is c in every state of the run, its end included. */
  ghost predicate StaysAt(dump: bool, s: State, acts: seq<Action>, c: int)
    requires Possible(dump, s, acts)
    decreases |acts|
  {
    s.cnt == c && (acts == [] || StaysAt(dump, Apply(dump, s, acts[0]), acts[1..], c))
  }

  /** Steps of the sync thread until it hands the buffer back. */
  function SyncLeft(s: State): nat {
    match s.sync
    case SyncTop => 5
    case SyncAsleep(_) => 5
    case SyncRunning => 4
    case SyncFound => 3
    case SyncDump => 2
    case SyncDone => 1
  }

  /** Steps of UE_thread until it hands the next buffer over. */
  function UeLeft(s: State): nat {
    match s.ue
    case UeStreaming => 4
    case UeDummy => 4
    case UeTop => 3
    case UeFilling => 2
    case UeFilled => 1
  }

  lemma ServingStep(dump: bool, s: State, a: Action)
    requires Inv(s) && s.cnt == 0 && Enabled(s, a) && Apply(dump, s, a).cnt == 0
    ensures !a.SyncSpurious? && SyncLeft(Apply(dump, s, a)) + (if BySync(a) then 1 else 0) <= SyncLeft(s)
  {}

  /** While a buffer is handed over the sync thread can step, and it takes fewer than
      five steps, whatever UE_thread does, before the buffer is handed back or the
      search is abandoned. */
  lemma {:induction false} BufferIsServed(dump: bool, s: State, acts: seq<Action>)
    requires Inv(s) && Possible(dump, s, acts) && StaysAt(dump, s, acts, 0)
    ensures SyncSteps(acts) < SyncLeft(s) <= 5
    ensures var t := After(dump, s, acts);
            t.abandoned || exists a :: BySync(a) && Enabled(t, a)
    decreases |acts|
  {
    if acts == [] {
      var a := SyncCanStep(s);
    } else {
      ServingStep(dump, s, acts[0]);
      StepInv(dump, s, acts[0]);
      BufferIsServed(dump, Apply(dump, s, acts[0]), acts[1..]);
    }
  }

  lemma SyncCanStep(s: State) returns (a: Action)
    requires Inv(s) && s.cnt == 0
    ensures BySync(a) && (s.abandoned || Enabled(s, a))
  {
    a := match s.sync
      case SyncTop => SyncTest
      case SyncAsleep(_) => SyncTest
      case SyncRunning => SyncSucceed
      case SyncFound => SyncSet
      case SyncDump => SyncKeep
      case SyncDone => SyncRelease;
  }

  lemma FillingStep(dump: bool, s: State, a: Action)
    requires Inv(s) && s.cnt == -1 && !s.synchronized && Enabled(s, a) && Apply(dump, s, a).cnt == -1
    ensures var s' := Apply(dump, s, a);
            UeLeft(s') + (if ByUe(a) then 1 else 0) <= UeLeft(s) && !s'.synchronized && s'.abandoned == s.abandoned
  {}

  /** While no buffer is handed over and the UE is not synchronised, UE_thread can
      step, and it takes fewer than four steps, whatever the sync thread and spurious
      wake-ups do, before it hands one over. */
  lemma {:induction false} BufferIsFilled(dump: bool, s: State, acts: seq<Action>)
    requires Inv(s) && !s.synchronized && !s.abandoned && Possible(dump, s, acts) && StaysAt(dump, s, acts, -1)
    ensures UeSteps(acts) < UeLeft(s) <= 4
    ensures var t := After(dump, s, acts);
            exists a :: ByUe(a) && Enabled(t, a)
    decreases |acts|
  {
    if acts == [] {
      var a := UeCanStep(s);
    } else {
      FillingStep(dump, s, acts[0]);
      StepInv(dump, s, acts[0]);
      BufferIsFilled(dump, Apply(dump, s, acts[0]), acts[1..]);
    }
  }

  lemma UeCanStep(s: State) returns (a: Action)
    requires Inv(s) && !s.abandoned
    ensures ByUe(a) && Enabled(s, a)
  {
    a := match s.ue
      case UeTop => UeLook
      case UeFilling => UeFill
      case UeFilled => UeSignal
      case UeDummy => UeRead
      case UeStreaming => UeStream;
  }

  // The program ----------------------------------------------------------------------------

  /** The shared variables and the two threads. */
  class Synch {
    const dump: bool
    var cnt: int
    var isSynchronized: bool
    var scanCarrier: bool
    var freqOffset: int
    ghost var failures: nat
    var ue: UeThread
    var sync: SyncThread
    var busyExit: bool
    var abandoned: bool

    ghost function View(): State
      reads this
    {
      State(cnt, isSynchronized, scanCarrier, freqOffset, failures, ue, sync, busyExit, abandoned)
    }

    constructor (dump: bool, scan: bool)
      ensures this.dump == dump && View() == Init(scan) && Inv(View())
    {
      this.dump := dump;
      cnt, isSynchronized, scanCarrier, freqOffset, failures := -1, false, scan, 0, 0;
      ue, sync, busyExit, abandoned := UeTop, SyncTop, false, false;
    }

    /** The critical section of UE_thread that hands the buffer over. */
    method Signal()
      modifies this`cnt, this`sync, this`busyExit
      ensures cnt == old(cnt) + 1 && (busyExit <==> old(busyExit) || cnt != 0)
      ensures sync == if cnt == 0 && old(sync).SyncAsleep? then SyncAsleep(true) else old(sync)
    {
      cnt := cnt + 1;
      if cnt == 0 {
        if sync.SyncAsleep? {
          sync := SyncAsleep(true);
        }
      } else {
        busyExit := true;
      }
    }

    /** UE_thread from its place in the loop to the next. */
    method UeStep() returns (ghost a: Action)
      requires Inv(View()) && !abandoned
      modifies this`cnt, this`ue, this`sync, this`busyExit
      ensures ByUe(a) && Enabled(old(View()), a) && View() == Apply(dump, old(View()), a) && Inv(View())
    {
      a := UeCanStep(View());
      StepInv(dump, View(), a);
      match ue {
        case UeTop =>
          if !isSynchronized {
            ue := if cnt < 0 then UeFilling else UeDummy;
          } else {
            ue := UeStreaming;
          }
        case UeFilling => ue := UeFilled;
        case UeFilled =>
          Signal();
          ue := UeTop;
        case _ => ue := UeTop;
      }
    }

    /** The carrier offset after a failure while scanning. */
    method StepOffset()
      modifies this`freqOffset, this`abandoned, this`failures
      ensures freqOffset == NextOffset(old(freqOffset)) && failures == old(failures) + 1
      ensures abandoned <==> Abs(freqOffset) > LIMIT
    {
      if freqOffset >= 0 {
        freqOffset := freqOffset + STEP;
      }
      freqOffset := freqOffset * -1;
      failures := failures + 1;
      abandoned := Abs(freqOffset) > LIMIT;
    }

    /** UE_thread_synch likewise.  `found` is the answer of initial_sync, and `odd`
        says that the received frame is odd, for rx_dump_frame mode. */
    method SyncStep(found: bool, odd: bool) returns (ghost a: Action)
      requires Inv(View()) && !abandoned && sync != SyncAsleep(false)
      modifies this
      ensures BySync(a) && Enabled(old(View()), a) && View() == Apply(dump, old(View()), a) && Inv(View())
    {
      match sync {
        case SyncRunning => a := if found then SyncSucceed else SyncFail;
        case SyncFound => a := SyncSet;
        case SyncDump => a := if odd then SyncUnset else SyncKeep;
        case SyncDone => a := SyncRelease;
        case _ => a := SyncTest;
      }
      StepInv(dump, View(), a);
      match sync {
        case SyncRunning =>
          if found && !scanCarrier {
            sync := SyncFound;
          } else {
            if found {
              scanCarrier, freqOffset := false, 0;
            } else if scanCarrier {
              StepOffset();
            }
            sync := SyncDone;
          }
        case SyncFound =>
          isSynchronized := true;
          sync := if dump then SyncDump else SyncDone;
        case SyncDump =>
          if odd {
            isSynchronized := false;
          }
          sync := SyncDone;
        case SyncDone =>
          cnt := cnt - 1;
          sync := SyncTop;
        case _ => sync := if cnt < 0 then SyncAsleep(false) else SyncRunning;
      }
    }
  }

  /** The search on its own: initial_sync answers `found` for an offset.  It finds
      the first offset of the sequence that answers, or gives up after 151 failures
      with none of the 151 offsets answering. */
  method SearchCarrier(found: int -> bool) returns (freqOffset: int, failures: nat, abandoned: bool)
    ensures !abandoned ==> found(freqOffset) && freqOffset == Tried(failures) && -LIMIT <= freqOffset <= LIMIT
    ensures abandoned ==> failures == 151
    ensures forall k :: 0 <= k < failures ==> !found(Tried(k))
  {
    freqOffset, failures, abandoned := 0, 0, false;
    while !found(freqOffset)
      invariant freqOffset == Tried(failures) && failures <= 150 && !abandoned
      invariant forall k :: 0 <= k < failures ==> !found(Tried(k))
      decreases 151 - failures
    {
      TriedNext(failures);
      if freqOffset >= 0 {
        freqOffset := freqOffset + STEP;
      }
      freqOffset := freqOffset * -1;
      failures := failures + 1;
      if Abs(freqOffset) > LIMIT {
        abandoned := true;
        return;
      }
    }
  }
}
