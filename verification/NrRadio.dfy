/**
 Timing of the NR radio unit: rx_rf with its drift correction against the frame
 and slot counters of ru_thread.
 */
module NrRadio {
  import opened CArithmetic
  import opened FrameParms
  import SlotTable

  /** The fields of RU_t and RU_proc_t that rx_rf touches, and the local
      counters of ru_thread. */
  datatype Ru = Ru(
    timestampRx: int,
    tsOffset: int,
    firstRx: bool,
    frameRx: int,
    ttiRx: int,
    frame: int,
    slot: int)

  datatype Outcome = Running(ru: Ru) | Exited

  function FreshRu(p: Parms, tsOffset: int): Ru {
    Ru(0, tsOffset, true, 0, 0, 1023, SlotsPerFrame(p) - 1)
  }

  /** The counters of ru_thread at the top of its loop. */
  function Advance(p: Parms, ru: Ru): Ru {
    if ru.slot == SlotsPerFrame(p) - 1 then ru.(slot := 0, frame := (ru.frame + 1) % 1024)
    else ru.(slot := ru.slot + 1)
  }

  /** rx_rf, given the device timestamp ts. */
  function RxRf(p: Parms, ru: Ru, ts: int): Outcome {
    var oldTs := ru.timestampRx;
    var raw := ts - ru.tsOffset;
    var prev := SamplesPerSlot(p, CMod(ru.slot - 1, SlotsPerFrame(p)));
    var drift := if ru.firstRx then 0 else raw - oldTs - prev;
    var tsOffset := ru.tsOffset + drift;
    var timestampRx := ts - tsOffset;
    var frameRx := FrameOf(p, timestampRx);
    var ttiRx := SlotFromTimestamp(p, timestampRx);
    if ru.firstRx then Running(Ru(timestampRx, tsOffset, false, frameRx, ttiRx, frameRx, ttiRx))
    else if ttiRx != ru.slot || frameRx != ru.frame then Exited
    else Running(Ru(timestampRx, tsOffset, false, frameRx, ttiRx, ru.frame, ru.slot))
  }

  /** ru_thread over a sequence of device timestamps. */
  function Run(p: Parms, ru: Ru, tss: seq<int>): Outcome
    decreases |tss|
  {
    if tss == [] then Running(ru)
    else
      match RxRf(p, Advance(p, ru), tss[0])
      case Exited => Exited
      case Running(ru') => Run(p, ru', tss[1..])
  }

  /** How far into its slot a timestamp lies. */
  function Phase(p: Parms, timestamp: nat): int {
    timestamp - SlotStart(p, SlotTable.SlotAt(TableOf(p), timestamp))
  }

  function ShortestSlot(p: Parms): nat {
    if p.mu <= 1 then SamplesPerSlot0(p) else SamplesPerSlotN0(p)
  }

  /** The state in step with the n-th slot, `phase` samples into it. */
  ghost predicate InStep(p: Parms, ru: Ru, n: nat, phase: nat) {
    && !ru.firstRx
    && ru.timestampRx == SlotStart(p, n) + phase
    && ru.frame == ru.frameRx == (n / SlotsPerFrame(p)) % 1024
    && ru.slot == ru.ttiRx == n % SlotsPerFrame(p)
  }

  lemma SlotBounds(p: Parms, n: nat)
    ensures ShortestSlot(p) <= SlotLength(p, n)
    ensures p.mu <= 1 ==> SlotLength(p, n) == ShortestSlot(p)
  {
    HalfSubframe(p);
    if p.mu == 1 {
      assert SlotsPerSubframe(p) / 2 == 1;
    }
  }

  /** The counters of ru_thread follow the slot number across the frame wrap. */
  lemma AdvanceCounts(p: Parms, ru: Ru, n: nat)
    requires ru.frame == (n / SlotsPerFrame(p)) % 1024 && ru.slot == n % SlotsPerFrame(p)
    ensures Advance(p, ru).frame == ((n + 1) / SlotsPerFrame(p)) % 1024
    ensures Advance(p, ru).slot == (n + 1) % SlotsPerFrame(p)
  {
    DivSucc(n, SlotsPerFrame(p));
  }

  /** rx_rf asks for the length of slot (slot - 1) % slots_per_frame, which is -1
      in C when slot is 0; the table still answers with the last slot's length. */
  lemma PrevSlotLength(p: Parms, n: nat)
    ensures var spf := SlotsPerFrame(p);
            SamplesPerSlot(p, CMod((n + 1) % spf - 1, spf)) == SlotLength(p, n)
  {
    var spf := SlotsPerFrame(p);
    DivSucc(n, spf);
    SlotStartForm(p, n);
    if (n + 1) % spf == 0 {
      LastSlotLength(p);
    } else {
      CModSmall(n % spf, spf);
    }
  }

  lemma CModSmall(a: nat, n: nat)
    requires a < n
    ensures CMod(a, n) == a
  {
    DivMod(a, n, 0, a);
  }

  lemma LastSlotLength(p: Parms)
    ensures var spf := SlotsPerFrame(p); SamplesPerSlot(p, CMod(-1, spf)) == SamplesPerSlot(p, spf - 1)
  {
    var spf, h := SlotsPerFrame(p), SlotsPerSubframe(p) / 2;
    CModSmall(1, spf);
    assert CMod(-1, spf) == -1;
    if p.mu == 1 {
      assert h == 1;
    } else if p.mu >= 2 {
      assert h >= 2;
      CModSmall(1, h);
      DivMod(spf - 1, h, 19, h - 1);
    }
  }

  lemma AfterDrift(p: Parms, ru: Ru, n: nat, phase: nat, ts: int)
    requires InStep(p, ru, n, phase)
    ensures var r := Advance(p, ru);
            var prev := SamplesPerSlot(p, CMod(r.slot - 1, SlotsPerFrame(p)));
            ts - (r.tsOffset + (ts - r.tsOffset - r.timestampRx - prev)) == SlotStart(p, n + 1) + phase
  {
    AdvanceCounts(p, ru, n);
    PrevSlotLength(p, n);
    SlotTable.StartStep(TableOf(p), n);
  }

  lemma StepStaysInStep(p: Parms, ru: Ru, n: nat, phase: nat, ts: int)
    requires InStep(p, ru, n, phase) && phase < ShortestSlot(p)
    ensures var o := RxRf(p, Advance(p, ru), ts);
            o.Running? && InStep(p, o.ru, n + 1, phase) && o.ru.timestampRx + o.ru.tsOffset == ts
  {
    AfterDrift(p, ru, n, phase, ts);
    AdvanceCounts(p, ru, n);
    SlotBounds(p, n + 1);
    DecodeSlot(p, n + 1, phase);
  }

  lemma {:induction false} RunStaysInStep(p: Parms, ru: Ru, n: nat, phase: nat, tss: seq<int>)
    requires InStep(p, ru, n, phase) && phase < ShortestSlot(p)
    ensures var o := Run(p, ru, tss);
            && o.Running? && InStep(p, o.ru, n + |tss|, phase)
            && (tss != [] ==> o.ru.timestampRx + o.ru.tsOffset == tss[|tss| - 1])
    decreases |tss|
  {
    if tss != [] {
      StepStaysInStep(p, ru, n, phase, tss[0]);
      RunStaysInStep(p, RxRf(p, Advance(p, ru), tss[0]).ru, n + 1, phase, tss[1..]);
    }
  }

  /** A long first slot entered past the length of a short one: the second read
      already decodes one slot too far. */
  lemma LatePhaseExits(p: Parms, ru: Ru, n: nat, phase: nat, ts: int)
    requires InStep(p, ru, n, phase) && ShortestSlot(p) <= phase < SlotLength(p, n)
    ensures RxRf(p, Advance(p, ru), ts) == Exited
  {
    var t, spf := TableOf(p), SlotsPerFrame(p);
    SlotBounds(p, n);
    assert p.mu >= 2;
    HalfSubframe(p);
    Sizes(p);
    DivSucc(n, t.h);
    SlotTable.StartStep(t, n + 1);
    assert SlotLength(p, n + 1) == t.rest;
    var over := phase - t.rest;
    assert over < t.rest by { OverRun(p); }
    SlotBounds(p, n + 2);
    DecodeSlot(p, n + 2, over);
    AfterDrift(p, ru, n, phase, ts);
    AdvanceCounts(p, ru, n);
    DivSucc(n + 1, spf);
  }

  lemma OverRun(p: Parms)
    requires p.mu >= 2
    ensures SamplesPerSlot0(p) - SamplesPerSlotN0(p) < SamplesPerSlotN0(p)
  {
    Sizes(p);
    assert SlotsPerSubframe(p) <= 16;
    assert p.fft128 * SlotsPerSubframe(p) <= 16 * p.fft128;
  }

  /** After a negative timestamp the second read decodes slot 0 again. */
  lemma NegativeExits(p: Parms, ru: Ru, ts: int)
    requires !ru.firstRx && ru.timestampRx < 0 && ru.slot == 0
    ensures RxRf(p, Advance(p, ru), ts) == Exited
  {
    var r := Advance(p, ru);
    CModSmall(0, SlotsPerFrame(p));
    assert r.slot == 1 && SamplesPerSlot(p, 0) == SlotTable.Length(TableOf(p), 0) by { LengthIsTable(p, 0); }
    EarlyIsSlot0(p, ru.timestampRx + SamplesPerSlot0(p));
  }

  // Results -----------------------------------------------------------------------

  /** The timing exits of rx_rf are unreachable, whatever timestamps the device
      returns, if and only if the first timestamp is not negative and lies
      within the length of a short slot of its slot's start. */
  lemma TimingLockIff(p: Parms, tsOffset: int, ts0: int, tss: seq<int>)
    requires tss != []
    ensures Run(p, FreshRu(p, tsOffset), [ts0] + tss).Running? <==>
            ts0 >= tsOffset && Phase(p, ts0 - tsOffset) < ShortestSlot(p)
  {
    var ru := RxRf(p, Advance(p, FreshRu(p, tsOffset)), ts0).ru;
    FirstStep(p, tsOffset, ts0, tss);
    if ts0 < tsOffset {
      EarlyIsSlot0(p, ts0 - tsOffset);
      NegativeExits(p, ru, tss[0]);
    } else {
      var n, phase := FirstLock(p, tsOffset, ts0);
      if phase < ShortestSlot(p) {
        RunStaysInStep(p, ru, n, phase, tss);
      } else {
        LatePhaseExits(p, ru, n, phase, tss[0]);
      }
    }
  }

  lemma FirstStep(p: Parms, tsOffset: int, ts0: int, tss: seq<int>)
    ensures var o := RxRf(p, Advance(p, FreshRu(p, tsOffset)), ts0);
            o.Running? && Run(p, FreshRu(p, tsOffset), [ts0] + tss) == Run(p, o.ru, tss)
  {
    assert ([ts0] + tss)[1..] == tss;
  }

  lemma FirstLock(p: Parms, tsOffset: int, ts0: int) returns (n: nat, phase: nat)
    requires ts0 >= tsOffset
    ensures phase == Phase(p, ts0 - tsOffset) < SlotLength(p, n)
    ensures InStep(p, RxRf(p, Advance(p, FreshRu(p, tsOffset)), ts0).ru, n, phase)
  {
    n := SlotTable.SlotAt(TableOf(p), ts0 - tsOffset);
    SlotTable.SlotAtContains(TableOf(p), ts0 - tsOffset);
    phase := Phase(p, ts0 - tsOffset);
    DecodeSlot(p, n, phase);
  }

  /** While the lock holds, k slots after the first read the radio unit is exactly
      k slots on, its counters name that slot, and timestamp_rx + ts_offset is
      the device's last timestamp. */
  lemma TimingLockTracks(p: Parms, tsOffset: int, ts0: int, tss: seq<int>) returns (n: nat)
    requires ts0 >= tsOffset && Phase(p, ts0 - tsOffset) < ShortestSlot(p)
    ensures ts0 - tsOffset == SlotStart(p, n) + Phase(p, ts0 - tsOffset)
    ensures var o := Run(p, FreshRu(p, tsOffset), [ts0] + tss);
            && o.Running?
            && o.ru.timestampRx == SlotStart(p, n + |tss|) + Phase(p, ts0 - tsOffset)
            && o.ru.frame == o.ru.frameRx == ((n + |tss|) / SlotsPerFrame(p)) % 1024
            && o.ru.slot == o.ru.ttiRx == (n + |tss|) % SlotsPerFrame(p)
            && o.ru.timestampRx + o.ru.tsOffset == ([ts0] + tss)[|tss|]
  {
    FirstStep(p, tsOffset, ts0, tss);
    var phase;
    n, phase := FirstLock(p, tsOffset, ts0);
    RunStaysInStep(p, RxRf(p, Advance(p, FreshRu(p, tsOffset)), ts0).ru, n, phase, tss);
    if tss != [] {
      assert ([ts0] + tss)[|tss|] == tss[|tss| - 1];
    }
  }

  /** For every numerology above 1 there is a first timestamp that exits on the
      second read: one short slot length into the first, long slot. */
  lemma TimingLockCanFail(p: Parms, tss: seq<int>)
    requires p.mu >= 2 && tss != []
    ensures Run(p, FreshRu(p, 0), [SamplesPerSlotN0(p)] + tss) == Exited
  {
    PhaseInFirstSlot(p);
    TimingLockIff(p, 0, SamplesPerSlotN0(p), tss);
  }

  lemma PhaseInFirstSlot(p: Parms)
    requires p.mu >= 2
    ensures Phase(p, SamplesPerSlotN0(p)) == SamplesPerSlotN0(p)
  {
    HalfSubframe(p);
    FirstSlot(TableOf(p), SamplesPerSlotN0(p));
    DivMod(0, TableOf(p).h, 0, 0);
  }

  /** A frame counter that is off is found out at the next read, and only then. */
  lemma WrongFrameExitsIff(p: Parms, ru: Ru, n: nat, phase: nat, ts: int)
    requires !ru.firstRx && ru.timestampRx == SlotStart(p, n) + phase && phase < ShortestSlot(p)
    requires ru.slot == n % SlotsPerFrame(p) && 0 <= ru.frame < 1024
    ensures RxRf(p, Advance(p, ru), ts).Running? <==> ru.frame == (n / SlotsPerFrame(p)) % 1024
  {
    var f := (n / SlotsPerFrame(p)) % 1024;
    var right := ru.(frame := f, frameRx := f, ttiRx := ru.slot);
    StepStaysInStep(p, right, n, phase, ts);
    WrapInjective(ru.frame, f);
  }

  lemma WrapInjective(a: nat, b: nat)
    requires a < 1024 && b < 1024
    ensures (a + 1) % 1024 == (b + 1) % 1024 <==> a == b
  {}

  // The thread as the program has it ------------------------------------------------

  class RadioUnit {
    const p: Parms
    var timestampRx: int
    var tsOffset: int
    var firstRx: bool
    var frameRx: int
    var ttiRx: int
    var frame: int
    var slot: int

    ghost function View(): Ru
      reads this
    {
      Ru(timestampRx, tsOffset, firstRx, frameRx, ttiRx, frame, slot)
    }

    constructor (p: Parms, tsOffset: int)
      ensures this.p == p && View() == FreshRu(p, tsOffset)
    {
      this.p := p;
      this.tsOffset := tsOffset;
      timestampRx, firstRx, frameRx, ttiRx := 0, true, 0, 0;
      frame, slot := 1023, SlotsPerFrame(p) - 1;
    }

    /** The timestamp part of rx_rf; `prev` is the length of the previous slot. */
    method CorrectDrift(ts: int, prev: nat)
      modifies this`timestampRx, this`tsOffset
      ensures timestampRx == ts - tsOffset
      ensures tsOffset == old(tsOffset) + if firstRx then 0 else ts - old(tsOffset) - old(timestampRx) - prev
    {
      var oldTs := timestampRx;
      timestampRx := ts - tsOffset;
      if !firstRx && timestampRx - oldTs != prev {
        tsOffset := tsOffset + (timestampRx - oldTs - prev);
        timestampRx := ts - tsOffset;
      }
    }

    /** One turn of ru_thread's loop up to the return of rx_rf. */
    method ReceiveSlot(ts: int) returns (exits: bool)
      modifies this
      ensures match RxRf(p, Advance(p, old(View())), ts)
              case Exited => exits
              case Running(ru) => !exits && View() == ru
    {
      if slot == SlotsPerFrame(p) - 1 {
        slot := 0;
        frame := (frame + 1) % 1024;
      } else {
        slot := slot + 1;
      }
      var prev := SamplesPerSlot(p, CMod(slot - 1, SlotsPerFrame(p)));
      CorrectDrift(ts, prev);
      frameRx := FrameOf(p, timestampRx);
      ttiRx := SlotFromTimestamp(p, timestampRx);
      exits := false;
      if !firstRx {
        if ttiRx != slot {
          exits := true;
        }
        if frameRx != frame {
          exits := true;
        }
      } else {
        firstRx := false;
        frame, slot := frameRx, ttiRx;
      }
    }
  }
}
