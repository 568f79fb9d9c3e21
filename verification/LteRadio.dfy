/**
 Timing of the LTE radio unit: rx_rf with its drift correction and frame
 resynchronisation against the frame and subframe counters of ru_thread.
 */
module LteRadio {
  import opened CArithmetic

  /** ru->cmd, as far as rx_rf looks at it. */
  datatype Command = NoCommand | FrameResynch(cmdval: nat)

  /** What one turn of the loop receives: the device timestamp and the command
      pending when rx_rf runs. */
  datatype Input = Input(ts: int, cmd: Command)

  datatype Ru = Ru(
    timestampRx: int,
    tsOffset: int,
    firstRx: bool,
    frameRx: int,
    ttiRx: int,
    frame: int,
    subframe: int)

  datatype Outcome = Running(ru: Ru) | Exited

  const FRESH_RU: Ru := Ru(0, 0, true, 0, 0, 1023, 9)

  /** The counters of ru_thread at the top of its loop. */
  function Advance(ru: Ru): Ru {
    if ru.subframe == 9 then ru.(subframe := 0, frame := (ru.frame + 1) % 1024)
    else ru.(subframe := ru.subframe + 1)
  }

  /** rx_rf for a radio with `spt` samples per subframe. */
  function RxRf(spt: nat, ru: Ru, i: Input): Outcome
    requires spt >= 1
  {
    var resynch := i.cmd.FrameResynch?;
    var off := if resynch then ru.tsOffset + (ru.frameRx - i.cmd.cmdval) * spt * 10 else ru.tsOffset;
    var frame := if resynch then i.cmd.cmdval else ru.frame;
    var raw := i.ts - off;
    var off' :=
      if ru.firstRx then raw
      else if !resynch then off + (raw - ru.timestampRx - spt)
      else off;
    var timestampRx := if ru.firstRx then 0 else i.ts - off';
    var frameRx := CDiv(timestampRx, spt * 10) % 1024;
    var ttiRx := CMod(CDiv(timestampRx, spt), 10);
    if ru.firstRx then Running(Ru(timestampRx, off', false, frameRx, ttiRx, frameRx, ttiRx))
    else if ttiRx != ru.subframe || frameRx != frame then Exited
    else Running(Ru(timestampRx, off', false, frameRx, ttiRx, frame, ru.subframe))
  }

  function Step(spt: nat, ru: Ru, i: Input): Outcome
    requires spt >= 1
  {
    RxRf(spt, Advance(ru), i)
  }

  function Run(spt: nat, ru: Ru, inputs: seq<Input>): Outcome
    requires spt >= 1
    decreases |inputs|
  {
    if inputs == [] then Running(ru)
    else
      match Step(spt, ru, inputs[0])
      case Exited => Exited
      case Running(ru') => Run(spt, ru', inputs[1..])
  }

  /** The state in step with the m-th subframe since timestamp 0, `phase` samples
      into it. */
  ghost predicate InStep(spt: nat, ru: Ru, m: nat, phase: nat) {
    && !ru.firstRx && phase < spt
    && ru.timestampRx == m * spt + phase
    && ru.frame == ru.frameRx == (m / 10) % 1024
    && ru.subframe == ru.ttiRx == m % 10
  }

  /** Any sample of subframe m decodes to it. */
  lemma Decode(spt: nat, m: nat, phase: nat)
    requires phase < spt
    ensures CDiv(m * spt + phase, spt * 10) == m / 10
    ensures CMod(CDiv(m * spt + phase, spt), 10) == m % 10
  {
    DivMod(m * spt + phase, spt, m, phase);
    var q, r := m / 10, m % 10;
    Split(q, r, spt);
    Below(r, spt);
    DivMod(m * spt + phase, spt * 10, q, r * spt + phase);
  }

  lemma Split(q: nat, r: nat, spt: nat)
    ensures (q * 10 + r) * spt == q * (spt * 10) + r * spt
  {}

  lemma Below(r: nat, spt: nat)
    requires r < 10 && spt >= 1
    ensures r * spt + spt <= spt * 10
  {
    Mono(r + 1, 10, spt);
    MulStep(r, spt);
  }

  lemma AdvanceCounts(ru: Ru, m: nat)
    requires ru.frame == (m / 10) % 1024 && ru.subframe == m % 10
    ensures Advance(ru).frame == ((m + 1) / 10) % 1024
    ensures Advance(ru).subframe == (m + 1) % 10
  {
    DivSucc(m, 10);
    WrapSucc(m / 10);
  }

  lemma PlainStep(spt: nat, ru: Ru, m: nat, phase: nat, i: Input)
    requires InStep(spt, ru, m, phase) && i.cmd.NoCommand?
    ensures var o := Step(spt, ru, i);
            o.Running? && InStep(spt, o.ru, m + 1, phase) && o.ru.timestampRx + o.ru.tsOffset == i.ts
  {
    AdvanceCounts(ru, m);
    MulStep(m, spt);
    Decode(spt, m + 1, phase);
  }

  // Frame resynchronisation -----------------------------------------------------------

  /** The subframe number after moving subframe m + 1 by whole frames so that
      frame number (m / 10) % 1024 becomes v. */
  function Moved(m: nat, v: nat): (m': nat)
    ensures m' % 10 == (m + 1) % 10
    ensures m' / 10 == (m + 1) / 10 - (m / 10) % 1024 + v
  {
    m + 1 + 10 * (v - (m / 10) % 1024)
  }

  lemma MovedTimestamp(m: nat, v: nat, spt: nat)
    ensures (m + 1) * spt - ((m / 10) % 1024 - v) * spt * 10 == Moved(m, v) * spt
  {
    var d := v - (m / 10) % 1024;
    assert (m + 1 + 10 * d) * spt == (m + 1) * spt + (10 * d) * spt;
    assert (10 * d) * spt == d * spt * 10;
  }

  /** 1 in subframe 0, else 0. */
  function Carry(m: nat): nat {
    if (m + 1) % 10 == 0 then 1 else 0
  }

  /** Landing q subframes from the moved subframe keeps the numbers. */
  predicate Keeps(m: nat, v: nat, q: int) {
    v < 1024 && q % 10 == 0 && (q / 10 + Carry(m)) % 1024 == 0
  }

  lemma MovedForm(m: nat, v: nat)
    ensures Moved(m, v) / 10 == 1024 * (m / 10 / 1024) + v + Carry(m)
    ensures Moved(m, v) % 10 == 0 ==> Moved(m, v) >= 10
  {
    DivSucc(m, 10);
    var f := m / 10;
    assert f - f % 1024 == 1024 * (f / 1024);
  }

  lemma FrameShift(a: nat, v: nat, s: int)
    requires 1024 * a + v + s >= 0
    ensures (1024 * a + v + s) % 1024 == v <==> v < 1024 && s % 1024 == 0
  {
    assert (1024 * a + v + s) % 1024 == (v + s) % 1024;
  }

  lemma KeepsIff(m: nat, v: nat, q: int, k: nat)
    requires k == Moved(m, v) + q
    ensures k % 10 == (m + 1) % 10 && (k / 10) % 1024 == v <==> Keeps(m, v, q)
  {
    MovedForm(m, v);
    SameNumber(Moved(m, v), q, k);
    if q % 10 == 0 {
      FrameShift(m / 10 / 1024, v, q / 10 + Carry(m));
    }
  }

  lemma SameNumber(m: nat, q: int, k: nat)
    requires k == m + q
    ensures k % 10 == m % 10 <==> q % 10 == 0
    ensures q % 10 == 0 ==> k / 10 == m / 10 + q / 10
  {}

  /** The timestamp of a resynchronised step that is off by `drift`. */
  lemma MovedStep(spt: nat, ru: Ru, m: nat, phase: nat, v: nat, drift: int)
    requires InStep(spt, ru, m, phase)
    ensures var ts := ru.tsOffset + ru.timestampRx + spt + drift;
            ts - (ru.tsOffset + (ru.frameRx - v) * spt * 10) == Moved(m, v) * spt + (phase + drift)
  {
    MulStep(m, spt);
    MovedTimestamp(m, v, spt);
  }

  lemma SumProduct(m: nat, q: int, spt: nat)
    ensures (m + q) * spt == m * spt + q * spt
  {}

  lemma EuclidInt(e: int, n: nat)
    requires n >= 1
    ensures e == (e / n) * n + e % n && 0 <= e % n < n
  {}

  /** A resynchronisation in a step whose timestamp is off by any `drift`.  With the
      phase that makes q subframes and r samples.  If it does not lead before
      timestamp 0, the step runs if and only if cmdval is a frame number and q is a
      whole number of frames that makes up for the frame just begun, modulo 1024:
      none in a subframe other than 0, one back in subframe 0.  The radio unit is
      then in step, its frame number moved to cmdval.  Before timestamp 0 it is not in
      step. */
  lemma ResynchStepIff(spt: nat, ru: Ru, m: nat, phase: nat, v: nat, drift: int, q: int, r: nat)
    requires InStep(spt, ru, m, phase) && phase + drift == q * spt + r && r < spt
    ensures var ts := ru.tsOffset + ru.timestampRx + spt + drift;
            var o := Step(spt, ru, Input(ts, FrameResynch(v)));
            var k := Moved(m, v) + q;
            && (k >= 0 ==> (o.Running? <==> Keeps(m, v, q)))
            && (k >= 0 && o.Running? ==> InStep(spt, o.ru, k, r) && o.ru.frame == v
                                         && o.ru.timestampRx + o.ru.tsOffset == ts)
            && (k < 0 && o.Running? ==> o.ru.timestampRx < 0 && (m + 1) % 10 == 0)
  {
    AdvanceCounts(ru, m);
    MovedStep(spt, ru, m, phase, v, drift);
    var k := Moved(m, v) + q;
    SumProduct(Moved(m, v), q, spt);
    if k >= 0 {
      Decode(spt, k, r);
      KeepsIff(m, v, q, k);
    } else {
      MonoInt(k, -1, spt);
      NegativeNumber(k * spt + r, spt);
    }
  }

  lemma NegativeNumber(x: int, spt: nat)
    requires x < 0 && spt >= 1
    ensures CMod(CDiv(x, spt), 10) <= 0
  {}

  /** What C's division makes of a negative timestamp. */
  lemma NegativeDecode(x: int, spt: nat, n: nat, r: nat)
    requires x == -(n * spt + r) && x < 0 && r < spt
    ensures CDiv(x, spt * 10) == -(n / 10) && CMod(CDiv(x, spt), 10) == -(n % 10)
  {
    DivMod(-x, spt, n, r);
    Decode(spt, n, r);
  }

  /** Before timestamp 0, by n subframes and r samples, the step runs all the same if
      and only if it falls in subframe 0 and n is a whole number of frames that gives
      cmdval modulo 1024. */
  lemma NegativeResynchIff(spt: nat, ru: Ru, m: nat, phase: nat, v: nat, drift: int, n: nat, r: nat)
    requires InStep(spt, ru, m, phase) && r < spt
    requires Moved(m, v) * spt + (phase + drift) == -(n * spt + r) < 0
    ensures var ts := ru.tsOffset + ru.timestampRx + spt + drift;
            var o := Step(spt, ru, Input(ts, FrameResynch(v)));
            && (o.Running? <==> (m + 1) % 10 == 0 && n % 10 == 0 && (-(n / 10)) % 1024 == v)
            && (o.Running? ==> o.ru.timestampRx == -(n * spt + r) && o.ru.subframe == 0 && !o.ru.firstRx)
  {
    AdvanceCounts(ru, m);
    MovedStep(spt, ru, m, phase, v, drift);
    NegativeDecode(-(n * spt + r), spt, n, r);
  }

  /** After such a step the next plain read takes a timing exit. */
  lemma NegativeThenExits(spt: nat, ru: Ru, n: nat, r: nat, ts: int)
    requires !ru.firstRx && ru.subframe == 0 && ru.timestampRx == -(n * spt + r) < 0 && r < spt && n % 10 == 0
    ensures Step(spt, ru, Input(ts, NoCommand)) == Exited
  {
    if n == 0 {
      Decode(spt, 0, spt - r);
    } else {
      MulStep(n - 1, spt);
      MonoInt(1, n - 1, spt);
      NegativeDecode(ru.timestampRx + spt, spt, n - 1, r);
    }
  }

  /** Off by less than nine subframes: only a subframe other than 0, and only if the
      timestamp stays in its subframe. */
  lemma ResynchNearIff(spt: nat, ru: Ru, m: nat, phase: nat, v: nat, drift: int, q: int, r: nat)
    requires InStep(spt, ru, m, phase) && phase + drift == q * spt + r && r < spt && -9 <= q <= 9
    ensures Step(spt, ru, Input(ru.tsOffset + ru.timestampRx + spt + drift, FrameResynch(v))).Running?
            <==> (m + 1) % 10 != 0 && v < 1024 && q == 0
  {
    ResynchStepIff(spt, ru, m, phase, v, drift, q, r);
    MovedForm(m, v);
    NearKeeps(m, v, q);
  }

  lemma NearKeeps(m: nat, v: nat, q: int)
    requires -9 <= q <= 9
    ensures Keeps(m, v, q) <==> (m + 1) % 10 != 0 && v < 1024 && q == 0
  {}

  /** Without drift, a resynchronisation in subframe 0 exits, from every state in step
      and for every cmdval. */
  lemma ResynchAtFrameStartExits(spt: nat, ru: Ru, m: nat, phase: nat, v: nat)
    requires InStep(spt, ru, m, phase) && (m + 1) % 10 == 0
    ensures Step(spt, ru, Input(ru.tsOffset + ru.timestampRx + spt, FrameResynch(v))) == Exited
  {
    ResynchNearIff(spt, ru, m, phase, v, 0, 0, phase);
  }

  /** One frame early, it runs there, for every frame number. */
  lemma ResynchFrameEarlyRuns(spt: nat, ru: Ru, m: nat, phase: nat, v: nat)
    requires InStep(spt, ru, m, phase) && (m + 1) % 10 == 0 && v < 1024
    ensures var o := Step(spt, ru, Input(ru.tsOffset + ru.timestampRx + spt + -10 * spt, FrameResynch(v)));
            o.Running? && o.ru.frame == v && o.ru.subframe == 0
  {
    MovedForm(m, v);
    ResynchStepIff(spt, ru, m, phase, v, -10 * spt, -10, phase);
  }

  // Whole runs --------------------------------------------------------------------------

  /** The condition of ResynchStepIff, read off the state and the input. */
  predicate GoodCommand(spt: nat, ru: Ru, ts: int, v: nat)
    requires spt >= 1
  {
    var q := (ru.timestampRx % spt + (ts - ru.tsOffset - ru.timestampRx - spt)) / spt;
    && ts - (ru.tsOffset + (ru.frameRx - v) * spt * 10) >= 0
    && v < 1024 && q % 10 == 0 && (q / 10 + if ru.subframe == 9 then 1 else 0) % 1024 == 0
  }

  lemma GoodKeeps(spt: nat, ru: Ru, m: nat, phase: nat, ts: int, v: nat, q: int)
    requires InStep(spt, ru, m, phase) && GoodCommand(spt, ru, ts, v)
    requires q == (phase + (ts - ru.tsOffset - ru.timestampRx - spt)) / spt
    ensures Keeps(m, v, q)
  {
    DivMod(ru.timestampRx, spt, m, phase);
    DivSucc(m, 10);
  }

  /** Inputs whose resynchronisations all meet the condition of ResynchStepIff. */
  ghost predicate Good(spt: nat, ru: Ru, inputs: seq<Input>)
    requires spt >= 1
    decreases |inputs|
  {
    inputs == [] ||
    (var i := inputs[0];
     && (i.cmd.FrameResynch? ==> GoodCommand(spt, ru, i.ts, i.cmd.cmdval))
     && (Step(spt, ru, i).Running? ==> Good(spt, Step(spt, ru, i).ru, inputs[1..])))
  }

  lemma GoodResynch(spt: nat, ru: Ru, m: nat, phase: nat, ts: int, v: nat) returns (next: nat, phase': nat)
    requires InStep(spt, ru, m, phase) && GoodCommand(spt, ru, ts, v)
    ensures var o := Step(spt, ru, Input(ts, FrameResynch(v)));
            o.Running? && InStep(spt, o.ru, next, phase') && o.ru.timestampRx + o.ru.tsOffset == ts
  {
    var drift := ts - ru.tsOffset - ru.timestampRx - spt;
    var q, r := (phase + drift) / spt, (phase + drift) % spt;
    GoodKeeps(spt, ru, m, phase, ts, v, q);
    EuclidInt(phase + drift, spt);
    MovedStep(spt, ru, m, phase, v, drift);
    NotBefore(spt, Moved(m, v), q, r);
    ResynchStepIff(spt, ru, m, phase, v, drift, q, r);
    next, phase' := Moved(m, v) + q, r;
  }

  lemma NotBefore(spt: nat, m: nat, q: int, r: nat)
    requires m * spt + (q * spt + r) >= 0 && r < spt
    ensures m + q >= 0
  {
    SumProduct(m, q, spt);
    if m + q < 0 {
      MonoInt(m + q, -1, spt);
    }
  }

  lemma {:induction false} RunStaysInStep(spt: nat, ru: Ru, m: nat, phase: nat, inputs: seq<Input>)
    returns (m': nat, phase': nat)
    requires spt >= 1 && InStep(spt, ru, m, phase) && Good(spt, ru, inputs)
    ensures var o := Run(spt, ru, inputs);
            && o.Running? && InStep(spt, o.ru, m', phase')
            && (inputs != [] ==> o.ru.timestampRx + o.ru.tsOffset == inputs[|inputs| - 1].ts)
    ensures (forall k :: 0 <= k < |inputs| ==> inputs[k].cmd.NoCommand?) ==> m' == m + |inputs| && phase' == phase
    decreases |inputs|
  {
    if inputs == [] {
      m', phase' := m, phase;
    } else {
      var i := inputs[0];
      var next, phase1 := m + 1, phase;
      if i.cmd.FrameResynch? {
        next, phase1 := GoodResynch(spt, ru, m, phase, i.ts, i.cmd.cmdval);
      } else {
        PlainStep(spt, ru, m, phase, i);
      }
      m', phase' := RunStaysInStep(spt, Step(spt, ru, i).ru, next, phase1, inputs[1..]);
    }
  }

  // Results -------------------------------------------------------------------------

  /** The first read always starts the count, but a resynchronisation pending then
      leaves the offset wrong until the next read, unless it asks for frame 0. */
  lemma FirstReadIff(spt: nat, first: Input)
    requires spt >= 1
    ensures var o := Step(spt, FRESH_RU, first);
            && o.Running? && InStep(spt, o.ru, 0, 0)
            && (o.ru.timestampRx + o.ru.tsOffset == first.ts <==> first.cmd.NoCommand? || first.cmd.cmdval == 0)
  {
    Decode(spt, 0, 0);
    if first.cmd.FrameResynch? {
      ProductZero(first.cmd.cmdval, spt);
    }
  }

  lemma ProductZero(v: nat, spt: nat)
    requires spt >= 1
    ensures (0 - v) * spt * 10 == 0 <==> v == 0
  {}

  /** From a fresh radio unit, whatever timestamps the device returns and with
      resynchronisations after the first read only as ResynchStepIff allows, no
      timing exit is reachable, the decoded frame and subframe equal the local
      counters, and timestamp_rx + ts_offset is the device's last timestamp.
      Without those resynchronisations timestamp_rx is n subframes after n steps. */
  lemma TimingLock(spt: nat, first: Input, inputs: seq<Input>)
    requires spt >= 1
    requires Good(spt, Step(spt, FRESH_RU, first).ru, inputs)
    ensures var o := Run(spt, FRESH_RU, [first] + inputs);
            && o.Running?
            && o.ru.frameRx == o.ru.frame && o.ru.ttiRx == o.ru.subframe
            && (inputs != [] ==> o.ru.timestampRx + o.ru.tsOffset == inputs[|inputs| - 1].ts)
            && ((forall k :: 0 <= k < |inputs| ==> inputs[k].cmd.NoCommand?) ==>
                  && o.ru.timestampRx == |inputs| * spt
                  && o.ru.frame == (|inputs| / 10) % 1024 && o.ru.subframe == |inputs| % 10)
  {
    FirstReadIff(spt, first);
    assert ([first] + inputs)[1..] == inputs;
    var m, phase := RunStaysInStep(spt, Step(spt, FRESH_RU, first).ru, 0, 0, inputs);
  }

  // The thread as the program has it ------------------------------------------------

  class RadioUnit {
    const spt: nat
    var timestampRx: int
    var tsOffset: int
    var firstRx: bool
    var frameRx: int
    var ttiRx: int
    var frame: int
    var subframe: int
    var cmd: Command

    ghost function View(): Ru
      reads this
    {
      Ru(timestampRx, tsOffset, firstRx, frameRx, ttiRx, frame, subframe)
    }

    constructor (spt: nat)
      ensures this.spt == spt && View() == FRESH_RU && cmd == NoCommand
    {
      this.spt := spt;
      timestampRx, tsOffset, firstRx, frameRx, ttiRx := 0, 0, true, 0, 0;
      frame, subframe := 1023, 9;
      cmd := NoCommand;
    }

    /** The frame resynchronisation part of rx_rf. */
    method ApplyCommand() returns (resynch: bool)
      modifies this`tsOffset, this`frame, this`cmd
      ensures cmd == NoCommand && resynch == old(cmd).FrameResynch?
      ensures resynch ==>
                frame == old(cmd).cmdval && tsOffset == old(tsOffset) + (frameRx - old(cmd).cmdval) * spt * 10
      ensures !resynch ==> frame == old(frame) && tsOffset == old(tsOffset)
    {
      resynch := false;
      if cmd.FrameResynch? {
        if frameRx > cmd.cmdval {
          tsOffset := tsOffset + (frameRx - cmd.cmdval) * spt * 10;
        } else {
          Opposite(frameRx - cmd.cmdval, spt);
          tsOffset := tsOffset - (-frameRx + cmd.cmdval) * spt * 10;
        }
        frame := cmd.cmdval;
        cmd := NoCommand;
        resynch := true;
      }
    }

    /** The timestamp part of rx_rf. */
    method CorrectDrift(ts: int, resynch: bool)
      modifies this`timestampRx, this`tsOffset
      ensures tsOffset == (if firstRx then ts - old(tsOffset)
                           else if resynch then old(tsOffset)
                           else old(tsOffset) + (ts - old(tsOffset) - old(timestampRx) - spt))
      ensures timestampRx == if firstRx then 0 else ts - tsOffset
    {
      var oldTs := timestampRx;
      timestampRx := ts - tsOffset;
      if firstRx {
        tsOffset := timestampRx;
        timestampRx := 0;
      } else if !resynch && timestampRx - oldTs != spt {
        tsOffset := tsOffset + (timestampRx - oldTs - spt);
        timestampRx := ts - tsOffset;
      }
    }

    /** One turn of ru_thread's loop up to the return of rx_rf. */
    method ReceiveSubframe(ts: int) returns (exits: bool)
      requires spt >= 1
      modifies this
      ensures cmd == NoCommand
      ensures match Step(spt, old(View()), Input(ts, old(cmd)))
              case Exited => exits
              case Running(ru) => !exits && View() == ru
    {
      if subframe == 9 {
        subframe := 0;
        frame := (frame + 1) % 1024;
      } else {
        subframe := subframe + 1;
      }
      var resynch := ApplyCommand();
      CorrectDrift(ts, resynch);
      frameRx := CDiv(timestampRx, spt * 10) % 1024;
      ttiRx := CMod(CDiv(timestampRx, spt), 10);
      exits := false;
      if !firstRx {
        if ttiRx != subframe {
          exits := true;
        }
        if frameRx != frame {
          exits := true;
        }
      } else {
        firstRx := false;
        frame, subframe := frameRx, ttiRx;
      }
    }
  }

  lemma Opposite(d: int, spt: nat)
    ensures -((-d) * spt * 10) == d * spt * 10
  {}
}
