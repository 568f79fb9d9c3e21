/**
 The per-subframe barrier over all radio units of an eNB (wakeup_L1s): each RU
 reports every subframe, and the one that completes RU_mask[subframe] runs the
 L1 for it.
 */
module RuBarrier {
  import opened BitMask
  import opened SubframeRing

  /** How wakeup_L1s treats an RU: `Active` reports for itself, `Syncing`
      (state RU_SYNC) is excused by every caller, `Waiting` (a slave counting down
      wait_cnt) is excused by every caller but itself. */
  datatype Kind = Active | Syncing | Waiting

  type Kinds = seq<Kind>

  ghost predicate IsActive(kinds: Kinds, i: int) {
    0 <= i < |kinds| && kinds[i].Active?
  }

  /** Some RU is neither synchronising nor counting down; a master RU always is. */
  ghost predicate HasActive(kinds: Kinds) {
    exists i :: IsActive(kinds, i)
  }

  /** A call by `ru` sets bit i. */
  predicate SetsBit(kinds: Kinds, ru: nat, i: nat)
    requires i < |kinds|
  {
    (i == ru && kinds[i].Active?) || kinds[i].Syncing? || (kinds[i].Waiting? && i != ru)
  }

  /** The bits one call sets. */
  ghost function BitsSet(kinds: Kinds, ru: nat): set<nat> {
    BitsBelow(kinds, ru, |kinds|)
  }

  ghost function BitsBelow(kinds: Kinds, ru: nat, n: nat): set<nat>
    requires n <= |kinds|
  {
    set i | 0 <= i < n && SetsBit(kinds, ru, i)
  }

  // All radio units together ------------------------------------------------------------

  /** L1 was run for subframe k by radio unit ru. */
  datatype Firing = Firing(k: nat, ru: nat)

  datatype State = State(
    reported: seq<nat>,       // how many subframes each RU has reported
    masks: seq<set<nat>>,     // the bits of RU_mask[10]
    inTop: seq<bool>,         // which RUs are inside eNB_top
    fired: seq<Firing>)

  datatype Action = Report(ru: nat) | FinishTop(ru: nat)

  ghost function Init(kinds: Kinds): State {
    State(seq(|kinds|, i => 0), seq(10, i => {}), seq(|kinds|, i => false), [])
  }

  ghost predicate Shaped(kinds: Kinds, s: State) {
    |s.reported| == |kinds| && |s.masks| == 10 && |s.inTop| == |kinds|
  }

  /** An RU inside eNB_top makes no report.  An active RU does not report subframe
      k + 10 before subframe k has fired. */
  ghost predicate Enabled(kinds: Kinds, s: State, a: Action)
    requires Shaped(kinds, s)
  {
    match a
    case Report(ru) =>
      ru < |kinds| && !s.inTop[ru] && !kinds[ru].Syncing? && (kinds[ru].Active? ==> s.reported[ru] < |s.fired| + 10)
    case FinishTop(ru) => ru < |kinds| && s.inTop[ru]
  }

  /** The bits of the mask after the call, before a reset. */
  ghost function Bits(kinds: Kinds, s: State, ru: nat): set<nat>
    requires Shaped(kinds, s) && ru < |kinds|
  {
    s.masks[s.reported[ru] % 10] + BitsSet(kinds, ru)
  }

  ghost predicate Fires(kinds: Kinds, s: State, ru: nat)
    requires Shaped(kinds, s) && ru < |kinds|
  {
    HasAll(Bits(kinds, s, ru), |kinds|)
  }

  /** One call of wakeup_L1s, or the return from eNB_top. */
  ghost function Apply(kinds: Kinds, s: State, a: Action): State
    requires Shaped(kinds, s) && Enabled(kinds, s, a)
  {
    match a
    case FinishTop(ru) => s.(inTop := s.inTop[ru := false])
    case Report(ru) =>
      var k := s.reported[ru];
      var s1 := s.(reported := s.reported[ru := k + 1]);
      if Fires(kinds, s, ru) then
        s1.(masks := s.masks[k % 10 := {}],
            inTop := if kinds[ru] != Waiting then s.inTop[ru := true] else s.inTop,
            fired := s.fired + [Firing(k, ru)])
      else s1.(masks := s.masks[k % 10 := Bits(kinds, s, ru)])
  }

  ghost predicate Possible(kinds: Kinds, s: State, acts: seq<Action>)
    decreases |acts|
  {
    Shaped(kinds, s) &&
    (acts == [] || (Enabled(kinds, s, acts[0]) && Possible(kinds, Apply(kinds, s, acts[0]), acts[1..])))
  }

  ghost function After(kinds: Kinds, s: State, acts: seq<Action>): (s': State)
    requires Possible(kinds, s, acts)
    ensures Shaped(kinds, s')
    decreases |acts|
  {
    if acts == [] then s else After(kinds, Apply(kinds, s, acts[0]), acts[1..])
  }

  /** Active RUs are between zero and ten subframes ahead of the last firing, and
      one of them has yet to report the next subframe. */
  ghost predicate Counted(kinds: Kinds, s: State) {
    && Shaped(kinds, s)
    && (forall i :: IsActive(kinds, i) ==> |s.fired| <= s.reported[i] <= |s.fired| + 10)
    && (exists i :: IsActive(kinds, i) && s.reported[i] == |s.fired|)
  }

  /** Among active RUs, a mask has the bits of those that have reported its subframe. */
  ghost predicate MasksOk(kinds: Kinds, s: State) {
    Shaped(kinds, s) &&
    forall i, r :: IsActive(kinds, i) && 0 <= r < 10 ==>
      (i in s.masks[r] <==> s.reported[i] > Using(|s.fired|, r))
  }

  /** Only the RU that ran the last subframe can still be inside eNB_top, and it
      has not reported since. */
  ghost predicate TopOk(kinds: Kinds, s: State) {
    Shaped(kinds, s) &&
    forall i :: 0 <= i < |kinds| && s.inTop[i] ==>
      && kinds[i].Active? && s.fired != [] && s.fired[|s.fired| - 1].ru == i && s.reported[i] == |s.fired|
  }

  ghost predicate FiredOk(kinds: Kinds, s: State) {
    forall j :: 0 <= j < |s.fired| ==> s.fired[j].k == j && IsActive(kinds, s.fired[j].ru)
  }

  ghost predicate Inv(kinds: Kinds, s: State) {
    Counted(kinds, s) && MasksOk(kinds, s) && TopOk(kinds, s) && FiredOk(kinds, s)
  }

  lemma InitInv(kinds: Kinds)
    requires HasActive(kinds)
    ensures Inv(kinds, Init(kinds))
  {
    var i :| IsActive(kinds, i);
    assert Init(kinds).reported[i] == 0;
  }

  /** The mask is full exactly when every active RU has reported its bit. */
  lemma FullMeansAllActive(kinds: Kinds, had: set<nat>, ru: nat)
    requires ru < |kinds|
    requires kinds[ru].Active?
    ensures HasAll(had + BitsSet(kinds, ru), |kinds|) <==> forall i :: IsActive(kinds, i) && i != ru ==> i in had
  {
    var all := had + BitsSet(kinds, ru);
    forall i | 0 <= i < |kinds|
      ensures i in all <==> i in had || !kinds[i].Active? || i == ru
    {}
    if HasAll(all, |kinds|) {
      forall i | IsActive(kinds, i) && i != ru
        ensures i in had
      {
        assert i in all;
      }
    }
  }

  lemma WaitingNeverFires(kinds: Kinds, s: State, ru: nat)
    requires Inv(kinds, s) && ru < |kinds| && kinds[ru].Waiting?
    ensures !Fires(kinds, s, ru)
  {
    var i :| IsActive(kinds, i) && s.reported[i] == |s.fired|;
    assert i !in s.masks[s.reported[ru] % 10];
    assert i !in Bits(kinds, s, ru);
  }

  /** A waiting RU's report does not count for itself. */
  lemma WaitingNotCounted(kinds: Kinds, s: State, ru: nat)
    requires Inv(kinds, s) && Enabled(kinds, s, Report(ru)) && kinds[ru].Waiting?
    ensures var r := s.reported[ru] % 10;
            ru in Apply(kinds, s, Report(ru)).masks[r] <==> ru in s.masks[r]
  {
    WaitingNeverFires(kinds, s, ru);
  }

  /** An active RU's report fires exactly when it is the last to report the next
      subframe in order. */
  lemma FiresIffLast(kinds: Kinds, s: State, ru: nat)
    requires Inv(kinds, s) && Enabled(kinds, s, Report(ru)) && kinds[ru].Active?
    ensures Fires(kinds, s, ru) <==>
            s.reported[ru] == |s.fired| && forall i :: IsActive(kinds, i) && i != ru ==> s.reported[i] > |s.fired|
    ensures Fires(kinds, s, ru) ==> forall i :: 0 <= i < |kinds| ==> !s.inTop[i]
  {
    var k := s.reported[ru];
    assert IsActive(kinds, ru);
    UsingUnique(|s.fired|, k);
    FullMeansAllActive(kinds, s.masks[k % 10], ru);
    var w :| IsActive(kinds, w) && s.reported[w] == |s.fired|;
    assert w in s.masks[k % 10] <==> s.reported[w] > k;
  }

  lemma QuietReport(kinds: Kinds, s: State, ru: nat)
    requires Inv(kinds, s) && Enabled(kinds, s, Report(ru)) && !Fires(kinds, s, ru)
    ensures Inv(kinds, Apply(kinds, s, Report(ru)))
  {
    var s' := Apply(kinds, s, Report(ru));
    var k := s.reported[ru];
    if kinds[ru].Active? {
      assert IsActive(kinds, ru);
      FiresIffLast(kinds, s, ru);
      UsingUnique(|s.fired|, k);
      var w :| IsActive(kinds, w) && s.reported[w] == |s.fired| && (w != ru);
      assert s'.reported[w] == |s'.fired|;
    } else {
      var w :| IsActive(kinds, w) && s.reported[w] == |s.fired|;
      assert s'.reported[w] == |s'.fired|;
    }
  }

  lemma FiringReport(kinds: Kinds, s: State, ru: nat)
    requires Inv(kinds, s) && Enabled(kinds, s, Report(ru)) && kinds[ru].Active? && Fires(kinds, s, ru)
    ensures Inv(kinds, Apply(kinds, s, Report(ru)))
  {
    var s' := Apply(kinds, s, Report(ru));
    var c := |s.fired|;
    FiresIffLast(kinds, s, ru);
    assert IsActive(kinds, ru) && s'.reported[ru] == |s'.fired|;
    forall i, r | IsActive(kinds, i) && 0 <= r < 10
      ensures i in s'.masks[r] <==> s'.reported[i] > Using(c + 1, r)
    {
      UsingMoves(c, r);
    }
  }

  lemma StepInv(kinds: Kinds, s: State, a: Action)
    requires Inv(kinds, s) && Enabled(kinds, s, a)
    ensures Inv(kinds, Apply(kinds, s, a))
  {
    match a
    case FinishTop(ru) =>
      var w :| IsActive(kinds, w) && s.reported[w] == |s.fired|;
      assert Apply(kinds, s, a).reported[w] == |s.fired|;
    case Report(ru) =>
      if Fires(kinds, s, ru) {
        if kinds[ru].Waiting? {
          WaitingNeverFires(kinds, s, ru);
        }
        FiringReport(kinds, s, ru);
      } else {
        QuietReport(kinds, s, ru);
      }
  }

  lemma {:induction false} RunInv(kinds: Kinds, s: State, acts: seq<Action>)
    requires Inv(kinds, s) && Possible(kinds, s, acts)
    ensures Inv(kinds, After(kinds, s, acts))
    decreases |acts|
  {
    if acts != [] {
      StepInv(kinds, s, acts[0]);
      RunInv(kinds, Apply(kinds, s, acts[0]), acts[1..]);
    }
  }

  // Results -----------------------------------------------------------------------

  /** In every interleaving, L1 has been run exactly once for each of subframes
      0 to n - 1, in that order, where n is the number of subframes every active
      RU has reported, and at most one RU is inside eNB_top. */
  lemma FiresOncePerSubframe(kinds: Kinds, acts: seq<Action>)
    requires HasActive(kinds) && Possible(kinds, Init(kinds), acts)
    ensures var s := After(kinds, Init(kinds), acts);
            && (forall j :: 0 <= j < |s.fired| ==> s.fired[j].k == j && IsActive(kinds, s.fired[j].ru))
            && (forall i :: IsActive(kinds, i) ==> s.reported[i] >= |s.fired|)
            && (exists i :: IsActive(kinds, i) && s.reported[i] == |s.fired|)
            && (forall i, j :: 0 <= i < |kinds| && 0 <= j < |kinds| && s.inTop[i] && s.inTop[j] ==> i == j)
  {
    InitInv(kinds);
    RunInv(kinds, Init(kinds), acts);
  }

  /** After any run, a report fires if and only if it is an active RU's report of
      the next subframe and every other active RU has reported that subframe
      already; and no RU is then inside eNB_top. */
  lemma LastReportFires(kinds: Kinds, acts: seq<Action>, ru: nat)
    requires HasActive(kinds) && Possible(kinds, Init(kinds), acts)
    requires Enabled(kinds, After(kinds, Init(kinds), acts), Report(ru))
    ensures var s := After(kinds, Init(kinds), acts);
            && (Fires(kinds, s, ru) <==>
                 && kinds[ru].Active? && s.reported[ru] == |s.fired|
                 && forall i :: IsActive(kinds, i) && i != ru ==> s.reported[i] > |s.fired|)
            && (Fires(kinds, s, ru) ==> forall i :: 0 <= i < |kinds| ==> !s.inTop[i])
  {
    InitInv(kinds);
    RunInv(kinds, Init(kinds), acts);
    var s := After(kinds, Init(kinds), acts);
    if kinds[ru].Active? {
      FiresIffLast(kinds, s, ru);
    } else {
      WaitingNeverFires(kinds, s, ru);
    }
  }

  // eNB_top ----------------------------------------------------------------------------

  ghost function Finished(acts: seq<Action>): nat {
    if acts == [] then 0 else (if acts[0].FinishTop? then 1 else 0) + Finished(acts[1..])
  }

  ghost function Running(s: State): nat {
    if exists i :: 0 <= i < |s.inTop| && s.inTop[i] then 1 else 0
  }

  lemma TopStep(kinds: Kinds, s: State, a: Action)
    requires Inv(kinds, s) && Enabled(kinds, s, a)
    ensures var s' := Apply(kinds, s, a);
            |s'.fired| + Running(s) == |s.fired| + Running(s') + if a.FinishTop? then 1 else 0
  {
    var s' := Apply(kinds, s, a);
    match a
    case FinishTop(ru) =>
      forall i | 0 <= i < |s'.inTop|
        ensures !s'.inTop[i]
      {}
    case Report(ru) =>
      if Fires(kinds, s, ru) {
        if kinds[ru].Waiting? {
          WaitingNeverFires(kinds, s, ru);
        }
        FiresIffLast(kinds, s, ru);
        assert s'.inTop[ru];
      }
  }

  lemma {:induction false} RunTops(kinds: Kinds, s: State, acts: seq<Action>)
    requires Inv(kinds, s) && Possible(kinds, s, acts)
    ensures var t := After(kinds, s, acts);
            |t.fired| + Running(s) == |s.fired| + Running(t) + Finished(acts)
    decreases |acts|
  {
    if acts != [] {
      StepInv(kinds, s, acts[0]);
      TopStep(kinds, s, acts[0]);
      RunTops(kinds, Apply(kinds, s, acts[0]), acts[1..]);
    }
  }

  /** In every interleaving eNB_top has been run once for each firing: it has returned
      from all of them, or from all but the last, in which it still is. */
  lemma EveryFiringRunsTop(kinds: Kinds, acts: seq<Action>)
    requires HasActive(kinds) && Possible(kinds, Init(kinds), acts)
    ensures var s := After(kinds, Init(kinds), acts);
            |s.fired| == Finished(acts) + Running(s)
  {
    InitInv(kinds);
    RunTops(kinds, Init(kinds), acts);
  }

  // A slave that joins -----------------------------------------------------------------

  /** wait_cnt after n turns of a waiting radio unit, which counts down and calls
      wakeup_L1s each subframe, from subframe number tti on. */
  function Countdown(wait: nat, tti: nat, n: nat): nat {
    if n == 0 then wait
    else
      var w := Countdown(wait, tti, n - 1);
      SettledAt(if w > 0 then w - 1 else 0, (tti + n - 1) % 10)
  }

  /** It takes part after exactly `wait` turns, or one earlier unless that turn is in
      subframe 9. */
  lemma {:induction false} JoinsAt(wait: nat, tti: nat, n: nat)
    ensures var joined := n >= wait || (n == wait - 1 && n > 0 && (tti + n - 1) % 10 != 9);
            && Countdown(wait, tti, n) == (if joined then 0 else wait - n)
            && KindOf(false, Countdown(wait, tti, n)) == (if joined then Active else Waiting)
  {
    if n > 0 {
      JoinsAt(wait, tti, n - 1);
    }
  }

  /** A radio unit that waits more than one turn never joins in subframe 9. */
  lemma NeverJoinsInSubframe9(wait: nat, tti: nat, n: nat)
    requires wait >= 2 && n > 0 && Countdown(wait, tti, n - 1) > 0 && Countdown(wait, tti, n) == 0
    ensures (tti + n - 1) % 10 != 9
  {
    JoinsAt(wait, tti, n - 1);
    JoinsAt(wait, tti, n);
  }

  // The program ----------------------------------------------------------------------------

  /** How a radio unit is treated, by its state and wait_cnt; only slaves wait. */
  function KindOf(syncing: bool, wait: nat): Kind {
    if syncing then Syncing else if wait > 0 then Waiting else Active
  }

  function KindsOf(syncing: seq<bool>, wait: seq<nat>): (kinds: Kinds)
    requires |syncing| == |wait|
    ensures |kinds| == |wait|
  {
    seq(|wait|, i requires 0 <= i < |wait| => KindOf(syncing[i], wait[i]))
  }

  /** wait_cnt after a call for subframe number tti. */
  function SettledAt(wait: nat, tti: nat): nat {
    if wait == 1 && tti != 9 then 0 else wait
  }

  function Settled(wait: seq<nat>, tti: nat): (wait': seq<nat>)
    ensures |wait'| == |wait|
  {
    seq(|wait|, i requires 0 <= i < |wait| => SettledAt(wait[i], tti))
  }

  /** The masks hold the bits of the state. */
  ghost predicate Holds(kinds: Kinds, masks: seq<nat>, s: State) {
    |masks| == |s.masks| == 10 && forall r :: 0 <= r < 10 ==> masks[r] == MaskOf(s.masks[r], |kinds|)
  }

  lemma HoldsUpdate(kinds: Kinds, masks: seq<nat>, s: State, s': State, r: nat, bits: set<nat>)
    requires Holds(kinds, masks, s) && r < 10 && s'.masks == s.masks[r := bits]
    ensures Holds(kinds, masks[r := MaskOf(bits, |kinds|)], s')
  {}

  lemma BitsStep(kinds: Kinds, ru: nat, i: nat, had: set<nat>)
    requires i < |kinds|
    ensures had + BitsBelow(kinds, ru, i + 1) ==
            had + BitsBelow(kinds, ru, i) + if SetsBit(kinds, ru, i) then {i} else {}
  {}

  class L1Barrier {
    const syncing: seq<bool>     // state == RU_SYNC
    const waitCnt: array<nat>
    const ruMask: array<nat>
    ghost const kinds: Kinds
    ghost var s: State

    ghost predicate Valid()
      reads this, ruMask, waitCnt
    {
      && waitCnt != ruMask && waitCnt.Length == |syncing| && KindsOf(syncing, waitCnt[..]) == kinds
      && Holds(kinds, ruMask[..], s) && Inv(kinds, s)
    }

    constructor (syncing: seq<bool>, wait: seq<nat>)
      requires |syncing| == |wait| && HasActive(KindsOf(syncing, wait))
      ensures Valid() && kinds == KindsOf(syncing, wait) && s == Init(kinds)
    {
      this.syncing := syncing;
      waitCnt := new nat[|wait|](i requires 0 <= i < |wait| => wait[i]);
      ruMask := new nat[10](_ => 0);
      kinds := KindsOf(syncing, wait);
      s := Init(KindsOf(syncing, wait));
      new;
      assert waitCnt[..] == wait;
      MaskEmpty(|kinds|);
      InitInv(kinds);
    }

    /** The loop of a call by `ru` for subframe number tti, when the mask holds the
        bits `had`: counters about to run out are settled, and the bits of BitsSet
        are added. */
    method SetBits(ru: nat, tti: nat, ghost had: set<nat>)
      requires ruMask.Length == 10 && tti < 10 && waitCnt != ruMask && waitCnt.Length == |syncing| && ru < |syncing|
      requires ruMask[tti] == MaskOf(had, |syncing|)
      modifies ruMask, waitCnt
      ensures waitCnt[..] == Settled(old(waitCnt[..]), tti)
      ensures ruMask[..] == old(ruMask[..])[tti := MaskOf(had + BitsSet(KindsOf(syncing, waitCnt[..]), ru), |syncing|)]
    {
      ghost var wait0, n := waitCnt[..], |syncing|;
      ghost var now := KindsOf(syncing, Settled(wait0, tti));
      ghost var bits := had;
      for i := 0 to |syncing|
        invariant forall j :: 0 <= j < n ==> waitCnt[j] == if j < i then SettledAt(wait0[j], tti) else wait0[j]
        invariant bits == had + BitsBelow(now, ru, i)
        invariant ruMask[..] == old(ruMask[..])[tti := MaskOf(bits, n)]
      {
        if waitCnt[i] == 1 && tti != 9 {
          waitCnt[i] := 0;
        }
        assert now[i] == KindOf(syncing[i], waitCnt[i]);
        BitsStep(now, ru, i, had);
        if (i == ru && waitCnt[i] == 0) || syncing[i] || (waitCnt[i] > 0 && i != ru) {
          AddBit(tti, i, n, bits);
          bits := bits + {i};
        }
      }
      assert waitCnt[..] == Settled(wait0, tti);
    }

    method AddBit(tti: nat, i: nat, ghost n: nat, ghost bits: set<nat>)
      requires tti < ruMask.Length && i < n && ruMask[..][tti] == MaskOf(bits, n)
      modifies ruMask
      ensures ruMask[..] == old(ruMask[..])[tti := MaskOf(bits + {i}, n)]
    {
      SetBitAdds(bits, n, i);
      ruMask[tti] := SetBit(ruMask[tti], i);
    }

    /** wakeup_L1s by `ru` for subframe number tti, when the mask holds the bits
        `had`: it fires exactly when these and the bits it sets are all, resets the
        mask then, and goes on to eNB_top unless the caller still waits. */
    method WakeupL1s(ru: nat, tti: nat, ghost had: set<nat>) returns (fire: bool, top: bool)
      requires ruMask.Length == 10 && tti < 10 && waitCnt != ruMask && waitCnt.Length == |syncing| && ru < |syncing|
      requires ruMask[tti] == MaskOf(had, |syncing|)
      modifies ruMask, waitCnt
      ensures waitCnt[..] == Settled(old(waitCnt[..]), tti)
      ensures var bits := had + BitsSet(KindsOf(syncing, waitCnt[..]), ru);
              && (fire <==> HasAll(bits, |syncing|))
              && ruMask[..] == old(ruMask[..])[tti := if fire then 0 else MaskOf(bits, |syncing|)]
      ensures top <==> fire && waitCnt[ru] == 0
    {
      SetBits(ru, tti, had);
      MaskFullIff(had + BitsSet(KindsOf(syncing, waitCnt[..]), ru), |syncing|);
      fire := ruMask[tti] == Full(|syncing|);
      top := false;
      if fire {
        ruMask[tti] := 0;
        if waitCnt[ru] == 0 {
          top := true;
        }
      }
    }

    /** With the excused set unchanged, the call for the next subframe of `ru` is
        exactly the step of the transition system. */
    method ReportSubframe(ru: nat, tti: nat) returns (top: bool)
      requires Valid() && ru < |kinds| && Enabled(kinds, s, Report(ru)) && tti == s.reported[ru] % 10
      requires KindsOf(syncing, Settled(waitCnt[..], tti)) == kinds
      modifies this`s, ruMask, waitCnt
      ensures Valid() && s == Apply(kinds, old(s), Report(ru))
      ensures top <==> Fires(kinds, old(s), ru)
    {
      ghost var bits, masks0, n := Bits(kinds, s, ru), ruMask[..], |kinds|;
      ghost var s' := Apply(kinds, s, Report(ru));
      assert masks0[tti] == MaskOf(s.masks[tti], n);
      var fire;
      fire, top := WakeupL1s(ru, tti, s.masks[tti]);
      StepInv(kinds, s, Report(ru));
      if kinds[ru].Waiting? {
        WaitingNeverFires(kinds, s, ru);
      }
      MaskEmpty(n);
      HoldsUpdate(kinds, masks0, s, s', tti, if fire then {} else bits);
      s := s';
    }

    /** eNB_top returns. */
    method LeaveTop(ru: nat)
      requires Valid() && Enabled(kinds, s, FinishTop(ru))
      modifies this`s
      ensures Valid() && s == Apply(kinds, old(s), FinishTop(ru))
    {
      StepInv(kinds, s, FinishTop(ru));
      s := Apply(kinds, s, FinishTop(ru));
    }
  }
}
