/**
 A frame cut into slots of two lengths: `halves` groups of `h` slots, of which
 the first has `first` samples and the others `rest`.  This is the shape of an
 NR frame of any numerology.
 */
module SlotTable {
  import opened CArithmetic

  datatype RawTable = RawTable(halves: nat, h: nat, first: nat, rest: nat)

  type Table = t: RawTable | t.halves >= 1 && t.h >= 1 && t.first >= t.rest >= 1 witness RawTable(1, 1, 1, 1)

  function HalfLength(t: Table): (n: nat)
    ensures n >= 1
  {
    t.first + (t.h - 1) * t.rest
  }

  function Slots(t: Table): (n: nat)
    ensures n >= 1
  {
    Positive(t.halves, t.h);
    t.halves * t.h
  }

  function FrameLength(t: Table): (n: nat)
    ensures n >= 1
  {
    Positive(t.halves, HalfLength(t));
    t.halves * HalfLength(t)
  }

  function Length(t: Table, slot: nat): (n: nat)
    ensures n >= 1
  {
    if slot % t.h != 0 then t.rest else t.first
  }

  /** Samples before the r-th slot of a half. */
  function Within(t: Table, r: nat): nat {
    if r > 0 then t.first + (r - 1) * t.rest else 0
  }

  /** Samples before a slot, in the closed form of quotient and remainder. */
  function Start(t: Table, slot: nat): nat {
    (slot / t.h) * HalfLength(t) + Within(t, slot % t.h)
  }

  /** The slot that contains sample x of a half. */
  function SlotWithin(t: Table, x: nat): nat {
    if x < t.first then 0 else 1 + (x - t.first) / t.rest
  }

  function SlotAt(t: Table, x: nat): nat {
    (x / HalfLength(t)) * t.h + SlotWithin(t, x % HalfLength(t))
  }

  // Starts are running sums -----------------------------------------------------------

  lemma StartStep(t: Table, slot: nat)
    ensures Start(t, slot + 1) == Start(t, slot) + Length(t, slot)
  {
    var q, r := slot / t.h, slot % t.h;
    DivSucc(slot, t.h);
    MulStep(q, HalfLength(t));
    if r > 0 {
      MulStep(r - 1, t.rest);
    }
  }

  lemma FrameStart(t: Table)
    ensures Start(t, Slots(t)) == FrameLength(t)
  {
    DivMod(Slots(t), t.h, t.halves, 0);
  }

  lemma {:induction false} StartMono(t: Table, a: nat, b: nat)
    requires a <= b
    ensures Start(t, a) <= Start(t, b)
    ensures a < b ==> Start(t, a) + Length(t, a) <= Start(t, b)
    decreases b - a
  {
    if a < b {
      StartStep(t, a);
      StartMono(t, a + 1, b);
    }
  }

  // SlotAt inverts Start --------------------------------------------------------------

  lemma SlotWithinBounds(t: Table, x: nat)
    requires x < HalfLength(t)
    ensures var r := SlotWithin(t, x);
            r < t.h && Within(t, r) <= x < Within(t, r) + if r > 0 then t.rest else t.first
  {
    if x >= t.first {
      var y := x - t.first;
      QuotientBound(y, t.rest, t.h - 1);
      Euclid(y, t.rest);
    }
  }

  /** Sample x lies in slot SlotAt(x) ... */
  lemma SlotAtContains(t: Table, x: nat)
    ensures var s := SlotAt(t, x); Start(t, s) <= x < Start(t, s) + Length(t, s)
  {
    var half := HalfLength(t);
    var q, u := x / half, x % half;
    Euclid(x, half);
    SlotWithinBounds(t, u);
    StartWithin(t, q, SlotWithin(t, u), q * t.h + SlotWithin(t, u));
  }

  /** Start and length of slot r of half q. */
  lemma StartWithin(t: Table, q: nat, r: nat, slot: nat)
    requires r < t.h && slot == q * t.h + r
    ensures Start(t, slot) == q * HalfLength(t) + Within(t, r)
    ensures Length(t, slot) == if r > 0 then t.rest else t.first
  {
    DivMod(slot, t.h, q, r);
  }

  /** ... and in no other. */
  lemma SlotUnique(t: Table, x: nat, a: nat, b: nat)
    requires Start(t, a) <= x < Start(t, a) + Length(t, a)
    requires Start(t, b) <= x < Start(t, b) + Length(t, b)
    ensures a == b
  {
    if a < b {
      StartMono(t, a, b);
    } else if b < a {
      StartMono(t, b, a);
    }
  }

  /** Slot n of an endless stream starts where slot n % Slots(t) of frame n / Slots(t) does. */
  lemma StartOfFrame(t: Table, f: nat, s: nat)
    ensures Start(t, f * Slots(t) + s) == f * FrameLength(t) + Start(t, s)
    ensures Length(t, f * Slots(t) + s) == Length(t, s)
  {
    var q, r := s / t.h, s % t.h;
    assert f * Slots(t) == (f * t.halves) * t.h by { MulAssoc(f, t.halves, t.h); }
    MulAdd(f * t.halves, q, t.h);
    DivMod(f * Slots(t) + s, t.h, f * t.halves + q, r);
    MulAdd(f * t.halves, q, HalfLength(t));
    MulAssoc(f, t.halves, HalfLength(t));
  }

  lemma StartForm(t: Table, n: nat)
    ensures var f, s := n / Slots(t), n % Slots(t);
            && Start(t, n) == f * FrameLength(t) + Start(t, s)
            && Length(t, n) == Length(t, s)
            && Start(t, s) + Length(t, s) <= FrameLength(t)
  {
    var w := Slots(t);
    var f, s := n / w, n % w;
    assert n == f * w + s;
    StartOfFrame(t, f, s);
    StartMono(t, s, Slots(t));
    FrameStart(t);
  }

}
