/**
 Sample streaming of a synchronised LTE UE (UE_thread): per subframe one block
 is read and one written; once per frame the block sizes absorb a timing
 correction of one sample.
 */
module UeStream {
  import opened CArithmetic

  /** samples_per_tti, and the length of a frame's first symbol. */
  datatype RawParms = RawParms(spt: nat, symbol: nat)

  type Parms = p: RawParms | 1 <= p.symbol && p.symbol + 2 <= p.spt witness RawParms(7680, 552)

  datatype Write = Write(start: int, length: int)

  /** The correction of one frame from the measured rx_offset. */
  function OffsetDiff(p: Parms, noTimingCorrection: bool, rxOffset: int): (d: int)
    ensures -1 <= d <= 1
  {
    if noTimingCorrection then 0
    else if 0 < rxOffset < 5 * p.spt then -1
    else if 5 * p.spt < rxOffset < 10 * p.spt then 1
    else 0
  }

  /** Where the next write must start when the device's next read starts at `next`. */
  function WriteAt(p: Parms, next: int): int {
    next + 2 * p.spt - p.symbol
  }

  /** Each write starts where the one before it ended. */
  ghost predicate Contiguous(ws: seq<Write>) {
    forall i :: 0 <= i < |ws| - 1 ==> ws[i].start + ws[i].length == ws[i + 1].start
  }

  function Total(ws: seq<Write>): int {
    if ws == [] then 0 else Total(ws[..|ws| - 1]) + ws[|ws| - 1].length
  }

  /** Samples the corrections remove: one per frame boundary passed, by its sign. */
  function Corrections(p: Parms, noTimingCorrection: bool, rxOffsets: seq<int>): int {
    if rxOffsets == [] then 0
    else
      var n := |rxOffsets| - 1;
      Corrections(p, noTimingCorrection, rxOffsets[..n])
      + if n % 10 == 9 then OffsetDiff(p, noTimingCorrection, rxOffsets[n]) else 0
  }

  class Ue {
    const p: Parms
    const noTimingCorrection: bool
    var subFrame: int
    var rxOffsetDiff: int
    var next: int            // the device: timestamp of its next sample
    var writes: seq<Write>   // the device: blocks written

    constructor (p: Parms, noTimingCorrection: bool, next: int)
      ensures this.p == p && this.noTimingCorrection == noTimingCorrection
      ensures subFrame == -1 && this.next == next && writes == []
    {
      this.p := p;
      this.noTimingCorrection := noTimingCorrection;
      this.next := next;
      subFrame, rxOffsetDiff, writes := -1, 0, [];
    }

    /** trx_read_func of a device whose timestamps are contiguous. */
    method Read(n: int) returns (timestamp: int)
      modifies this`next
      ensures timestamp == old(next) && next == old(next) + n
    {
      timestamp := next;
      next := next + n;
    }

    /** One subframe of UE_thread, with the rx_offset measured at that time. */
    method Subframe(rxOffset: int) returns (cantCompensate: bool)
      requires -1 <= subFrame <= 9
      modifies this
      ensures subFrame == (old(subFrame) + 1) % 10 && 0 <= subFrame <= 9 && !cantCompensate
      ensures var diff := DiffAt(p, noTimingCorrection, subFrame, rxOffset);
              && next == old(next) + p.spt - diff
              && writes == old(writes) + [Write(WriteAt(p, old(next)), p.spt - diff)]
    {
      subFrame := (subFrame + 1) % 10;
      var readBlockSize, writeBlockSize;
      if subFrame < 9 {
        readBlockSize, writeBlockSize := p.spt, p.spt;
      } else {
        rxOffsetDiff := 0;
        if !noTimingCorrection {
          if rxOffset < 5 * p.spt && rxOffset > 0 {
            rxOffsetDiff := -1;
          }
          if rxOffset > 5 * p.spt && rxOffset < 10 * p.spt {
            rxOffsetDiff := 1;
          }
        }
        readBlockSize := p.spt - p.symbol - rxOffsetDiff;
        writeBlockSize := p.spt - rxOffsetDiff;
      }
      var timestamp := Read(readBlockSize);
      writes := writes + [Write(timestamp + 2 * p.spt - p.symbol, writeBlockSize)];
      cantCompensate := false;
      if subFrame == 9 {
        var firstSymbols := writeBlockSize - readBlockSize;
        if firstSymbols > 0 {
          var _ := Read(firstSymbols);
        }
        cantCompensate := firstSymbols < 0;
      }
    }

    /** The stream stands after the subframes with measured offsets `rxs`. */
    ghost predicate Stands(start: int, rxs: seq<int>)
      reads this
    {
      && subFrame == (if rxs == [] then -1 else (|rxs| - 1) % 10)
      && Streamed(p, noTimingCorrection, start, rxs, next, writes)
    }

    method NextSubframe(rxOffset: int, ghost start: int, ghost rxs: seq<int>) returns (cantCompensate: bool)
      requires Stands(start, rxs)
      modifies this
      ensures Stands(start, rxs + [rxOffset]) && !cantCompensate
    {
      StreamedStep(p, noTimingCorrection, start, rxs, next, writes, rxOffset);
      NextNumber(|rxs|);
      SameDiff(p, noTimingCorrection, |rxs|, rxOffset);
      cantCompensate := Subframe(rxOffset);
    }
  }

  lemma NextNumber(n: nat)
    ensures ((if n == 0 then -1 else (n - 1) % 10) + 1) % 10 == n % 10
  {}

  /** The state of the stream after the subframes with measured offsets `rxs`. */
  ghost predicate Streamed(p: Parms, noCorrection: bool, start: int, rxs: seq<int>, next: int, ws: seq<Write>) {
    && |ws| == |rxs| && Contiguous(ws)
    && (ws == [] ==> next == start)
    && (ws != [] ==> ws[0].start == WriteAt(p, start) && ws[|ws| - 1].start + ws[|ws| - 1].length == WriteAt(p, next))
    && next - start == Total(ws) == Length(p, noCorrection, rxs)
  }

  /** The correction at subframe n of the stream. */
  function DiffAt(p: Parms, noCorrection: bool, n: nat, rx: int): int {
    if n % 10 == 9 then OffsetDiff(p, noCorrection, rx) else 0
  }

  lemma SameDiff(p: Parms, noCorrection: bool, n: nat, rx: int)
    ensures DiffAt(p, noCorrection, n % 10, rx) == DiffAt(p, noCorrection, n, rx)
  {}

  // Timing correction ------------------------------------------------------------------

  function Abs(x: int): nat {
    if x < 0 then -x else x
  }

  /** A measured offset inside the frame, but not at its middle, is a signed distance s
      from the nearest frame start, t frames away.  The correction shortens it by
      exactly one sample. */
  lemma CorrectionShortens(p: Parms, rxOffset: int, s: int, t: int)
    requires 0 < rxOffset < 10 * p.spt && rxOffset != 5 * p.spt
    requires s == rxOffset + t * (10 * p.spt) && -5 * p.spt < s < 5 * p.spt
    ensures Abs(s + OffsetDiff(p, false, rxOffset)) == Abs(s) - 1
  {
    NearestFrame(p.spt, rxOffset, t);
  }

  lemma NearestFrame(spt: nat, rx: int, t: int)
    requires 0 < rx < 10 * spt && -5 * spt < rx + t * (10 * spt) < 5 * spt
    ensures t == 0 || t == -1
  {
    if t >= 1 {
      MonoInt(1, t, 10 * spt);
    } else if t <= -2 {
      MonoInt(t, -2, 10 * spt);
    }
  }

  /** Otherwise, and with the correction switched off, there is none. */
  lemma NoCorrection(p: Parms, noCorrection: bool, rxOffset: int)
    ensures OffsetDiff(p, noCorrection, rxOffset) == 0 <==>
            noCorrection || rxOffset <= 0 || rxOffset == 5 * p.spt || rxOffset >= 10 * p.spt
  {}

  /** rx_offset as measured at distance s from the frame start. */
  function Measured(p: Parms, s: int): int {
    if s < 0 then s + 10 * p.spt else s
  }

  /** The distance after n frames, each measured exactly and corrected. */
  function Corrected(p: Parms, s: int, n: nat): int {
    if n == 0 then s
    else
      var d := Corrected(p, s, n - 1);
      d + OffsetDiff(p, false, Measured(p, d))
  }

  /** The distance falls by one sample a frame until it is 0, and stays there. */
  lemma {:induction false} CorrectionConverges(p: Parms, s: int, n: nat)
    requires -5 * p.spt < s < 5 * p.spt
    ensures Abs(Corrected(p, s, n)) == if n < Abs(s) then Abs(s) - n else 0
  {
    if n > 0 {
      CorrectionConverges(p, s, n - 1);
      var d := Corrected(p, s, n - 1);
      if d != 0 {
        CorrectionShortens(p, Measured(p, d), d, if d < 0 then -1 else 0);
      }
    }
  }

  /** A frame that starts late is read and written one sample longer, one that starts
      early one sample shorter. */
  lemma FrameIsAdjusted(p: Parms, rxs: seq<int>)
    requires |rxs| == 10
    ensures Length(p, false, rxs) == 10 * p.spt + (if 0 < rxs[9] < 5 * p.spt then 1
                                                   else if 5 * p.spt < rxs[9] < 10 * p.spt then -1 else 0)
  {
    LengthForm(p, false, rxs);
    NoneBefore(p, rxs[..9]);
  }

  lemma {:induction false} NoneBefore(p: Parms, rxs: seq<int>)
    requires |rxs| <= 9
    ensures Corrections(p, false, rxs) == 0
  {
    if rxs != [] {
      NoneBefore(p, rxs[..|rxs| - 1]);
    }
  }

  /** The samples of the subframes with measured offsets `rxs`. */
  function Length(p: Parms, noCorrection: bool, rxs: seq<int>): int {
    if rxs == [] then 0
    else
      var n := |rxs| - 1;
      Length(p, noCorrection, rxs[..n]) + p.spt - DiffAt(p, noCorrection, n, rxs[n])
  }

  /** They are samples_per_tti each, less the corrections. */
  lemma {:induction false} LengthForm(p: Parms, noCorrection: bool, rxs: seq<int>)
    ensures Length(p, noCorrection, rxs) == |rxs| * p.spt - Corrections(p, noCorrection, rxs)
  {
    if rxs != [] {
      LengthForm(p, noCorrection, rxs[..|rxs| - 1]);
      MulStep(|rxs| - 1, p.spt);
    }
  }

  lemma LengthSnoc(p: Parms, noCorrection: bool, rxs: seq<int>, rx: int)
    ensures Length(p, noCorrection, rxs + [rx]) ==
            Length(p, noCorrection, rxs) + p.spt - DiffAt(p, noCorrection, |rxs|, rx)
  {
    assert (rxs + [rx])[..|rxs|] == rxs;
  }

  lemma TotalSnoc(ws: seq<Write>, w: Write)
    ensures Total(ws + [w]) == Total(ws) + w.length
  {
    assert (ws + [w])[..|ws|] == ws;
  }

  lemma ContiguousSnoc(ws: seq<Write>, w: Write)
    requires Contiguous(ws) && (ws != [] ==> ws[|ws| - 1].start + ws[|ws| - 1].length == w.start)
    ensures Contiguous(ws + [w])
  {}

  lemma StreamedStep(p: Parms, noCorrection: bool, start: int, rxs: seq<int>, next: int, ws: seq<Write>, rx: int)
    requires Streamed(p, noCorrection, start, rxs, next, ws)
    ensures var diff := DiffAt(p, noCorrection, |rxs|, rx);
            Streamed(p, noCorrection, start, rxs + [rx], next + p.spt - diff,
                     ws + [Write(WriteAt(p, next), p.spt - diff)])
  {
    var w := Write(WriteAt(p, next), p.spt - DiffAt(p, noCorrection, |rxs|, rx));
    LengthSnoc(p, noCorrection, rxs, rx);
    TotalSnoc(ws, w);
    ContiguousSnoc(ws, w);
  }

  /** The i-th write starts two subframes after the i-th received subframe, which
      itself starts one symbol before the first sample read of it. */
  lemma {:induction false} WriteStart(p: Parms, noCorrection: bool, start: int, rxs: seq<int>, next: int,
                                      ws: seq<Write>, i: nat)
    requires Streamed(p, noCorrection, start, rxs, next, ws) && i < |ws|
    ensures ws[i].start == start - p.symbol + 2 * p.spt + Total(ws[..i])
  {
    if i > 0 {
      WriteStart(p, noCorrection, start, rxs, next, ws, i - 1);
      assert ws[..i][..i - 1] == ws[..i - 1];
      assert ws[i - 1].start + ws[i - 1].length == ws[(i - 1) + 1].start;
    } else {
      assert ws[..0] == [];
    }
  }

  /** The stream over any number of subframes and any measured offsets, when the
      frame starts at sample `origin` and its first symbol has been read: the writes
      form one unbroken run of samples from two subframes after the frame start, read
      and written samples are equal in number, namely samples_per_tti each subframe less
      the correction of each frame, and no correction is ever refused. */
  method Stream(p: Parms, noTimingCorrection: bool, origin: int, rxOffsets: seq<int>)
    returns (writes: seq<Write>, samplesRead: int, refused: bool)
    ensures !refused && |writes| == |rxOffsets| && Contiguous(writes)
    ensures forall i :: 0 <= i < |writes| ==> writes[i].start == origin + 2 * p.spt + Total(writes[..i])
    ensures samplesRead == Total(writes) == |rxOffsets| * p.spt - Corrections(p, noTimingCorrection, rxOffsets)
  {
    var start := origin + p.symbol;
    var ue := new Ue(p, noTimingCorrection, start);
    refused := false;
    var i := 0;
    while i < |rxOffsets|
      invariant 0 <= i <= |rxOffsets| && !refused && fresh(ue)
      invariant ue.p == p && ue.noTimingCorrection == noTimingCorrection
      invariant ue.Stands(start, rxOffsets[..i])
    {
      assert rxOffsets[..i + 1] == rxOffsets[..i] + [rxOffsets[i]];
      refused := ue.NextSubframe(rxOffsets[i], start, rxOffsets[..i]);
      i := i + 1;
    }
    assert rxOffsets[..i] == rxOffsets;
    LengthForm(p, noTimingCorrection, rxOffsets);
    writes, samplesRead := ue.writes, ue.next - start;
    forall j | 0 <= j < |writes|
      ensures writes[j].start == origin + 2 * p.spt + Total(writes[..j])
    {
      WriteStart(p, noTimingCorrection, start, rxOffsets, ue.next, writes, j);
    }
  }
}
