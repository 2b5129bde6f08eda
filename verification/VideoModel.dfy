/**
  A child process writes raw frames into a pipe; the decoder cuts the stream into frames.
  (crates/owe-media/src/video.rs, `next_frame`, `finish_child`, `stop_child`, `rewind`)
 */
module VideoModel {
  import opened Prelude

  type Byte = bv8
  type Bytes = seq<Byte>

  /** How waiting for the child ends. `Stuck` covers a child that never exits and one that cannot be waited for. */
  datatype Exit = Success | Failure | Stuck

  /** One child: the bytes it writes, whether its pipe then breaks instead of ending, and how it exits. */
  datatype Child = Child(bytes: Bytes, breaks: bool, exit: Exit)

  /** The reading end of the pipe. */
  datatype Pipe = Pipe(rest: Bytes, breaks: bool)

  datatype Frame = Frame(index: nat, pixels: Bytes)

  datatype Failure =
    | NoMemory
    | NoProcess
    | NoOutput
    | ReadFailed
    | FailedAtEnd
    | MidFrame(filled: nat, expected: nat)
    | NotWaited
    | NotStarted

  type Outcome = Result<Option<Frame>, Failure>

  datatype Decoder = Decoder(pipe: Option<Pipe>, process: Option<Exit>, nextIndex: nat, framesDecoded: nat,
      finished: bool)

  /** The child killed and waited for, its output closed. */
  function Stopped(d: Decoder): Decoder {
    d.(pipe := None, process := None, finished := true)
  }

  /** A fresh child. */
  function Spawned(d: Decoder, child: Child): Decoder {
    d.(pipe := Some(Pipe(child.bytes, child.breaks)), process := Some(child.exit), finished := false)
  }

  function Opened(child: Child): Decoder {
    Spawned(Decoder(None, None, 0, 0, true), child)
  }

  function Rewound(d: Decoder, child: Option<Child>): Decoder {
    var stopped := Stopped(d).(nextIndex := 0);
    match child
    case Some(c) => Spawned(stopped, c)
    case None => stopped
  }

  /** One `next_frame`, whatever pieces the reads come in: `size` is the size of a frame. */
  function After(d: Decoder, size: nat, memory: bool): Decoder {
    if d.finished then d
    else if !memory || d.process.None? || d.pipe.None? then
      if memory && d.process.None? then d.(finished := true) else Stopped(d)
    else if size <= |d.pipe.value.rest| then
      d.(pipe := Some(d.pipe.value.(rest := d.pipe.value.rest[size..])), nextIndex := d.nextIndex + 1,
         framesDecoded := d.framesDecoded + 1)
    else Stopped(d)
  }

  function Returned(d: Decoder, size: nat, memory: bool): Outcome {
    if d.finished then Ok(None)
    else if !memory then Err(NoMemory)
    else if d.process.None? then Err(NoProcess)
    else if d.pipe.None? then Err(NoOutput)
    else if size <= |d.pipe.value.rest| then Ok(Some(Frame(d.nextIndex, d.pipe.value.rest[..size])))
    else AtTheEnd(d.pipe.value, d.process.value, size)
  }

  /** What the end of the stream is reported as, once no whole frame is left. */
  function AtTheEnd(pipe: Pipe, exit: Exit, size: nat): Outcome {
    if pipe.breaks then Err(ReadFailed)
    else if exit.Stuck? then Err(NotWaited)
    else if pipe.rest != [] then Err(MidFrame(|pipe.rest|, size))
    else if exit.Success? then Ok(None)
    else Err(FailedAtEnd)
  }

  // ------------------------------------------------------------------ a whole playback

  /** The decoder after `calls` calls of `next_frame`. */
  function AfterCalls(d: Decoder, size: nat, calls: nat): Decoder {
    if calls == 0 then d else After(AfterCalls(d, size, calls - 1), size, true)
  }

  /** What call number `i` returns. */
  function Call(d: Decoder, size: nat, i: nat): Outcome {
    Returned(AfterCalls(d, size, i), size, true)
  }

  /** The decoder stands at the start of `child`'s stream. */
  predicate AtStart(d: Decoder, child: Child) {
    d.pipe == Some(Pipe(child.bytes, child.breaks)) && d.process == Some(child.exit) && d.nextIndex == 0 && !d.finished
  }

  /** Opening puts it there, and so does rewinding, wherever it was before. */
  lemma StartsAfresh(d: Decoder, child: Child)
    ensures AtStart(Opened(child), child) && AtStart(Rewound(d, Some(child)), child)
  {
  }

  /** The whole frames in a stream of `total` bytes. */
  function Whole(total: nat, size: nat): nat
    requires size > 0
  {
    total / size
  }

  /** The byte at which frame `i` starts. */
  function Offset(size: nat, i: nat): nat {
    i * size
  }

  lemma OffsetNext(size: nat, i: nat)
    ensures Offset(size, 0) == 0 && Offset(size, i + 1) == Offset(size, i) + size
  {
  }

  lemma {:induction false} OffsetsGrow(size: nat, i: nat, j: nat)
    requires i <= j
    ensures Offset(size, i) <= Offset(size, j)
  {
    if i < j {
      OffsetNext(size, j - 1);
      hide Offset;
      OffsetsGrow(size, i, j - 1);
    }
  }

  lemma WholeAndRest(total: nat, size: nat)
    requires size > 0
    ensures total % size < size && Offset(size, Whole(total, size)) == total - total % size
  {
  }

  lemma FramesFit(total: nat, size: nat, i: nat)
    requires size > 0
    ensures i < Whole(total, size) <==> Offset(size, i + 1) <= total
    ensures i <= Whole(total, size) <==> Offset(size, i) <= total
    ensures Offset(size, Whole(total, size)) == total - total % size && total % size < size
  {
    WholeAndRest(total, size);
    OffsetNext(size, i);
    OffsetNext(size, Whole(total, size));
    hide Offset, Whole;
    var q := Whole(total, size);
    if i < q {
      OffsetsGrow(size, i + 1, q);
    } else {
      OffsetsGrow(size, q + 1, i + 1);
      if i > q { OffsetsGrow(size, q + 1, i); }
    }
  }

  /** After `i` calls that found a whole frame, the stream stands at frame `i`. */
  lemma {:induction false} StandsAfterFrames(d: Decoder, child: Child, size: nat, i: nat)
    requires AtStart(d, child) && size > 0 && Offset(size, i) <= |child.bytes|
    ensures var e := AfterCalls(d, size, i);
            && !e.finished && e.nextIndex == i && e.process == Some(child.exit)
            && e.pipe == Some(Pipe(child.bytes[Offset(size, i)..], child.breaks))
            && e.framesDecoded == d.framesDecoded + i
  {
    if i == 0 {
      OffsetNext(size, 0);
      assert child.bytes[0..] == child.bytes;
    } else {
      OffsetNext(size, i - 1);
      hide Offset;
      StandsAfterFrames(d, child, size, i - 1);
      var from := Offset(size, i - 1);
      assert child.bytes[from..][size..] == child.bytes[from + size..];
    }
  }

  /** Call `i` returns frame `i`, its own bytes of the stream, as long as the stream has that many. */
  lemma FrameByFrame(d: Decoder, child: Child, size: nat, i: nat)
    requires AtStart(d, child) && size > 0 && i < Whole(|child.bytes|, size)
    ensures Offset(size, i) + size <= |child.bytes|
    ensures Call(d, size, i) == Ok(Some(Frame(i, child.bytes[Offset(size, i)..Offset(size, i) + size])))
  {
    FramesFit(|child.bytes|, size, i);
    OffsetNext(size, i);
    hide Offset, Whole;
    StandsAfterFrames(d, child, size, i);
    var from := Offset(size, i);
    assert child.bytes[from..][..size] == child.bytes[from..from + size];
  }

  /**
    The next call reports the end: cleanly exactly when the stream held nothing but whole frames, did not break and
    the child succeeded; with one error otherwise, which says what went wrong first.
   */
  lemma ThenTheEnd(d: Decoder, child: Child, size: nat)
    requires AtStart(d, child) && size > 0
    ensures var n := Whole(|child.bytes|, size);
            && (Call(d, size, n) == Ok(None) <==> |child.bytes| % size == 0 && !child.breaks && child.exit == Success)
            && (Call(d, size, n) == Ok(None) || Call(d, size, n).Err?)
            && (Call(d, size, n) == Err(ReadFailed) <==> child.breaks)
            && (Call(d, size, n) == Err(NotWaited) <==> !child.breaks && child.exit == Stuck)
            && (Call(d, size, n) == Err(MidFrame(|child.bytes| % size, size))
                <==> |child.bytes| % size != 0 && !child.breaks && child.exit != Stuck)
            && (Call(d, size, n) == Err(FailedAtEnd)
                <==> |child.bytes| % size == 0 && !child.breaks && child.exit == Exit.Failure)
            && AfterCalls(d, size, n + 1).finished
  {
    var n := Whole(|child.bytes|, size);
    FramesFit(|child.bytes|, size, n);
    EndOfStream(d, child, size, n, |child.bytes| % size);
    hide Call, AfterCalls, AtStart, Offset;
  }

  lemma EndOfStream(d: Decoder, child: Child, size: nat, n: nat, left: nat)
    requires AtStart(d, child) && left < size && Offset(size, n) + left == |child.bytes|
    ensures Call(d, size, n) == Ok(None) <==> left == 0 && !child.breaks && child.exit == Success
    ensures Call(d, size, n) == Ok(None) || Call(d, size, n).Err?
    ensures Call(d, size, n) == Err(ReadFailed) <==> child.breaks
    ensures Call(d, size, n) == Err(NotWaited) <==> !child.breaks && child.exit == Stuck
    ensures Call(d, size, n) == Err(MidFrame(left, size)) <==> left != 0 && !child.breaks && child.exit != Stuck
    ensures Call(d, size, n) == Err(FailedAtEnd) <==> left == 0 && !child.breaks && child.exit == Exit.Failure
    ensures AfterCalls(d, size, n + 1).finished
  {
    hide Offset;
    StandsAfterFrames(d, child, size, n);
    var at := Offset(size, n);
    assert |child.bytes[at..]| == left;
    hide AtStart;
    assert AfterCalls(d, size, n + 1) == After(AfterCalls(d, size, n), size, true);
  }

  /** Once finished — after an end or any error — every further call returns nothing, until the decoder is rewound. */
  lemma {:induction false} FinishedForGood(d: Decoder, size: nat, memory: bool, i: nat)
    ensures d.finished ==> AfterCalls(d, size, i) == d && Call(d, size, i) == Ok(None)
    ensures !Returned(d, size, memory).Ok? || Returned(d, size, memory).value.None? ==> After(d, size, memory).finished
  {
    if i > 0 {
      FinishedForGood(d, size, memory, i - 1);
    }
  }

  /** From the end on, every call. */
  lemma {:induction false} NothingAfterTheEnd(d: Decoder, child: Child, size: nat, i: nat)
    requires AtStart(d, child) && size > 0 && i > Whole(|child.bytes|, size)
    ensures Call(d, size, i) == Ok(None) && AfterCalls(d, size, i).finished
  {
    hide Whole;
    if i == Whole(|child.bytes|, size) + 1 {
      ThenTheEnd(d, child, size);
    } else {
      NothingAfterTheEnd(d, child, size, i - 1);
    }
  }

  // ------------------------------------------------------------------ every use of a decoder

  /** What can be done with a decoder: ask for a frame, with or without memory for it, and rewind. */
  datatype Use = Ask(memory: bool) | Again(child: Option<Child>)

  function Used(child: Child, size: nat, uses: seq<Use>): Decoder {
    if uses == [] then Opened(child)
    else
      var d := Used(child, size, uses[..|uses| - 1]);
      match uses[|uses| - 1]
      case Ask(memory) => After(d, size, memory)
      case Again(c) => Rewound(d, c)
  }

  /** However it is used, a decoder that is not finished has a child and its output; so no call ever finds one
      missing, and one without memory for a frame reports just that and ends playback until the next rewind. */
  lemma {:induction false} NeverWithoutItsChild(child: Child, size: nat, uses: seq<Use>, memory: bool)
    ensures var d := Used(child, size, uses);
            && (d.finished <==> d.process.None?) && (d.finished <==> d.pipe.None?)
            && Returned(d, size, memory) !in {Err(NoProcess), Err(NoOutput)}
            && (!d.finished ==> Returned(d, size, false) == Err(NoMemory) && After(d, size, false).finished)
            && (d.finished ==> Returned(d, size, memory) == Ok(None) && After(d, size, memory) == d)
  {
    if uses != [] {
      NeverWithoutItsChild(child, size, uses[..|uses| - 1], memory);
    }
  }

  // ------------------------------------------------------------------ the frames put together again

  /** The pixels of the first `n` calls, one after the other. */
  function Pixels(d: Decoder, size: nat, n: nat): Bytes {
    if n == 0 then [] else
    Pixels(d, size, n - 1)
    + match Call(d, size, n - 1)
      case Ok(Some(frame)) => frame.pixels
      case _ => []
  }

  lemma {:induction false} WholeFrames(d: Decoder, child: Child, size: nat, n: nat)
    requires AtStart(d, child) && size > 0 && n <= Whole(|child.bytes|, size)
    ensures Offset(size, n) <= |child.bytes| && Pixels(d, size, n) == child.bytes[..Offset(size, n)]
  {
    if n == 0 {
      OffsetNext(size, 0);
    } else {
      OffsetNext(size, n - 1);
      hide Offset, Whole, Call, AtStart, Pixels;
      WholeFrames(d, child, size, n - 1);
      FrameByFrame(d, child, size, n - 1);
      var from := Offset(size, n - 1);
      OneFrameMore(d, size, n - 1, child.bytes[from..from + size]);
      TakeMore(child.bytes, from, size);
    }
  }

  lemma TakeMore(bytes: Bytes, from: nat, size: nat)
    requires from + size <= |bytes|
    ensures bytes[..from] + bytes[from..from + size] == bytes[..from + size]
  {
  }

  lemma OneFrameMore(d: Decoder, size: nat, n: nat, pixels: Bytes)
    requires Call(d, size, n) == Ok(Some(Frame(n, pixels)))
    ensures Pixels(d, size, n + 1) == Pixels(d, size, n) + pixels
  {
    hide Call;
  }

  lemma {:induction false} NoMoreFrames(d: Decoder, child: Child, size: nat, n: nat)
    requires AtStart(d, child) && size > 0 && n >= Whole(|child.bytes|, size)
    ensures Pixels(d, size, n) == Pixels(d, size, Whole(|child.bytes|, size))
  {
    hide Call, AtStart, AfterCalls, Whole;
    if n > Whole(|child.bytes|, size) {
      NoMoreFrames(d, child, size, n - 1);
      if n - 1 == Whole(|child.bytes|, size) {
        ThenTheEnd(d, child, size);
      } else {
        NothingAfterTheEnd(d, child, size, n - 1);
      }
    }
  }

  /** However long one keeps asking, the frames are the stream, short of an incomplete last frame, in order and once. */
  lemma FramesAreTheStream(d: Decoder, child: Child, size: nat, n: nat)
    requires AtStart(d, child) && size > 0 && n >= Whole(|child.bytes|, size)
    ensures Pixels(d, size, n) == child.bytes[..|child.bytes| - |child.bytes| % size]
  {
    FramesFit(|child.bytes|, size, n);
    hide AtStart, Pixels, Whole, Offset;
    NoMoreFrames(d, child, size, n);
    WholeFrames(d, child, size, Whole(|child.bytes|, size));
  }

  /** How many frames were decoded before has no bearing on what follows. */
  lemma {:induction false} CountDoesNotMatter(d: Decoder, before: nat, size: nat, i: nat)
    ensures var e := d.(framesDecoded := d.framesDecoded + before);
            && AfterCalls(e, size, i)
               == AfterCalls(d, size, i).(framesDecoded := AfterCalls(d, size, i).framesDecoded + before)
            && Call(e, size, i) == Call(d, size, i)
  {
    if i > 0 {
      CountDoesNotMatter(d, before, size, i - 1);
    }
  }

  /**
    A rewind, wherever playback stood and however it ended: every call answers as it would for a decoder just opened on
    the new child, so the frames are the whole stream once more, and the count of decoded frames goes on. If no child
    can be started, no call ever returns anything.
   */
  lemma RewindPlaysItAll(d: Decoder, child: Child, size: nat, i: nat)
    requires size > 0
    ensures Call(Rewound(d, Some(child)), size, i) == Call(Opened(child), size, i)
    ensures AfterCalls(Rewound(d, Some(child)), size, i).framesDecoded
            == d.framesDecoded + AfterCalls(Opened(child), size, i).framesDecoded
    ensures i >= Whole(|child.bytes|, size) ==>
              Pixels(Rewound(d, Some(child)), size, i) == child.bytes[..|child.bytes| - |child.bytes| % size]
    ensures Call(Rewound(d, None), size, i) == Ok(None)
  {
    CountDoesNotMatter(Opened(child), d.framesDecoded, size, i);
    assert Rewound(d, Some(child)) == Opened(child).(framesDecoded := 0 + d.framesDecoded);
    FinishedForGood(Rewound(d, None), size, true, i);
    StartsAfresh(d, child);
    hide Call, AfterCalls, Whole, Pixels, AtStart, Rewound, Opened;
    if i >= Whole(|child.bytes|, size) {
      FramesAreTheStream(Rewound(d, Some(child)), child, size, i);
    }
  }
}
