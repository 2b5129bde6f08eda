/**
  The decoder object: a frame buffer filled by reads of whatever size the system grants.
  (crates/owe-media/src/video.rs, `VideoDecoder`)
 */
module VideoDecoder {
  import opened Prelude
  import opened VideoModel

  /** What the system does at one read: grants up to so many bytes, or interrupts. */
  datatype Grant = UpTo(count: nat) | Interrupted

  /** How many bytes a read that asks for `space` gets: at least one while the stream has any, never more than asked
      for. */
  function Granted(rest: Bytes, space: nat, grants: seq<Grant>): (n: nat)
    requires space > 0
    ensures n <= space && n <= |rest| && (n == 0 <==> rest == [])
  {
    var most := if space < |rest| then space else |rest|;
    if grants == [] || grants[0].Interrupted? || most <= grants[0].count then most
    else if rest != [] && grants[0].count == 0 then 1
    else grants[0].count
  }

  /** The size of a frame; a video with an empty picture is refused when it is opened. */
  type FrameSize = n: nat | n > 0 witness 4

  class VideoDecoder {
    const frameBytes: FrameSize
    var pipe: Option<Pipe>
    var process: Option<Exit>
    var nextIndex: nat
    var framesDecoded: nat
    var finished: bool

    ghost function View(): Decoder
      reads this
    {
      Decoder(pipe, process, nextIndex, framesDecoded, finished)
    }

    constructor (frameBytes: FrameSize, child: Child)
      ensures View() == Opened(child) && this.frameBytes == frameBytes
    {
      this.frameBytes := frameBytes;
      pipe, process := Some(Pipe(child.bytes, child.breaks)), Some(child.exit);
      nextIndex, framesDecoded, finished := 0, 0, false;
    }

    /** Kill the child if it still runs, and close its output. */
    method StopChild()
      modifies this
      ensures View() == Stopped(old(View()))
    {
      pipe, process, finished := None, None, true;
    }

    /** Wait for the child to exit; whatever comes of it, the child is gone afterwards. */
    method FinishChild() returns (status: Result<Exit, Failure>)
      requires process.Some?
      modifies this
      ensures finished == old(finished) || (finished && status.Err?)
      ensures pipe == None && process == None && nextIndex == old(nextIndex) && framesDecoded == old(framesDecoded)
      ensures status == if old(process.value).Stuck? then Err(NotWaited) else Ok(old(process.value))
    {
      if process.value.Stuck? {
        StopChild();
        return Err(NotWaited);
      }
      status := Ok(process.value);
      pipe, process := None, None;
    }

    /**
      Fill `pixels` from the pipe. The reads stop when the buffer is full, the stream ends or the pipe breaks; the
      bytes are the first of the stream whatever sizes the reads came in.
     */
    method Fill(pixels: array<Byte>, grants: seq<Grant>) returns (filled: nat, broken: bool)
      requires pipe.Some?
      modifies this`pipe, pixels
      ensures filled == (if pixels.Length <= |old(pipe.value.rest)| then pixels.Length else |old(pipe.value.rest)|)
      ensures pixels[..filled] == old(pipe.value.rest)[..filled]
      ensures pipe == Some(Pipe(old(pipe.value.rest)[filled..], old(pipe.value.breaks)))
      ensures broken <==> filled < pixels.Length && old(pipe.value.breaks)
    {
      filled, broken := 0, false;
      var left := grants;
      ghost var stream := pipe.value.rest;
      while filled < pixels.Length
        invariant filled <= pixels.Length && filled <= |stream| && !broken
        invariant pixels[..filled] == stream[..filled]
        invariant pipe == Some(Pipe(stream[filled..], old(pipe.value.breaks)))
        decreases pixels.Length - filled, |left|
      {
        if left != [] && left[0].Interrupted? {
          left := left[1..];
          continue;
        }
        if pipe.value.rest == [] && pipe.value.breaks {
          broken := true;
          break;
        }
        var read := Granted(pipe.value.rest, pixels.Length - filled, left);
        if read == 0 {
          break;
        }
        Deliver(pixels, filled, pipe.value.rest[..read]);
        assert stream[filled..][..read] == stream[filled..filled + read];
        assert stream[..filled] + stream[filled..filled + read] == stream[..filled + read];
        assert stream[filled..][read..] == stream[filled + read..];
        pipe := Some(pipe.value.(rest := pipe.value.rest[read..]));
        filled := filled + read;
        left := if left == [] then [] else left[1..];
      }
    }

    /** The system copies the bytes of one read into the buffer. */
    static method Deliver(pixels: array<Byte>, at: nat, bytes: Bytes)
      requires at + |bytes| <= pixels.Length
      modifies pixels
      ensures pixels[..at + |bytes|] == old(pixels[..at]) + bytes
    {
      forall k | 0 <= k < |bytes| {
        pixels[at + k] := bytes[k];
      }
    }

    /** The next frame, its end, or an error — the same for every way of cutting the stream into reads. */
    method NextFrame(grants: seq<Grant>, memory: bool) returns (outcome: Outcome)
      modifies this
      ensures View() == After(old(View()), frameBytes, memory)
      ensures outcome == Returned(old(View()), frameBytes, memory)
    {
      if finished {
        return Ok(None);
      }
      if !memory {
        StopChild();
        return Err(NoMemory);
      }
      var pixels := new Byte[frameBytes](_ => 0);
      if process.None? {
        finished := true;
        return Err(NoProcess);
      }
      if pipe.None? {
        StopChild();
        return Err(NoOutput);
      }
      var filled, broken := Fill(pixels, grants);
      if broken {
        StopChild();
        return Err(ReadFailed);
      }
      if filled == 0 {
        finished := true;
        var status := FinishChild();
        if status.Err? {
          return Err(status.error);
        }
        return if status.value.Success? then Ok(None) else Err(FailedAtEnd);
      }
      if filled < frameBytes {
        finished := true;
        var status := FinishChild();
        return if status.Err? then Err(status.error) else Err(MidFrame(filled, frameBytes));
      }
      outcome := Ok(Some(Frame(nextIndex, pixels[..])));
      assert pixels[..] == pixels[..filled];
      nextIndex, framesDecoded := nextIndex + 1, framesDecoded + 1;
    }

    /** Start over with a fresh child; `child` is `None` when it cannot be started. */
    method Rewind(child: Option<Child>) returns (outcome: Result<(), Failure>)
      modifies this
      ensures View() == Rewound(old(View()), child)
      ensures outcome.Ok? <==> child.Some?
    {
      StopChild();
      nextIndex := 0;
      if child.None? {
        return Err(NotStarted);
      }
      pipe, process := Some(Pipe(child.value.bytes, child.value.breaks)), Some(child.value.exit);
      finished := false;
      return Ok(());
    }
  }
}
