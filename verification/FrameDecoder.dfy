/**
  Newline-delimited framing with a hard size cap: an incremental decoder that is proved to split the whole byte
  stream, however it is cut into chunks. (crates/owe-ipc/src/frame.rs)
 */
module FrameDecoder {
  import opened Prelude

  type Byte = bv8
  type Bytes = seq<Byte>

  const NEWLINE: Byte := 10
  const MAX_FRAME_BYTES := 1024 * 1024

  datatype FrameError = TooLarge | Poisoned

  // ------------------------------------------------------------------ reference: splitting a whole stream

  /** The position of the first newline, or the length when there is none. */
  function FindNewline(s: Bytes): (at: nat)
    ensures at <= |s| && (at < |s| ==> s[at] == NEWLINE)
    ensures forall i :: 0 <= i < at ==> s[i] != NEWLINE
  {
    if s == [] || s[0] == NEWLINE then 0 else 1 + FindNewline(s[1..])
  }

  /** The complete lines of a stream, without their newlines, and the unfinished last one. */
  function Split(s: Bytes): (seq<Bytes>, Bytes)
    decreases |s|
  {
    var at := FindNewline(s);
    if at == |s| then ([], s)
    else var (lines, tail) := Split(s[at + 1..]); ([s[..at]] + lines, tail)
  }

  function Join(lines: seq<Bytes>, tail: Bytes): Bytes {
    if lines == [] then tail else lines[0] + [NEWLINE] + Join(lines[1..], tail)
  }

  /** The leading lines that are no longer than the cap. */
  function Fitting(lines: seq<Bytes>): seq<Bytes> {
    if lines == [] || |lines[0]| > MAX_FRAME_BYTES then [] else [lines[0]] + Fitting(lines[1..])
  }

  /** Some line of the stream, finished or not, is longer than the cap. */
  predicate Oversize(s: Bytes) {
    var (lines, tail) := Split(s);
    |Fitting(lines)| < |lines| || |tail| > MAX_FRAME_BYTES
  }

  /** Splitting and joining are inverse: the split loses nothing, and no line contains a newline. */
  lemma {:induction false} SplitJoins(s: Bytes)
    ensures var (lines, tail) := Split(s);
            && Join(lines, tail) == s && NEWLINE !in tail
            && forall i :: 0 <= i < |lines| ==> NEWLINE !in lines[i]
    decreases |s|
  {
    var at := FindNewline(s);
    if at < |s| {
      SplitJoins(s[at + 1..]);
      var (lines, tail) := Split(s[at + 1..]);
      assert ([s[..at]] + lines)[1..] == lines;
      assert s == s[..at] + [NEWLINE] + s[at + 1..];
    }
  }

  /** The split is the only one: whatever was joined comes back. */
  lemma {:induction false} JoinSplits(lines: seq<Bytes>, tail: Bytes)
    requires NEWLINE !in tail && forall i :: 0 <= i < |lines| ==> NEWLINE !in lines[i]
    ensures Split(Join(lines, tail)) == (lines, tail)
    decreases |lines|
  {
    if lines != [] {
      var rest := Join(lines[1..], tail);
      FindAfterLine(lines[0], rest);
      var s := lines[0] + [NEWLINE] + rest;
      assert s[..|lines[0]|] == lines[0] && s[|lines[0]| + 1..] == rest;
      JoinSplits(lines[1..], tail);
      assert lines == [lines[0]] + lines[1..];
    }
  }

  lemma {:induction false} FindAfterLine(line: Bytes, rest: Bytes)
    requires NEWLINE !in line
    ensures FindNewline(line + [NEWLINE] + rest) == |line|
  {
    var s := line + [NEWLINE] + rest;
    if line != [] {
      assert s[1..] == line[1..] + [NEWLINE] + rest;
      FindAfterLine(line[1..], rest);
    }
  }

  // ------------------------------------------------------------------ what draining does

  /** Everything a drain yields from a buffer: the payloads, what stays buffered, and whether the decoder is
      poisoned. */
  datatype Drained = Drained(payloads: seq<Bytes>, rest: Bytes, poisoned: bool)

  function Drain(buffer: Bytes): Drained
    decreases |buffer|
  {
    var at := FindNewline(buffer);
    if at > MAX_FRAME_BYTES then Drained([], buffer, true)
    else if at == |buffer| then Drained([], buffer, false)
    else var d := Drain(buffer[at + 1..]); d.(payloads := [buffer[..at]] + d.payloads)
  }

  /** A drain yields exactly the lines of the split up to the first one longer than the cap, poisons exactly when
      there is such a line, and otherwise keeps the unfinished line. */
  lemma {:induction false} DrainIsSplit(s: Bytes)
    ensures var (lines, tail) := Split(s);
            && Drain(s).payloads == Fitting(lines)
            && (Drain(s).poisoned <==> Oversize(s))
            && (!Drain(s).poisoned ==> Drain(s).payloads == lines && Drain(s).rest == tail)
    decreases |s|
  {
    var at := FindNewline(s);
    if at < |s| {
      var (lines, tail) := Split(s[at + 1..]);
      assert ([s[..at]] + lines)[1..] == lines;
      if at <= MAX_FRAME_BYTES { DrainIsSplit(s[at + 1..]); }
    }
  }

  /** What a second drain, after the first one and more bytes, adds up to. */
  function Then(first: Drained, b: Bytes): Drained {
    if first.poisoned then first
    else var d := Drain(first.rest + b); d.(payloads := first.payloads + d.payloads)
  }

  ghost predicate SameReading(x: Drained, y: Drained) {
    x.payloads == y.payloads && x.poisoned == y.poisoned && (!x.poisoned ==> x == y)
  }

  /** Draining early changes nothing: draining `a`, then what is left with `b` after it, is draining `a + b`. */
  lemma {:induction false} DrainInTwo(a: Bytes, b: Bytes)
    ensures SameReading(Then(Drain(a), b), Drain(a + b))
    decreases |a|
  {
    hide FindNewline;
    var at := FindNewline(a);
    FindInPrefix(a, b);
    if at < |a| {
      if at <= MAX_FRAME_BYTES {
        assert (a + b)[at + 1..] == a[at + 1..] + b && (a + b)[..at] == a[..at];
        DrainInTwo(a[at + 1..], b);
        PrependPayload(a[..at], Drain(a[at + 1..]), b);
      }
    } else if at <= MAX_FRAME_BYTES {
      assert [] + Drain(a + b).payloads == Drain(a + b).payloads;
    }
  }

  lemma PrependPayload(line: Bytes, d: Drained, b: Bytes)
    ensures var e := Then(d, b);
            Then(d.(payloads := [line] + d.payloads), b) == e.(payloads := [line] + e.payloads)
  {
    if !d.poisoned {
      var e := Drain(d.rest + b);
      assert [line] + d.payloads + e.payloads == [line] + (d.payloads + e.payloads);
    }
  }

  lemma {:induction false} FindInPrefix(a: Bytes, b: Bytes)
    ensures if FindNewline(a) < |a| then FindNewline(a + b) == FindNewline(a) else FindNewline(a + b) >= |a|
    decreases |a|
  {
    if a != [] && a[0] != NEWLINE {
      assert (a + b)[1..] == a[1..] + b;
      FindInPrefix(a[1..], b);
    }
  }

  function Concat(chunks: seq<Bytes>): Bytes {
    if chunks == [] then [] else Concat(chunks[..|chunks| - 1]) + chunks[|chunks| - 1]
  }

  /** Push each chunk and drain after it. */
  function ReadChunks(chunks: seq<Bytes>): Drained {
    if chunks == [] then Drained([], [], false)
    else Then(ReadChunks(chunks[..|chunks| - 1]), chunks[|chunks| - 1])
  }

  /** Chunking is invisible: pushing a stream in any chunks and draining after each yields exactly the newline-split
      payloads of the whole stream up to the first line longer than the cap, and poisons exactly when there is one. */
  lemma {:induction false} ChunkingIsInvisible(chunks: seq<Bytes>)
    ensures SameReading(ReadChunks(chunks), Drain(Concat(chunks)))
    ensures var (lines, tail) := Split(Concat(chunks));
            && ReadChunks(chunks).payloads == Fitting(lines)
            && (ReadChunks(chunks).poisoned <==> Oversize(Concat(chunks)))
            && (!ReadChunks(chunks).poisoned ==> ReadChunks(chunks) == Drained(lines, tail, false))
  {
    DrainIsSplit(Concat(chunks));
    if chunks != [] {
      var n := |chunks| - 1;
      ChunkingIsInvisible(chunks[..n]);
      DrainInTwo(Concat(chunks[..n]), chunks[n]);
    }
  }

  // ------------------------------------------------------------------ the decoder

  class FrameDecoder {
    var buffer: Bytes
    var poisoned: bool

    constructor ()
      ensures buffer == [] && !poisoned
    {
      buffer, poisoned := [], false;
    }

    /** Take in one chunk of the stream; a poisoned decoder takes nothing more. */
    method Push(bytes: Bytes) returns (r: Result<(), FrameError>)
      modifies this
      ensures poisoned == old(poisoned)
      ensures r == if old(poisoned) then Err(Poisoned) else Ok(())
      ensures buffer == if old(poisoned) then old(buffer) else old(buffer) + bytes
    {
      if poisoned {
        return Err(Poisoned);
      }
      buffer := buffer + bytes;
      return Ok(());
    }

    /** Where the first buffered newline is. */
    method Position() returns (position: nat)
      ensures position == FindNewline(buffer)
    {
      position := 0;
      while position < |buffer| && buffer[position] != NEWLINE
        invariant position <= |buffer| && forall i :: 0 <= i < position ==> buffer[i] != NEWLINE
      {
        position := position + 1;
      }
    }

    /** Cut the first line off the buffer. A line that is too long, finished or not, poisons the decoder. */
    method NextFrame() returns (r: Result<Option<Bytes>, FrameError>)
      modifies this
      ensures old(poisoned) ==> r == Err(Poisoned) && poisoned && buffer == old(buffer)
      ensures !old(poisoned) ==>
                var d := Drain(old(buffer));
                match r
                case Ok(Some(payload)) => !poisoned
                    && d == Drain(buffer).(payloads := [payload] + Drain(buffer).payloads)
                                          && |buffer| < |old(buffer)|
                case Ok(None) => !poisoned && buffer == old(buffer) && d == Drained([], buffer, false)
                case Err(e) => e == TooLarge && poisoned && buffer == old(buffer) && d == Drained([], buffer, true)
    {
      if poisoned {
        return Err(Poisoned);
      }
      var position := Position();
      if position == |buffer| {
        if |buffer| > MAX_FRAME_BYTES {
          poisoned := true;
          return Err(TooLarge);
        }
        return Ok(None);
      }
      if position > MAX_FRAME_BYTES {
        poisoned := true;
        return Err(TooLarge);
      }
      var line := buffer[..position];
      buffer := buffer[position + 1..];
      return Ok(Some(line));
    }
  }

  // ------------------------------------------------------------------ encoding

  /** `encode` after serialisation: a payload below the cap, and a newline. */
  function Encode(payload: Bytes): Result<Bytes, FrameError> {
    if |payload| >= MAX_FRAME_BYTES then Err(TooLarge) else Ok(payload + [NEWLINE])
  }

  /** What is sent for messages that `encode` accepts. */
  function EncodeAll(payloads: seq<Bytes>): Bytes
    requires forall i :: 0 <= i < |payloads| ==> Encode(payloads[i]).Ok?
  {
    if payloads == [] then [] else Encode(payloads[0]).value + EncodeAll(payloads[1..])
  }

  /** Round trip: any messages that `encode` accepts come back unchanged and in order under every chunking, nothing
      stays buffered, and the decoder is not poisoned. (A serialised message contains no raw newline.) */
  lemma {:induction false} EncodedComesBack(payloads: seq<Bytes>, chunks: seq<Bytes>)
    requires forall i :: 0 <= i < |payloads| ==> NEWLINE !in payloads[i] && Encode(payloads[i]).Ok?
    requires Concat(chunks) == EncodeAll(payloads)
    ensures ReadChunks(chunks) == Drained(payloads, [], false)
  {
    ChunkingIsInvisible(chunks);
    EncodeIsJoin(payloads);
    JoinSplits(payloads, []);
    AllFit(payloads);
  }

  lemma {:induction false} EncodeIsJoin(payloads: seq<Bytes>)
    requires forall i :: 0 <= i < |payloads| ==> Encode(payloads[i]).Ok?
    ensures EncodeAll(payloads) == Join(payloads, [])
  {
    if payloads != [] { EncodeIsJoin(payloads[1..]); }
  }

  lemma {:induction false} AllFit(payloads: seq<Bytes>)
    requires forall i :: 0 <= i < |payloads| ==> |payloads[i]| <= MAX_FRAME_BYTES
    ensures Fitting(payloads) == payloads
  {
    if payloads != [] {
      AllFit(payloads[1..]);
      assert payloads == [payloads[0]] + payloads[1..];
    }
  }

  /** The documented cap counts the newline, but the decoder lets a line of exactly the cap through: a line is refused
      exactly when its payload alone is longer than the cap, one byte more than `encode` would ever send. */
  lemma {:induction false} CapIsOnThePayload(payload: Bytes)
    requires NEWLINE !in payload
    ensures Oversize(payload + [NEWLINE]) <==> |payload| > MAX_FRAME_BYTES
    ensures Encode(payload).Ok? <==> |payload| + 1 <= MAX_FRAME_BYTES
    ensures Encode(payload).Ok? ==> !Oversize(Encode(payload).value)
    ensures |payload| == MAX_FRAME_BYTES ==>
              Encode(payload).Err? && Drain(payload + [NEWLINE]) == Drained([payload], [], false)
  {
    assert Join([payload], []) == payload + [NEWLINE] by {
      assert [payload][1..] == [];
      assert payload + [NEWLINE] + [] == payload + [NEWLINE];
    }
    JoinSplits([payload], []);
    DrainIsSplit(payload + [NEWLINE]);
    assert [payload][1..] == [];
  }
}
