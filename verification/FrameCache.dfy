/**
  The bounded frame cache: byte accounting against a hard cap, refusal instead of eviction, and transparency.
  (crates/owe-media/src/cache.rs)
 */
module FrameCache {
  import opened Prelude

  type Pixels = seq<bv8>
  type Encoded = seq<bv8>

  const USIZE_MAX: nat := 0xffff_ffff_ffff_ffff

  datatype Frame = Frame(index: nat, width: nat, height: nat, delay: nat, pixels: Pixels)

  /** `DecodedFrame::new`: the pixel buffer must be exactly four bytes a pixel, and not empty. */
  predicate WellSized(width: nat, height: nat, pixels: Pixels) {
    |pixels| == width * height * 4 && width > 0 && height > 0
  }

  datatype Codec = Codec(encode: Pixels -> Encoded, decode: (Encoded, nat) -> Option<Pixels>)

  /** The compression gives back what it was given. */
  ghost predicate Lossless(codec: Codec) {
    forall pixels :: codec.decode(codec.encode(pixels), |pixels|) == Some(pixels)
  }

  datatype Cached = Cached(index: nat, width: nat, height: nat, delay: nat, rawLen: nat, data: Encoded)

  datatype Cache = Cache(capBytes: nat, frames: seq<Cached>, storedBytes: nat, rawBytes: nat, refusals: nat)

  function NewCache(capBytes: nat): Cache {
    Cache(capBytes, [], 0, 0, 0)
  }

  function Stored(frame: Frame, codec: Codec): Cached {
    Cached(frame.index, frame.width, frame.height, frame.delay, |frame.pixels|, codec.encode(frame.pixels))
  }

  function Refuse(c: Cache): Cache {
    c.(refusals := if c.refusals < USIZE_MAX then c.refusals + 1 else c.refusals)
  }

  function Insert(c: Cache, frame: Frame, codec: Codec): (Cache, bool) {
    var held := Stored(frame, codec);
    if c.storedBytes + |held.data| > USIZE_MAX || c.rawBytes + held.rawLen > USIZE_MAX
        || c.storedBytes + |held.data| > c.capBytes
    then (Refuse(c), false)
    else (c.(frames := c.frames + [held], storedBytes := c.storedBytes + |held.data|,
        rawBytes := c.rawBytes + held.rawLen), true)
  }

  function Cleared(c: Cache): Cache {
    c.(frames := [], storedBytes := 0, rawBytes := 0)
  }

  /** The first held frame with this index; `|frames|` when there is none. */
  function Find(frames: seq<Cached>, index: nat): (at: nat)
    ensures at <= |frames| && (at < |frames| ==> frames[at].index == index)
    ensures forall i :: 0 <= i < at ==> frames[i].index != index
  {
    if frames == [] || frames[0].index == index then 0 else 1 + Find(frames[1..], index)
  }

  /** `get`: `Ok(None)` is "not cached"; an unreadable or mis-sized frame is an error. */
  function Get(c: Cache, index: nat, codec: Codec): Result<Option<Frame>, ()> {
    var at := Find(c.frames, index);
    if at == |c.frames| then Ok(None)
    else
      var held := c.frames[at];
      match codec.decode(held.data, held.rawLen)
      case None => Err(())
      case Some(pixels) =>
        if WellSized(held.width, held.height, pixels)
        then Ok(Some(Frame(held.index, held.width, held.height, held.delay, pixels))) else Err(())
  }

  /** `contains`: a range test over the first and last held index. */
  predicate Contains(c: Cache, index: nat) {
    c.frames != [] && c.frames[0].index <= index <= c.frames[|c.frames| - 1].index
  }

  // ------------------------------------------------------------------ properties over any history

  datatype Op = InsertOp(frame: Frame) | ClearOp

  function Apply(c: Cache, op: Op, codec: Codec): Cache {
    match op
    case InsertOp(frame) => Insert(c, frame, codec).0
    case ClearOp => Cleared(c)
  }

  function Run(c: Cache, ops: seq<Op>, codec: Codec): Cache {
    if ops == [] then c else Apply(Run(c, ops[..|ops| - 1], codec), ops[|ops| - 1], codec)
  }

  function DataBytes(frames: seq<Cached>): nat {
    if frames == [] then 0 else DataBytes(frames[..|frames| - 1]) + |frames[|frames| - 1].data|
  }

  function RawBytes(frames: seq<Cached>): nat {
    if frames == [] then 0 else RawBytes(frames[..|frames| - 1]) + frames[|frames| - 1].rawLen
  }

  /** The counters are the sums they stand for, and the cap holds. */
  predicate Balanced(c: Cache) {
    c.storedBytes == DataBytes(c.frames) && c.rawBytes == RawBytes(c.frames) && c.storedBytes <= c.capBytes
  }

  /** Over every sequence of inserts and clears the bytes held are accounted for exactly and never exceed the cap; and a
      refused insert changes nothing but the refusal counter, which happens exactly when the encoding does not fit. */
  lemma {:induction false} AccountingHolds(cap: nat, ops: seq<Op>, frame: Frame, codec: Codec)
    requires cap <= USIZE_MAX
    ensures var c := Run(NewCache(cap), ops, codec);
            && Balanced(c) && c.capBytes == cap
            && var (next, fits) := Insert(c, frame, codec);
               && (fits <==> DataBytes(c.frames) + |codec.encode(frame.pixels)| <= cap
                             && RawBytes(c.frames) + |frame.pixels| <= USIZE_MAX)
               && (!fits ==> next.(refusals := c.refusals) == c)
               && (fits ==> next.frames == c.frames + [Stored(frame, codec)] && next.refusals == c.refusals)
  {
    if ops != [] {
      var last := ops[|ops| - 1];
      AccountingHolds(cap, ops[..|ops| - 1], if last.InsertOp? then last.frame else frame, codec);
      var before := Run(NewCache(cap), ops[..|ops| - 1], codec);
      if last.InsertOp? && Insert(before, last.frame, codec).1 {
        var held := before.frames + [Stored(last.frame, codec)];
        assert held[..|held| - 1] == before.frames;
      }
    }
  }

  /** How many inserts of the history found no room, given what the ones before them had left there. */
  function Refused(cap: nat, ops: seq<Op>, codec: Codec): nat {
    if ops == [] then 0
    else
      var early, last := ops[..|ops| - 1], ops[|ops| - 1];
      var frames := Run(NewCache(cap), early, codec).frames;
      Refused(cap, early, codec)
      + if last.InsertOp? && (DataBytes(frames) + |codec.encode(last.frame.pixels)| > cap
                              || RawBytes(frames) + |last.frame.pixels| > USIZE_MAX) then 1 else 0
  }

  /** The refusals are counted over the whole history, across clears, and the counter stops at its end. */
  lemma {:induction false} RefusalsAreCounted(cap: nat, ops: seq<Op>, codec: Codec)
    requires cap <= USIZE_MAX
    ensures var refused := Refused(cap, ops, codec);
            Run(NewCache(cap), ops, codec).refusals == if refused <= USIZE_MAX then refused else USIZE_MAX
  {
    if ops != [] {
      var early, last := ops[..|ops| - 1], ops[|ops| - 1];
      RefusalsAreCounted(cap, early, codec);
      if last.InsertOp? { AccountingHolds(cap, early, last.frame, codec); }
    }
  }

  /** Everything held is the encoding of a frame that was put in. */
  ghost predicate HoldsOnly(c: Cache, inserted: seq<Frame>, codec: Codec) {
    forall i :: 0 <= i < |c.frames| ==> exists j :: 0 <= j < |inserted| && c.frames[i] == Stored(inserted[j], codec)
  }

  function Inserted(ops: seq<Op>): seq<Frame> {
    if ops == [] then []
    else Inserted(ops[..|ops| - 1]) + (if ops[|ops| - 1].InsertOp? then [ops[|ops| - 1].frame] else [])
  }

  /** Transparency over every history: whatever the cache answers for an index is, pixel for pixel, a frame of that
      index that was put in; it never errs. */
  lemma {:induction false} ReadsBackWhatWasPutIn(cap: nat, ops: seq<Op>, codec: Codec, index: nat)
    requires Lossless(codec) && forall f :: f in Inserted(ops) ==> WellSized(f.width, f.height, f.pixels)
    ensures var answer := Get(Run(NewCache(cap), ops, codec), index, codec);
            answer.Ok? && (answer.value.Some? ==>
                answer.value.value in Inserted(ops) && answer.value.value.index == index)
  {
    HoldsInserted(cap, ops, codec);
    var c := Run(NewCache(cap), ops, codec);
    var at := Find(c.frames, index);
    if at < |c.frames| {
      var j :| 0 <= j < |Inserted(ops)| && c.frames[at] == Stored(Inserted(ops)[j], codec);
      assert Inserted(ops)[j] in Inserted(ops);
    }
  }

  lemma {:induction false} HoldsInserted(cap: nat, ops: seq<Op>, codec: Codec)
    ensures HoldsOnly(Run(NewCache(cap), ops, codec), Inserted(ops), codec)
  {
    if ops != [] {
      var last := ops[|ops| - 1];
      HoldsInserted(cap, ops[..|ops| - 1], codec);
      var before, was := Run(NewCache(cap), ops[..|ops| - 1], codec), Inserted(ops[..|ops| - 1]);
      var after, now := Run(NewCache(cap), ops, codec), Inserted(ops);
      forall i | 0 <= i < |after.frames| ensures exists j ::
          0 <= j < |now| && after.frames[i] == Stored(now[j], codec) {
        if i < |before.frames| {
          var j :| 0 <= j < |was| && before.frames[i] == Stored(was[j], codec);
          assert now[j] == was[j];
        } else {
          assert now[|was|] == last.frame;
        }
      }
    }
  }

  lemma {:induction false} FindInLonger(frames: seq<Cached>, last: Cached, index: nat)
    ensures Find(frames + [last], index) ==
              if Find(frames, index) < |frames| then Find(frames, index)
              else if last.index == index then |frames| else |frames| + 1
  {
    if frames == [] {
      assert frames + [last] == [last] && [last][1..] == [];
    } else if frames[0].index != index {
      assert (frames + [last])[1..] == frames[1..] + [last];
      FindInLonger(frames[1..], last, index);
    }
  }

  /** A frame that was accepted reads back unchanged, unless an older one of the same index is held, which still wins;
      accepting or refusing it changes the answer for no other index; and after a clear nothing is found. */
  lemma AcceptedFrameReadsBack(c: Cache, frame: Frame, codec: Codec, index: nat)
    requires Lossless(codec) && WellSized(frame.width, frame.height, frame.pixels)
    ensures var (next, fits) := Insert(c, frame, codec);
            Get(next, index, codec) == if fits && index == frame.index && Get(c, index, codec) == Ok(None)
                                       then Ok(Some(frame)) else Get(c, index, codec)
    ensures Get(Cleared(c), index, codec) == Ok(None)
  {
    FindInLonger(c.frames, Stored(frame, codec), index);
  }

  /** With contiguous indices, which is how an animation fills it, the range test and the search agree. */
  lemma {:induction false} ContainsAgreesWithGet(c: Cache, index: nat, codec: Codec)
    requires forall i :: 0 <= i < |c.frames| ==> c.frames[i].index == c.frames[0].index + i
    ensures Contains(c, index) <==> Get(c, index, codec) != Ok(None)
  {
    if Contains(c, index) {
      var i := index - c.frames[0].index;
      assert c.frames[i].index == index;
    }
  }

  // ------------------------------------------------------------------ the object

  class FrameCache {
    const codec: Codec
    const capBytes: nat
    var frames: seq<Cached>
    var storedBytes: nat
    var rawBytes: nat
    var refusals: nat

    function View(): Cache
      reads this
    {
      Cache(capBytes, frames, storedBytes, rawBytes, refusals)
    }

    constructor (capBytes: nat, codec: Codec)
      ensures View() == NewCache(capBytes) && this.codec == codec
    {
      this.capBytes, this.codec := capBytes, codec;
      frames, storedBytes, rawBytes, refusals := [], 0, 0, 0;
    }

    method Put(frame: Frame) returns (stored: bool)
      modifies this
      ensures View() == Insert(old(View()), frame, codec).0 && stored == Insert(old(View()), frame, codec).1
    {
      var data := codec.encode(frame.pixels);
      if storedBytes + |data| > USIZE_MAX || rawBytes + |frame.pixels| > USIZE_MAX || storedBytes + |data| > capBytes {
        if refusals < USIZE_MAX {
          refusals := refusals + 1;
        }
        return false;
      }
      storedBytes := storedBytes + |data|;
      rawBytes := rawBytes + |frame.pixels|;
      frames := frames + [Cached(frame.index, frame.width, frame.height, frame.delay, |frame.pixels|, data)];
      return true;
    }

    method Read(index: nat) returns (r: Result<Option<Frame>, ()>)
      ensures r == Get(View(), index, codec)
    {
      var at := 0;
      while at < |frames| && frames[at].index != index
        invariant at <= |frames| && at + Find(frames[at..], index) == Find(frames, index)
      {
        assert frames[at..][1..] == frames[at + 1..];
        at := at + 1;
      }
      if at == |frames| {
        return Ok(None);
      }
      var held := frames[at];
      var pixels := codec.decode(held.data, held.rawLen);
      if pixels.None? || !WellSized(held.width, held.height, pixels.value) {
        return Err(());
      }
      return Ok(Some(Frame(held.index, held.width, held.height, held.delay, pixels.value)));
    }

    method Clear()
      modifies this
      ensures View() == Cleared(old(View()))
    {
      frames, storedBytes, rawBytes := [], 0, 0;
    }
  }
}
