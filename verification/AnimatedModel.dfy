/**
  Playing an animation from three places at once: the cached head, the frame the cache refused, and the container.
  (crates/owe-media/src/animated.rs)
 */
module AnimatedModel {
  import opened Prelude
  import opened FrameCache

  /** One step of the container: a picture, or a frame that cannot be decoded. */
  datatype Item = Picture(width: nat, height: nat, delay: nat, pixels: Pixels) | Broken

  datatype Failure = DecodeFailed | CacheFailed | NoFrames

  datatype Player = Player(
    items: seq<Item>,           // the container
    pos: nat,                   // how far the source has read it
    cache: Cache,
    pending: Option<Frame>,     // the frame the pre-cache pulled and could not store
    produced: nat,
    cursor: nat,
    exhausted: bool,
    streaming: bool,
    frameCount: Option<nat>)

  predicate Decodes(item: Item) {
    item.Picture? && WellSized(item.width, item.height, item.pixels)
  }

  function Pictured(item: Item, index: nat): Frame
    requires Decodes(item)
  {
    Frame(index, item.width, item.height, item.delay, item.pixels)
  }

  /** `pull`: the next frame of the container. */
  function Pull(p: Player): (Player, Result<Option<Frame>, Failure>) {
    if p.exhausted then (p, Ok(None))
    else if p.pos >= |p.items| then (p.(exhausted := true), Ok(None))
    else if !Decodes(p.items[p.pos]) then (p.(pos := p.pos + 1, exhausted := true), Err(DecodeFailed))
    else (p.(pos := p.pos + 1, produced := p.produced + 1), Ok(Some(Pictured(p.items[p.pos], p.produced))))
  }

  /** `pre_cache`, up to its closing `info` update. */
  function FillCache(p: Player, codec: Codec): (Player, Result<(), Failure>)
    decreases |p.items| - p.pos, if p.exhausted then 0 else 1
  {
    var (q, pulled) := Pull(p);
    match pulled
    case Err(e) => (q, Err(e))
    case Ok(None) => (q, Ok(()))
    case Ok(Some(frame)) =>
      var (cache, fits) := Insert(q.cache, frame, codec);
      if fits then FillCache(q.(cache := cache), codec)
      else (q.(cache := cache, streaming := true, pending := Some(frame)), Ok(()))
  }

  function Fresh(items: seq<Item>, cap: nat): Player {
    Player(items, 0, NewCache(cap), None, 0, 0, false, false, None)
  }

  function Open(items: seq<Item>, cap: nat, codec: Codec): Result<Player, Failure> {
    var (p, filled) := FillCache(Fresh(items, cap), codec);
    match filled
    case Err(e) => Err(e)
    case Ok(_) =>
      var q := if p.exhausted then p.(frameCount := Some(p.produced)) else p;
      if q.produced == 0 && q.cache.frames == [] then Err(NoFrames) else Ok(q)
  }

  function Next(p: Player, codec: Codec): (Player, Result<Option<Frame>, Failure>) {
    match Get(p.cache, p.cursor, codec)
    case Err(_) => (p, Err(CacheFailed))
    case Ok(Some(frame)) => (p.(cursor := p.cursor + 1), Ok(Some(frame)))
    case Ok(None) =>
      if p.pending.Some? && p.pending.value.index == p.cursor
      then (p.(pending := None, cursor := p.cursor + 1), Ok(p.pending))
      else
        var (q, pulled) := Pull(p);
        match pulled
        case Ok(Some(frame)) => (q.(cursor := frame.index + 1), Ok(Some(frame)))
        case _ => (q, pulled)
  }

  /** `rewind`: the container starts over, but the index it hands out next is the length of the cache. */
  function Rewind(p: Player): Player {
    p.(pos := 0, pending := None, produced := |p.cache.frames|, cursor := 0, exhausted := !p.streaming)
  }

  // ------------------------------------------------------------------ what a player still has to give

  /** How many pictures the container gives before it ends or breaks. */
  function Good(items: seq<Item>): (n: nat)
    ensures n <= |items| && (n < |items| ==> !Decodes(items[n]))
    ensures forall i :: 0 <= i < n ==> Decodes(items[i])
  {
    if items == [] || !Decodes(items[0]) then 0 else 1 + Good(items[1..])
  }

  /** A decoded picture: four bytes for each of its pixels, of which there are some. */
  predicate IsPicture(item: Item) {
    item.Picture? && item.width > 0 && item.height > 0 && |item.pixels| == 4 * (item.width * item.height)
  }

  /** The good part of a container ends with it or at the first item that is not a picture. */
  lemma GoodEndsAtTheFirstBreak(items: seq<Item>, n: nat)
    ensures n == Good(items) <==>
              && n <= |items| && (forall i :: 0 <= i < n ==> IsPicture(items[i]))
              && (n < |items| ==> !IsPicture(items[n]))
  {
    var good := Good(items);
    forall i | 0 <= i < |items| ensures IsPicture(items[i]) <==> Decodes(items[i]) {
    }
    hide IsPicture, Decodes;
  }

  /** Picture `i` of the container under the index `shift + i`. */
  function Shifted(items: seq<Item>, i: nat, shift: nat): Frame
    requires i < Good(items)
  {
    Pictured(items[i], shift + i)
  }

  /** The container's pictures from `from` on, relabelled by `shift`. */
  function Stretch(items: seq<Item>, from: nat, to: nat, shift: nat): (s: seq<Frame>)
    requires from <= to <= Good(items)
    ensures |s| == to - from
    ensures forall i :: 0 <= i < to - from ==> s[i] == Shifted(items, from + i, shift)
  {
    seq(to - from, i requires 0 <= i < to - from => Shifted(items, from + i, shift))
  }

  /** The whole animation, in order, under its own indices. */
  function Animation(items: seq<Item>): seq<Frame> {
    Stretch(items, 0, Good(items), 0)
  }

  /** The cache holds the first `k` pictures, losslessly. */
  ghost predicate HoldsHead(c: Cache, items: seq<Item>, codec: Codec) {
    |c.frames| <= Good(items) && forall i :: 0 <= i < |c.frames| ==> c.frames[i] == Stored(Shifted(items, i, 0), codec)
  }

  /** The invariant of a player: what is cached, what is pending, and where the source stands. */
  ghost predicate Ready(p: Player, codec: Codec) {
    var k, n := |p.cache.frames|, Good(p.items);
    && HoldsHead(p.cache, p.items, codec)
    && (!p.exhausted ==> p.pos <= n && p.pos <= p.produced && p.produced >= k)
    && (p.pending.Some? ==> k < n && p.pending.value == Shifted(p.items, k, 0) && p.cursor <= k
                            && p.pos == k + 1 && p.produced == k + 1 && !p.exhausted)
    && (p.cursor > k ==> p.exhausted || p.cursor == p.produced)
    && (p.cursor <= k && p.pending.None? ==> p.exhausted || p.produced == k)
    && (!p.streaming ==> k == n && n == |p.items| && p.exhausted)
  }

  ghost predicate InRange(p: Player) {
    |p.cache.frames| <= Good(p.items) && (!p.exhausted ==> p.pos <= p.produced && p.pos <= Good(p.items))
  }

  /** What the cache still has to give. */
  function Head(p: Player): seq<Frame>
    requires InRange(p)
  {
    if p.cursor <= |p.cache.frames| then Stretch(p.items, p.cursor, |p.cache.frames|, 0) else []
  }

  /** What the container still has to give, under the indices it will hand out. */
  function Tail(p: Player): seq<Frame>
    requires InRange(p)
  {
    if p.exhausted then [] else Stretch(p.items, p.pos, Good(p.items), p.produced - p.pos)
  }

  /** The frames still to come. */
  function Rest(p: Player): seq<Frame>
    requires InRange(p)
  {
    Head(p) + (if p.pending.Some? then [p.pending.value] else []) + Tail(p)
  }

  /** Whether an undecodable frame waits behind them. */
  predicate Breaks(p: Player) {
    !p.exhausted && Good(p.items) < |p.items|
  }

  // ------------------------------------------------------------------ opening

  /** Some frames of the head are in the cache, nothing has been handed out yet. */
  ghost predicate Filling(p: Player, codec: Codec) {
    && HoldsHead(p.cache, p.items, codec) && p.pos == p.produced == |p.cache.frames|
    && p.pending.None? && p.cursor == 0 && !p.exhausted && !p.streaming
  }

  lemma {:induction false} FillReaches(p: Player, codec: Codec)
    requires Filling(p, codec)
    ensures var (q, r) := FillCache(p, codec);
            var n := Good(p.items);
            && q.items == p.items && q.cursor == 0 && q.frameCount == p.frameCount
            && (r.Ok? ==> Ready(q, codec)
                          && (q.streaming ==> q.pending.Some? && !q.exhausted)
                          && (!q.streaming ==> q.pending.None? && q.exhausted && q.produced == n))
            && (r.Err? ==> r.error == DecodeFailed && n < |p.items| && |q.cache.frames| == n)
    decreases |p.items| - p.pos
  {
    hide WellSized;
    var (q, pulled) := Pull(p);
    if p.pos < |p.items| && Decodes(p.items[p.pos]) {
      var frame := pulled.value.value;
      assert p.pos < Good(p.items);
      assert frame == Shifted(p.items, p.pos, 0);
      var (cache, fits) := Insert(q.cache, frame, codec);
      if fits { FillReaches(q.(cache := cache), codec); }
    }
  }

  // ------------------------------------------------------------------ what the cap lets in

  /** The first `k` pictures as the cache stores them. */
  function HeadOf(items: seq<Item>, k: nat, codec: Codec): (head: seq<Cached>)
    requires k <= Good(items)
    ensures |head| == k
  {
    if k == 0 then [] else HeadOf(items, k - 1, codec) + [Stored(Shifted(items, k - 1, 0), codec)]
  }

  /** The first `k` pictures fit into a cache of `cap` bytes, and their sizes into the counters. */
  predicate Fits(items: seq<Item>, k: nat, cap: nat, codec: Codec)
    requires k <= Good(items)
  {
    var head := HeadOf(items, k, codec);
    DataBytes(head) <= cap && DataBytes(head) <= USIZE_MAX && RawBytes(head) <= USIZE_MAX
  }

  lemma OnePictureMore(items: seq<Item>, k: nat, codec: Codec)
    requires k < Good(items)
    ensures var held := Stored(Shifted(items, k, 0), codec);
            && HeadOf(items, k + 1, codec) == HeadOf(items, k, codec) + [held]
            && DataBytes(HeadOf(items, k + 1, codec)) == DataBytes(HeadOf(items, k, codec)) + |held.data|
            && RawBytes(HeadOf(items, k + 1, codec)) == RawBytes(HeadOf(items, k, codec)) + held.rawLen
  {
    var head := HeadOf(items, k + 1, codec);
    assert head[..|head| - 1] == HeadOf(items, k, codec);
  }

  /** What fits, fits without its last pictures. */
  lemma {:induction false} LessFitsToo(items: seq<Item>, j: nat, k: nat, cap: nat, codec: Codec)
    requires j <= k <= Good(items) && Fits(items, k, cap, codec)
    ensures Fits(items, j, cap, codec)
    decreases k
  {
    if j < k {
      OnePictureMore(items, k - 1, codec);
      LessFitsToo(items, j, k - 1, cap, codec);
    }
  }

  /** The cache is an exactly accounted head that fits. */
  ghost predicate Packed(p: Player, codec: Codec) {
    var k := |p.cache.frames|;
    && k <= Good(p.items) && p.cache.frames == HeadOf(p.items, k, codec)
    && p.cache.storedBytes == DataBytes(p.cache.frames) && p.cache.rawBytes == RawBytes(p.cache.frames)
    && Fits(p.items, k, p.cache.capBytes, codec)
  }

  lemma InsertPacks(p: Player, codec: Codec)
    requires Packed(p, codec) && |p.cache.frames| < Good(p.items)
    ensures var k := |p.cache.frames|;
            var (cache, fits) := Insert(p.cache, Shifted(p.items, k, 0), codec);
            && (fits <==> Fits(p.items, k + 1, p.cache.capBytes, codec))
            && cache.capBytes == p.cache.capBytes && |cache.frames| == k + (if fits then 1 else 0)
            && Packed(p.(cache := cache), codec)
  {
    var k := |p.cache.frames|;
    OnePictureMore(p.items, k, codec);
    var head := HeadOf(p.items, k + 1, codec);
    assert head == p.cache.frames + [Stored(Shifted(p.items, k, 0), codec)];
  }

  /** Filling ends at the first picture that does not fit, at the end of the container, or at a broken frame before
      either. */
  lemma {:induction false} FillPacks(p: Player, codec: Codec)
    requires Filling(p, codec) && Packed(p, codec)
    ensures var (q, r) := FillCache(p, codec);
            var k, n := |q.cache.frames|, Good(p.items);
            && Packed(q, codec) && q.cache.capBytes == p.cache.capBytes && q.items == p.items
            && (q.streaming <==> k < n) && (k < n ==> !Fits(p.items, k + 1, p.cache.capBytes, codec))
            && (r.Err? <==> k == n && n < |p.items|)
    decreases |p.items| - p.pos
  {
    hide WellSized, HeadOf, Insert, Shifted;
    var (q, pulled) := Pull(p);
    if p.pos < |p.items| && Decodes(p.items[p.pos]) {
      PullPictureAt(p, codec);
      InsertPacks(p, codec);
      var (cache, fits) := Insert(q.cache, pulled.value.value, codec);
      if fits {
        FillKeepsFilling(p, codec);
        FillPacks(q.(cache := cache), codec);
      }
    }
  }

  lemma PullPictureAt(p: Player, codec: Codec)
    requires Filling(p, codec) && p.pos < |p.items| && Decodes(p.items[p.pos])
    ensures p.pos < Good(p.items) && Pull(p).1 == Ok(Some(Shifted(p.items, p.pos, 0)))
    ensures Pull(p).0 == p.(pos := p.pos + 1, produced := p.produced + 1)
  {
  }

  lemma FillKeepsFilling(p: Player, codec: Codec)
    requires Filling(p, codec) && p.pos < Good(p.items) && Insert(p.cache, Shifted(p.items, p.pos, 0), codec).1
    ensures var cache := Insert(p.cache, Shifted(p.items, p.pos, 0), codec).0;
            Filling(p.(pos := p.pos + 1, produced := p.produced + 1, cache := cache), codec)
  {
  }

  /** `head` is the first pictures, and more would not fit. */
  ghost predicate IsLongestHead(items: seq<Item>, cap: nat, codec: Codec, head: seq<Cached>) {
    && |head| <= Good(items) && head == HeadOf(items, |head|, codec)
    && (forall j :: 0 <= j <= Good(items) ==> (Fits(items, j, cap, codec) <==> j <= |head|))
  }

  /**
    What the cap decides: the cache ends up with the longest head of the animation that fits, and the player streams
    exactly if that is not all of it. Opening fails for a broken frame exactly when all pictures before it fit, so that
    the pre-cache comes to it; for lack of frames exactly when the container is empty; and otherwise succeeds.
   */
  lemma OpenKeepsTheLongestHead(items: seq<Item>, cap: nat, codec: Codec)
    ensures Open(items, cap, codec) == Err(DecodeFailed)
            <==> Good(items) < |items| && Fits(items, Good(items), cap, codec)
    ensures Open(items, cap, codec) == Err(NoFrames) <==> items == []
    ensures Open(items, cap, codec).Err? ==> Open(items, cap, codec).error in {DecodeFailed, NoFrames}
    ensures Open(items, cap, codec).Ok? ==>
              var p := Open(items, cap, codec).value;
              IsLongestHead(items, cap, codec, p.cache.frames) && (p.streaming <==> |p.cache.frames| < Good(items))
  {
    var start := Fresh(items, cap);
    assert Filling(start, codec) && Packed(start, codec) by { EmptyHead(items, cap, codec); }
    FillReaches(start, codec);
    FillPacks(start, codec);
    var q := FillCache(start, codec).0;
    hide FillCache, HoldsHead, HeadOf, Fits, Shifted, Filling, IsLongestHead, Good;
    LongestHead(items, |q.cache.frames|, cap, codec);
  }

  lemma LongestHead(items: seq<Item>, k: nat, cap: nat, codec: Codec)
    requires k <= Good(items) && Fits(items, k, cap, codec)
    requires k < Good(items) ==> !Fits(items, k + 1, cap, codec)
    ensures IsLongestHead(items, cap, codec, HeadOf(items, k, codec))
  {
    hide HeadOf, Fits, Good;
    forall j | 0 <= j <= Good(items) ensures Fits(items, j, cap, codec) <==> j <= k {
      if j <= k {
        LessFitsToo(items, j, k, cap, codec);
      } else if Fits(items, j, cap, codec) {
        LessFitsToo(items, k + 1, j, cap, codec);
      }
    }
  }

  // ------------------------------------------------------------------ one step

  lemma HeadReads(c: Cache, items: seq<Item>, codec: Codec, index: nat)
    requires Lossless(codec) && HoldsHead(c, items, codec)
    ensures Get(c, index, codec) == if index < |c.frames| then Ok(Some(Shifted(items, index, 0))) else Ok(None)
  {
    var at := Find(c.frames, index);
    assert forall i :: 0 <= i < |c.frames| ==> c.frames[i].index == i;
    if index < |c.frames| {
      assert c.frames[index].index == index;
      assert c.frames[at] == Stored(Shifted(items, index, 0), codec);
    }
  }

  lemma StretchStep(items: seq<Item>, from: nat, to: nat, shift: nat)
    requires from < to <= Good(items)
    ensures Stretch(items, from, to, shift) == [Shifted(items, from, shift)] + Stretch(items, from + 1, to, shift)
  {
  }

  /** `q`, and the answer `r`, after a call on `p`. */
  ghost predicate Advances(p: Player, q: Player, r: Result<Option<Frame>, Failure>, codec: Codec)
    requires InRange(p)
  {
    && Ready(q, codec) && q.items == p.items && q.cache == p.cache && q.streaming == p.streaming
        && q.frameCount == p.frameCount
    && InRange(q)
    && match r
       case Ok(Some(frame)) => Rest(p) == [frame] + Rest(q) && Breaks(q) == Breaks(p)
       case Ok(None) => Rest(p) == Rest(q) == [] && !Breaks(p) && !Breaks(q)
       case Err(e) => Rest(p) == Rest(q) == [] && Breaks(p) && !Breaks(q) && e == DecodeFailed
  }

  lemma Prepend(frame: Frame, a: seq<Frame>, b: seq<Frame>, c: seq<Frame>)
    ensures [frame] + a + b + c == [frame] + (a + b + c)
    ensures [] + [frame] + c == [frame] + ([] + [] + c)
    ensures [] + [] + ([frame] + c) == [frame] + ([] + [] + c)
  {
  }

  /** A call hands out the first frame still to come; when none is left it reports a broken frame once, then the end. */
  lemma NextGives(p: Player, codec: Codec)
    requires Lossless(codec) && Ready(p, codec)
    ensures InRange(p) && Advances(p, Next(p, codec).0, Next(p, codec).1, codec)
  {
    hide WellSized, Get, Lossless, Pull, HoldsHead, Advances, Rest, Breaks, Stretch;
    HeadInRange(p.cache, p.items, codec);
    HeadReads(p.cache, p.items, codec, p.cursor);
    if p.cursor < |p.cache.frames| {
      CacheGives(p, codec);
    } else if p.pending.Some? {
      PendingGives(p, codec);
    } else {
      PullGives(p, codec);
    }
  }

  lemma CacheGives(p: Player, codec: Codec)
    requires Ready(p, codec) && p.cursor < |p.cache.frames| <= Good(p.items)
    ensures InRange(p)
    ensures Advances(p, p.(cursor := p.cursor + 1), Ok(Some(Shifted(p.items, p.cursor, 0))), codec)
  {
    hide Good, Shifted, Stretch, HoldsHead;
    StretchStep(p.items, p.cursor, |p.cache.frames|, 0);
    var q := p.(cursor := p.cursor + 1);
    Prepend(Shifted(p.items, p.cursor, 0), Head(q), if p.pending.Some? then [p.pending.value] else [], Tail(p));
  }

  lemma PendingGives(p: Player, codec: Codec)
    requires Ready(p, codec) && p.pending.Some? && p.cursor >= |p.cache.frames|
    ensures InRange(p) && p.pending.value.index == p.cursor
    ensures Advances(p, p.(pending := None, cursor := p.cursor + 1), Ok(p.pending), codec)
  {
    HeadInRange(p.cache, p.items, codec);
    hide Good, Shifted, Stretch, HoldsHead;
    Prepend(p.pending.value, [], [], Tail(p));
  }

  lemma ReadyInRange(p: Player, codec: Codec)
    requires Ready(p, codec)
    ensures InRange(p)
  {
  }

  lemma HeadInRange(c: Cache, items: seq<Item>, codec: Codec)
    requires HoldsHead(c, items, codec)
    ensures |c.frames| <= Good(items)
  {
  }

  lemma PullGives(p: Player, codec: Codec)
    requires Ready(p, codec) && p.pending.None? && p.cursor >= |p.cache.frames|
    ensures InRange(p)
    ensures match Pull(p).1
            case Ok(Some(frame)) => Advances(p, Pull(p).0.(cursor := frame.index + 1), Pull(p).1, codec)
            case _ => Advances(p, Pull(p).0, Pull(p).1, codec)
  {
    ReadyInRange(p, codec);
    hide Advances, Ready, InRange, Head, Tail, Rest, Decodes, Pull, Good, Shifted, Stretch, Breaks;
    if !p.exhausted && p.pos < Good(p.items) {
      PullsFrame(p, codec);
    } else {
      PullsNothing(p, codec);
    }
  }

  /** The player after a picture of the container has been pulled and handed out. */
  function AfterPull(p: Player): Player {
    p.(pos := p.pos + 1, produced := p.produced + 1, cursor := p.produced + 1)
  }

  lemma PullsFrame(p: Player, codec: Codec)
    requires Ready(p, codec) && p.pending.None? && p.cursor >= |p.cache.frames| && InRange(p)
    requires !p.exhausted && p.pos < Good(p.items)
    ensures var frame := Shifted(p.items, p.pos, p.produced - p.pos);
            && frame.index == p.produced && Pull(p) == (AfterPull(p).(cursor := p.cursor), Ok(Some(frame)))
            && Advances(p, AfterPull(p), Ok(Some(frame)), codec)
  {
    PullPicture(p);
    AfterPullReady(p, codec);
    AfterPullTail(p);
    RestBehind(p, codec);
    RestBehind(AfterPull(p), codec);
    hide Ready, Head, Tail, Rest, Pull, Good, Shifted, Stretch;
  }

  lemma PullPicture(p: Player)
    requires InRange(p) && !p.exhausted && p.pos < Good(p.items)
    ensures var frame := Shifted(p.items, p.pos, p.produced - p.pos);
            frame.index == p.produced && Pull(p) == (AfterPull(p).(cursor := p.cursor), Ok(Some(frame)))
  {
  }

  lemma AfterPullReady(p: Player, codec: Codec)
    requires Ready(p, codec) && p.pending.None? && p.cursor >= |p.cache.frames| && !p.exhausted && p.pos < Good(p.items)
    ensures Ready(AfterPull(p), codec) && InRange(AfterPull(p))
  {
    HeadInRange(p.cache, p.items, codec);
    hide HoldsHead, Good, Shifted;
  }

  lemma AfterPullTail(p: Player)
    requires InRange(p) && !p.exhausted && p.pos < Good(p.items)
    ensures InRange(AfterPull(p)) && Tail(p) == [Shifted(p.items, p.pos, p.produced - p.pos)] + Tail(AfterPull(p))
  {
    hide Good, Stretch, Shifted;
    StretchStep(p.items, p.pos, Good(p.items), p.produced - p.pos);
  }

  /** Past the cached head, only the container is left. */
  lemma RestBehind(p: Player, codec: Codec)
    requires InRange(p) && p.pending.None? && p.cursor >= |p.cache.frames|
    ensures Rest(p) == Tail(p)
  {
    hide Stretch;
    assert Head(p) == [];
  }

  lemma PullsNothing(p: Player, codec: Codec)
    requires Ready(p, codec) && p.pending.None? && p.cursor >= |p.cache.frames| && InRange(p)
    requires p.exhausted || p.pos >= Good(p.items)
    ensures Pull(p).1 == (if Breaks(p) then Err(DecodeFailed) else Ok(None)) && Advances(p, Pull(p).0, Pull(p).1, codec)
  {
    hide Stretch, HoldsHead, Decodes, Shifted;
  }

  // ------------------------------------------------------------------ whole passes

  /** The answers of the next `m` calls. */
  function Answers(p: Player, m: nat, codec: Codec): seq<Result<Option<Frame>, Failure>>
    decreases m
  {
    if m == 0 then []
    else var (q, r) := Next(p, codec); [r] + Answers(q, m - 1, codec)
  }

  /** What `m` calls answer when `frames` are still to come, with or without a broken frame behind them. */
  function Script(frames: seq<Frame>, breaks: bool, m: nat): seq<Result<Option<Frame>, Failure>> {
    seq(m, i requires 0 <= i < m =>
      if i < |frames| then Ok(Some(frames[i])) else if i == |frames| && breaks then Err(DecodeFailed) else Ok(None))
  }

  lemma {:induction false} AnswersFollowScript(p: Player, m: nat, codec: Codec)
    requires Lossless(codec) && Ready(p, codec)
    ensures InRange(p) && Answers(p, m, codec) == Script(Rest(p), Breaks(p), m)
    decreases m
  {
    hide Lossless, Next, Ready, Rest, Breaks;
    NextGives(p, codec);
    if m > 0 {
      var (q, r) := Next(p, codec);
      AnswersFollowScript(q, m - 1, codec);
      ScriptStep(Rest(p), Rest(q), Breaks(p), Breaks(q), r, m);
    }
  }

  lemma ScriptStep(now: seq<Frame>, next: seq<Frame>, breaks: bool, breaks': bool, r: Result<Option<Frame>, Failure>,
                   m: nat)
    requires m > 0
    requires match r
             case Ok(Some(frame)) => now == [frame] + next && breaks' == breaks
             case Ok(None) => now == next == [] && !breaks && !breaks'
             case Err(e) => now == next == [] && breaks && !breaks' && e == DecodeFailed
    ensures Script(now, breaks, m) == [r] + Script(next, breaks', m - 1)
  {
  }

  /** A cached frame that cannot be read back stops playback where it is: every call reports it. */
  lemma {:induction false} UnreadableFrameBlocks(p: Player, m: nat, codec: Codec)
    requires Get(p.cache, p.cursor, codec).Err?
    ensures |Answers(p, m, codec)| == m && forall i :: 0 <= i < m ==> Answers(p, m, codec)[i] == Err(CacheFailed)
  {
    if m > 0 {
      UnreadableFrameBlocks(p, m - 1, codec);
    }
  }

  lemma StretchJoin(items: seq<Item>, a: nat, b: nat, c: nat, shift: nat)
    requires a <= b <= c <= Good(items)
    ensures Stretch(items, a, b, shift) + Stretch(items, b, c, shift) == Stretch(items, a, c, shift)
  {
  }

  /** Ordered playback for any cap: opening succeeds exactly when the container is not empty and, if it breaks, the
      pictures before the break do not all fit; then any number of calls hands out the container's frames 0, 1, ... once
      each with their own contents, then a broken frame's error once, then the end. The frame count is known exactly in
      cached mode. */
  lemma {:induction false} FirstPassIsTheAnimation(items: seq<Item>, cap: nat, codec: Codec, m: nat)
    requires Lossless(codec)
    ensures Open(items, cap, codec).Ok? ==>
              var p := Open(items, cap, codec).value;
              && Ready(p, codec) && p.items == items && Good(items) > 0
              && Answers(p, m, codec) == Script(Animation(items), Good(items) < |items|, m)
              && p.frameCount == (if p.streaming then None else Some(Good(items)))
    ensures Open(items, cap, codec).Err? ==>
              var e := Open(items, cap, codec).error;
              (e == NoFrames && items == []) || (e == DecodeFailed && Good(items) < |items|)
    ensures Open(items, cap, codec).Ok? <==>
              items != [] && (Good(items) < |items| ==> !Fits(items, Good(items), cap, codec))
  {
    OpenKeepsTheLongestHead(items, cap, codec);
    hide HeadOf, Fits;
    hide Lossless, Stretch, Answers, HoldsHead, Script, Shifted, FillCache;
    assert Filling(Fresh(items, cap), codec) by { EmptyHead(items, cap, codec); }
    FillReaches(Fresh(items, cap), codec);
    var (filled, _) := FillCache(Fresh(items, cap), codec);
    var start := Open(items, cap, codec);
    if start.Ok? {
      var p := start.value;
      var k, n := |p.cache.frames|, Good(items);
      AnswersFollowScript(p, m, codec);
      if p.streaming {
        StretchStep(items, k, n, 0);
        StretchJoin(items, 0, k, n, 0);
        assert Rest(p) == Stretch(items, 0, k, 0) + ([Shifted(items, k, 0)] + Stretch(items, k + 1, n, 0));
      } else {
        assert Rest(p) == Stretch(items, 0, n, 0);
      }
    } else if start.error == NoFrames {
      assert Ready(filled, codec) && !filled.streaming;
      assert |items| == 0;
    }
  }

  lemma EmptyHead(items: seq<Item>, cap: nat, codec: Codec)
    ensures HoldsHead(NewCache(cap), items, codec)
  {
  }

  /** What a rewound player is going to hand out: exactly the cached head, and then, in streaming mode, the whole
      container once more under indices that start at the cache's length. */
  function Replay(p: Player): seq<Frame>
    requires |p.cache.frames| <= Good(p.items)
  {
    Stretch(p.items, 0, |p.cache.frames|, 0)
    + (if p.streaming then Stretch(p.items, 0, Good(p.items), |p.cache.frames|) else [])
  }

  /** After `rewind`, from whatever point of whatever pass. */
  lemma {:induction false} RewoundPass(p: Player, codec: Codec, m: nat)
    requires Lossless(codec) && Ready(p, codec)
    ensures |p.cache.frames| <= Good(p.items) && Ready(Rewind(p), codec)
    ensures Answers(Rewind(p), m, codec) == Script(Replay(p), p.streaming && Good(p.items) < |p.items|, m)
  {
    hide Lossless, Stretch, Answers, HoldsHead, Script;
    HeadInRange(p.cache, p.items, codec);
    var q := Rewind(p);
    AnswersFollowScript(q, m, codec);
    assert Rest(q) == Replay(p);
  }

  /** A rewound pass replays the animation exactly when everything is cached or nothing is. */
  lemma {:induction false} ExactReplay(p: Player, codec: Codec)
    requires Lossless(codec) && Ready(p, codec)
    ensures (forall m: nat ::
              Answers(Rewind(p), m, codec) == Script(Animation(p.items), p.streaming && Good(p.items) < |p.items|, m))
            <==> !p.streaming || p.cache.frames == []
  {
    hide Lossless, Stretch, Answers, HoldsHead;
    HeadInRange(p.cache, p.items, codec);
    var k, n := |p.cache.frames|, Good(p.items);
    var breaks := p.streaming && n < |p.items|;
    if !p.streaming || k == 0 {
      assert Replay(p) == Animation(p.items);
      forall m: nat ensures Answers(Rewind(p), m, codec) == Script(Animation(p.items), breaks, m) {
        RewoundPass(p, codec, m);
      }
    } else {
      RewoundPass(p, codec, n + 1);
      assert Script(Replay(p), breaks, n + 1)[n] == Ok(Some(Replay(p)[n]));
      assert Script(Animation(p.items), breaks, n + 1)[n] != Script(Replay(p), breaks, n + 1)[n];
    }
  }

  /** No compression. */
  function Plain(): Codec {
    Codec(pixels => pixels, (data, n) => if |data| == n then Some(data) else None)
  }

  /** Of two pictures the cache has room for the first alone. */
  predicate OnlyFirstFits(a: Item, b: Item, cap: nat, codec: Codec)
    requires Decodes(a) && Decodes(b)
  {
    && |a.pixels| <= USIZE_MAX
    && |codec.encode(a.pixels)| <= cap < |codec.encode(a.pixels)| + |codec.encode(b.pixels)| && cap <= USIZE_MAX
  }

  lemma TwoAreGood(a: Item, b: Item)
    requires Decodes(a) && Decodes(b)
    ensures var items := [a, b];
            && Good(items) == |items| == 2 && Animation(items) == [Pictured(a, 0), Pictured(b, 1)]
            && forall shift: nat :: Shifted(items, 0, shift) == Pictured(a, shift)
                                    && Shifted(items, 1, shift) == Pictured(b, shift + 1)
  {
    hide WellSized;
    var items := [a, b];
    assert items[1..] == [b] && items[1..][1..] == [];
    assert Good(items[1..]) == 1 && Good(items) == 2;
  }

  lemma OneOfTwoFits(a: Item, b: Item, cap: nat, codec: Codec)
    requires Decodes(a) && Decodes(b) && OnlyFirstFits(a, b, cap, codec)
    ensures var items := [a, b];
            Good(items) == 2 && Fits(items, 1, cap, codec) && !Fits(items, 2, cap, codec)
  {
    hide WellSized, Good;
    TwoAreGood(a, b);
    OnePictureMore([a, b], 0, codec);
    OnePictureMore([a, b], 1, codec);
  }

  /**
    A partly cached animation replays wrongly, whatever the compression: of two pictures of which only the first fits
    into the cache, the first is handed out twice after a rewind, and the second under an index that the animation does
    not have.
   */
  lemma PartlyCachedReplayIsWrong(a: Item, b: Item, cap: nat, codec: Codec)
    requires Lossless(codec) && Decodes(a) && Decodes(b) && OnlyFirstFits(a, b, cap, codec)
    ensures Open([a, b], cap, codec).Ok?
    ensures var p := Open([a, b], cap, codec).value;
            && Ready(p, codec) && p.streaming && |p.cache.frames| == 1
            && Answers(p, 3, codec) == [Ok(Some(Pictured(a, 0))), Ok(Some(Pictured(b, 1))), Ok(None)]
            && Answers(Rewind(p), 4, codec)
               == [Ok(Some(Pictured(a, 0))), Ok(Some(Pictured(a, 1))), Ok(Some(Pictured(b, 2))), Ok(None)]
  {
    TwoAreGood(a, b);
    OneOfTwoFits(a, b, cap, codec);
    var items := [a, b];
    hide Open, Answers, HeadOf, Fits, Rewind, Good, Shifted, Decodes, Lossless, Animation, Ready, Script, OnlyFirstFits;
    OpenKeepsTheLongestHead(items, cap, codec);
    FirstPassIsTheAnimation(items, cap, codec, 3);
    var p := Open(items, cap, codec).value;
    ScriptOfTwo(Pictured(a, 0), Pictured(b, 1));
    ReplayOfTwo(p, a, b, codec);
  }

  lemma ScriptOfTwo(x: Frame, y: Frame)
    ensures Script([x, y], false, 3) == [Ok(Some(x)), Ok(Some(y)), Ok(None)]
  {
  }

  lemma ScriptOfThree(x: Frame, y: Frame, z: Frame)
    ensures Script([x, y, z], false, 4) == [Ok(Some(x)), Ok(Some(y)), Ok(Some(z)), Ok(None)]
  {
  }

  lemma ReplayOfTwo(p: Player, a: Item, b: Item, codec: Codec)
    requires Lossless(codec) && Decodes(a) && Decodes(b) && p.items == [a, b]
    requires Ready(p, codec) && p.streaming && |p.cache.frames| == 1
    ensures Answers(Rewind(p), 4, codec)
            == [Ok(Some(Pictured(a, 0))), Ok(Some(Pictured(a, 1))), Ok(Some(Pictured(b, 2))), Ok(None)]
  {
    TwoAreGood(a, b);
    hide Answers, Rewind, Good, Shifted, Decodes, Lossless, Ready, Script;
    RewoundPass(p, codec, 4);
    var x, y, z := Pictured(a, 0), Pictured(a, 1), Pictured(b, 2);
    assert Replay(p) == [x, y, z];
    ScriptOfThree(x, y, z);
  }

  /** What two pictures of 512 by 512 answer after a rewind, without compression and with one mebibyte of cache, which
      is the least that can be configured. */
  lemma OneMebibyteReplaysWrongly(x: Pixels, y: Pixels, delay: nat)
    requires |x| == |y| == 512 * 512 * 4
    ensures var a, b, cap := Picture(512, 512, delay, x), Picture(512, 512, delay, y), 1 * 1024 * 1024;
            && Lossless(Plain()) && Open([a, b], cap, Plain()).Ok?
            && Answers(Rewind(Open([a, b], cap, Plain()).value), 4, Plain())
               == [Ok(Some(Frame(0, 512, 512, delay, x))), Ok(Some(Frame(1, 512, 512, delay, x))),
                   Ok(Some(Frame(2, 512, 512, delay, y))), Ok(None)]
  {
    hide Open, Answers, Rewind, Fits, Good;
    PlainIsLossless();
    PartlyCachedReplayIsWrong(Picture(512, 512, delay, x), Picture(512, 512, delay, y), 1024 * 1024, Plain());
  }

  lemma PlainIsLossless()
    ensures Lossless(Plain())
  {
  }
}
