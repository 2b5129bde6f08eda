/** The animated decoder as an object over its cache; every method is proved to take the model's step. */
module AnimatedDecoder {
  import opened Prelude
  import Cache = FrameCache
  import opened AnimatedModel

  class AnimatedDecoder {
    const items: seq<Item>
    const cache: Cache.FrameCache
    var pos: nat
    var pending: Option<Cache.Frame>
    var produced: nat
    var cursor: nat
    var exhausted: bool
    var streaming: bool
    var frameCount: Option<nat>

    function View(): Player
      reads this, cache
    {
      Player(items, pos, cache.View(), pending, produced, cursor, exhausted, streaming, frameCount)
    }

    /** The decoder as `open` builds it, before the pre-cache runs. */
    constructor (items: seq<Item>, cap: nat, codec: Cache.Codec)
      ensures View() == Fresh(items, cap) && fresh(cache) && cache.codec == codec
    {
      this.items := items;
      cache := new Cache.FrameCache(cap, codec);
      pos, pending, produced, cursor := 0, None, 0, 0;
      exhausted, streaming, frameCount := false, false, None;
    }

    /** One more frame out of the container, numbered as the next one produced. */
    method PullFrame() returns (r: Result<Option<Cache.Frame>, Failure>)
      modifies this`pos, this`produced, this`exhausted
      ensures View() == Pull(old(View())).0 && r == Pull(old(View())).1
    {
      if exhausted {
        return Ok(None);
      }
      if pos >= |items| {
        exhausted := true;
        return Ok(None);
      }
      var item := items[pos];
      pos := pos + 1;
      if !Decodes(item) {
        exhausted := true;
        return Err(DecodeFailed);
      }
      var frame := Pictured(item, produced);
      produced := produced + 1;
      return Ok(Some(frame));
    }

    /** Cache frame after frame until one is refused, which is then held back, or the container ends. */
    method PreCache() returns (r: Result<(), Failure>)
      modifies this, cache
      ensures var filled := FillCache(old(View()), cache.codec);
              && r == filled.1
              && View() == if r.Ok? && filled.0.exhausted then filled.0.(frameCount := Some(filled.0.produced))
                           else filled.0
    {
      ghost var whole := FillCache(View(), cache.codec);
      while true
        invariant FillCache(View(), cache.codec) == whole
        decreases |items| - pos, if exhausted then 0 else 1
      {
        var pulled := PullFrame();
        if pulled.Err? {
          return Err(pulled.error);
        }
        if pulled.value.None? {
          break;
        }
        var stored := cache.Put(pulled.value.value);
        if !stored {
          streaming, pending := true, pulled.value;
          break;
        }
      }
      assert View() == whole.0;
      if exhausted {
        frameCount := Some(produced);
      }
      return Ok(());
    }

    method NextFrame() returns (r: Result<Option<Cache.Frame>, Failure>)
      modifies this
      ensures View() == Next(old(View()), cache.codec).0 && r == Next(old(View()), cache.codec).1
    {
      var cached := cache.Read(cursor);
      if cached.Err? {
        return Err(CacheFailed);
      }
      if cached.value.Some? {
        cursor := cursor + 1;
        return Ok(cached.value);
      }
      if pending.Some? && pending.value.index == cursor {
        r := Ok(pending);
        pending, cursor := None, cursor + 1;
        return;
      }
      r := PullFrame();
      if r.Ok? && r.value.Some? {
        cursor := r.value.value.index + 1;
      }
    }

    /** Start the container over. */
    method RewindTo()
      modifies this
      ensures View() == Rewind(old(View()))
    {
      pos, pending := 0, None;
      produced, cursor := |cache.frames|, 0;
      exhausted := !streaming;
    }
  }

  /** `AnimatedImageDecoder::open`. */
  method OpenAnimation(items: seq<Item>, cap: nat, codec: Cache.Codec)
    returns (decoder: AnimatedDecoder, r: Result<(), Failure>)
    ensures fresh(decoder) && fresh(decoder.cache) && decoder.cache.codec == codec
    ensures match Open(items, cap, codec)
            case Ok(p) => r.Ok? && decoder.View() == p
            case Err(e) => r == Err(e)
  {
    decoder := new AnimatedDecoder(items, cap, codec);
    r := decoder.PreCache();
    if r.Ok? && decoder.produced == 0 && decoder.cache.frames == [] {
      r := Err(NoFrames);
    }
  }
}
