/**
  The fixed ring of buffer slots behind one output surface: which slot a frame is written to,
  and what happens to the ring when any step of an upload fails.
  (crates/owe-render/src/surface.rs, `OutputSurface`, `acquire_slot`, `upload`)
 */
module SurfaceSlots {
  import opened Prelude

  /** A slot is empty, holds a buffer the compositor has released, or one it is still reading. */
  datatype Slot = Empty | Free(size: Size) | Held(size: Size)

  datatype PresentError = UnknownOutput | Busy | FrameSize | Wayland | NotRunning

  /** What the compositor and the allocator do during one upload. */
  datatype UploadEnv = UploadEnv(
    allocOk: bool,        // a new buffer could be created
    late: Option<nat>,    // slot released while `acquire_slot` sleeps and retries
    attachOk: bool,       // the buffer could be attached
    flushOk: bool)        // the connection could be flushed

  /** The value of one output surface. */
  datatype SurfaceView = SurfaceView(surfaceId: nat, size: Option<Size>, buffers: seq<Slot>, nextSlot: nat)

  predicate Usable(slot: Slot) {
    !slot.Held?
  }

  /** The slot inspected after `k` steps of the round-robin pass. */
  function SlotAt(next: nat, k: nat, count: nat): (slot: nat)
    requires count > 0
    ensures slot < count
  {
    (next + k) % count
  }

  /** How many slots the pass rejects, counting from step `k`; `|buffers|` when it rejects them all. */
  function FirstUsable(buffers: seq<Slot>, next: nat, k: nat): (found: nat)
    requires k <= |buffers|
    ensures k <= found <= |buffers|
    ensures found < |buffers| ==> Usable(buffers[SlotAt(next, found, |buffers|)])
    ensures forall i :: k <= i < found ==> !Usable(buffers[SlotAt(next, i, |buffers|)])
    decreases |buffers| - k
  {
    if k == |buffers| then k
    else if Usable(buffers[SlotAt(next, k, |buffers|)]) then k
    else FirstUsable(buffers, next, k + 1)
  }

  /** `acquire_slot`: one round-robin pass, then the retry tail. */
  function Acquire(v: SurfaceView, frame: Size, env: UploadEnv): (SurfaceView, Result<nat, PresentError>) {
    var count := |v.buffers|;
    var k := FirstUsable(v.buffers, v.nextSlot, 0);
    if k == count then
      var w := v.(nextSlot := v.nextSlot + count);
      if env.late.Some? && env.late.value < count then
        var slot := env.late.value;
        (w.(buffers := w.buffers[slot := Free(SizeOf(w.buffers[slot], frame))]), Ok(slot))
      else
        (w, Err(Busy))
    else
      var slot := SlotAt(v.nextSlot, k, count);
      var w := v.(nextSlot := v.nextSlot + k + 1);
      if v.buffers[slot].Empty? then
        if env.allocOk then (w.(buffers := w.buffers[slot := Free(frame)]), Ok(slot)) else (w, Err(Wayland))
      else
        (w, Ok(slot))
  }

  function SizeOf(slot: Slot, default: Size): Size {
    if slot.Empty? then default else slot.size
  }

  function Bytes(size: Size): nat {
    size.width * 4 * size.height
  }

  /** `upload`: acquire, take the buffer out, write, attach, commit, put it back, flush.
      The last component says whether a commit reached the compositor. */
  function Upload(v: SurfaceView, frame: Size, env: UploadEnv): (SurfaceView, Result<(), PresentError>, bool) {
    var (w, acquired) := Acquire(v, frame, env);
    match acquired
    case Err(e) => (w, Err(e), false)
    case Ok(slot) =>
      if slot >= |w.buffers| || w.buffers[slot].Empty? then (w, Err(Wayland), false)
      else
        var taken := w.(buffers := w.buffers[slot := Empty]);
        if w.buffers[slot].Held? then (taken, Err(Busy), false)
        else if Bytes(w.buffers[slot].size) < Bytes(frame) then (taken, Err(FrameSize), false)
        else if !env.attachOk then (taken, Err(Wayland), false)
        else
          var done := w.(buffers := w.buffers[slot := Held(w.buffers[slot].size)]);
          if env.flushOk then (done, Ok(()), true) else (done, Err(Wayland), true)
  }

  /** Every buffer in the ring was allocated at the size the compositor configured. */
  ghost predicate SizedRing(v: SurfaceView) {
    forall i :: 0 <= i < |v.buffers| && !v.buffers[i].Empty? ==> v.size == Some(v.buffers[i].size)
  }

  // ------------------------------------------------------------------ lemmas

  /** The pass reaches slot `j` after exactly one number of steps below `count`. */
  lemma {:induction false} PassReaches(next: nat, count: nat, j: nat) returns (k: nat)
    requires j < count
    ensures k < count && SlotAt(next, k, count) == j
    ensures forall i: nat :: i < count && SlotAt(next, i, count) == j ==> i == k
  {
    var r, q := next % count, next / count;
    k := if r <= j then j - r else j + count - r;
    var z := (next + k) / count;
    SameResidue(q, z, count, r + k - (next + k) % count);
    forall i: nat | i < count && SlotAt(next, i, count) == j ensures i == k {
      SameResidue(q, (next + i) / count, count, r + i - j);
    }
  }

  /** Two multiples of `count` that differ by less than two of it are equal or adjacent. */
  lemma {:induction false} SameResidue(q: int, z: int, count: int, d: int)
    requires count > 0 && z * count == q * count + d && -count < d < 2 * count
    ensures d == 0 || d == count
  {
    var e := z - q;
    assert e * count == d;
    assert e >= 2 ==> (e - 2) * count >= 0;
    assert e <= -1 ==> (e + 1) * count <= 0;
  }

  /** The round-robin pass is complete: it fails exactly when the compositor holds every slot. */
  lemma {:induction false} PassIsComplete(buffers: seq<Slot>, next: nat)
    ensures FirstUsable(buffers, next, 0) == |buffers| <==> forall j :: 0 <= j < |buffers| ==> buffers[j].Held?
  {
    if FirstUsable(buffers, next, 0) == |buffers| {
      forall j | 0 <= j < |buffers| ensures buffers[j].Held? {
        var k := PassReaches(next, |buffers|, j);
      }
    }
  }

  /** A usable slot is always found, whatever the cursor, as soon as one slot is empty or released and
      allocation works; the slot handed out then holds a released buffer; no other slot changes. */
  lemma {:induction false} AcquireFindsUsable(v: SurfaceView, frame: Size, env: UploadEnv)
    requires exists j :: 0 <= j < |v.buffers| && Usable(v.buffers[j])
    ensures var (w, r) := Acquire(v, frame, env);
            && (env.allocOk ==> r.Ok?)
            && (r.Err? ==> r == Err(Wayland) && w.buffers == v.buffers)
            && (r.Ok? ==> r.value < |v.buffers| && Usable(v.buffers[r.value]) && w.buffers[r.value].Free?
                          && forall i :: 0 <= i < |v.buffers| && i != r.value ==> w.buffers[i] == v.buffers[i])
  {
    PassIsComplete(v.buffers, v.nextSlot);
  }

  /** The ring is used in turn: the slot handed out by a pass is the last one that the next pass comes to, so no usable
      slot is passed over for one that was used later. */
  lemma {:induction false} UsedSlotComesLast(v: SurfaceView, frame: Size, env: UploadEnv)
    requires exists j :: 0 <= j < |v.buffers| && Usable(v.buffers[j])
    ensures var (w, r) := Acquire(v, frame, env);
            && w.nextSlot > v.nextSlot
            && (r.Ok? ==> r.value < |v.buffers| && SlotAt(w.nextSlot, |v.buffers| - 1, |v.buffers|) == r.value)
  {
    PassIsComplete(v.buffers, v.nextSlot);
    var count, k := |v.buffers|, FirstUsable(v.buffers, v.nextSlot, 0);
    AroundOnce(v.nextSlot + k, count);
  }

  lemma AroundOnce(at: nat, count: nat)
    requires count > 0
    ensures SlotAt(at + 1, count - 1, count) == SlotAt(at, 0, count)
  {
    assert at + 1 + (count - 1) == at + count;
    SameResidue(at / count, (at + count) / count, count, count + at % count - (at + count) % count);
  }

  /** When the compositor holds every slot, nothing is allocated: the call answers Busy or hands out a slot
      that was released during the retry tail. */
  lemma {:induction false} AcquireWhenAllHeld(v: SurfaceView, frame: Size, env: UploadEnv)
    requires forall j :: 0 <= j < |v.buffers| ==> v.buffers[j].Held?
    ensures var (w, r) := Acquire(v, frame, env);
            && (r.Ok? <==> env.late.Some? && env.late.value < |v.buffers|)
            && (r.Err? ==> r == Err(Busy) && w.buffers == v.buffers)
            && w.nextSlot == v.nextSlot + |v.buffers|
  {
    PassIsComplete(v.buffers, v.nextSlot);
  }

  /** Whatever fails, the ring keeps its slot count, its identity, its configured size and correctly sized
      buffers; the branches for a vanished or undersized buffer are never taken; a commit puts the frame in
      a buffer of exactly its own size, and success implies a commit; a buffer that cannot be attached is lost to
      its slot. */
  lemma {:induction false} UploadKeepsRing(v: SurfaceView, frame: Size, env: UploadEnv)
    requires SizedRing(v) && v.size == Some(frame)
    ensures var (w, r, committed) := Upload(v, frame, env);
            && w.surfaceId == v.surfaceId && w.size == v.size && |w.buffers| == |v.buffers|
            && SizedRing(w)
            && (committed <==> Acquire(v, frame, env).1.Ok? && env.attachOk)
            && (r.Ok? <==> committed && env.flushOk)
            && (committed ==> var slot := Acquire(v, frame, env).1.value;
                              slot < |v.buffers| && w.buffers[slot] == Held(frame)
                              && (Usable(v.buffers[slot]) || env.late == Some(slot))
                              && forall i :: 0 <= i < |v.buffers| && i != slot ==> w.buffers[i] == v.buffers[i])
            && (r.Err? ==> r.error in {Busy, Wayland})
            && (Acquire(v, frame, env).1.Ok? && !env.attachOk ==> var slot := Acquire(v, frame, env).1.value;
                  slot < |v.buffers| && w.buffers[slot].Empty?
                  && forall i :: 0 <= i < |v.buffers| && i != slot ==> w.buffers[i] == v.buffers[i])
            && (r == Err(Busy) ==> w.buffers == v.buffers && forall j :: 0 <= j < |v.buffers| ==> v.buffers[j].Held?)
  {
    PassIsComplete(v.buffers, v.nextSlot);
    var (a, acquired) := Acquire(v, frame, env);
    assert SizedRing(a);
    if acquired.Ok? {
      assert a.buffers[acquired.value] == Free(frame);
    }
  }
}
