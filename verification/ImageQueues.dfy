/**
 * The received images of one instance: recycled buffers between the decoder
 * callbacks and the main loop (src/event.cc:59-126, `OnFrame` in
 * inc/bres+client_webrtc_inl.hh:328-379, the collect pass in src/main.cc:72-79).
 */
module ImageQueues {
  import opened Buffers
  import opened BufferLoop
  import opened Wrappers

  const IMAGE_BYTES: nat := 640 * 360 * 4
  const BUFFERS: nat := 30

  datatype EventType = EmptyImage | CurrentImage | OtherEvent

  /** A slot of `pooled_instances`; `inUse` as long as its `instance_enum` is not
      INSTANCE_MIN. */
  class Instance {
    var inUse: bool
    var eventsImageEmpty: seq<Buffer>
    var eventsImageCurrent: seq<Buffer>
    var lastTextureBuffer: Picture
    ghost var pool: seq<Buffer>

    ghost predicate Valid()
      reads this, pool
    {
      && Numbered(pool) && From(eventsImageEmpty, pool) && From(eventsImageCurrent, pool)
      && (forall i :: 0 <= i < |pool| ==> |pool[i].bytes| == IMAGE_BYTES)
    }

    ghost function View(): Queues
      reads this, pool
    {
      Queues(Memory(pool), Ids(eventsImageEmpty), Ids(eventsImageCurrent))
    }

    constructor ()
      ensures Valid() && View() == Queues([], [], []) && !inUse
      ensures lastTextureBuffer == Blank(IMAGE_BYTES) == seq(640 * 360 * 4, _ => 0)
    {
      inUse := false;
      eventsImageEmpty, eventsImageCurrent, pool := [], [], [];
      lastTextureBuffer := Blank(IMAGE_BYTES);
    }

    /** A static image of `w` by `h` pixels in a free slot; `pixels` is what was
        loaded.  The texture takes the size of the image, and keeps it when the slot
        is used for a stream again.  Received images that are still queued stay, and
        the next collect pass copies one: that fits if and only if there is none, or
        the image has no fewer pixels than a received one. */
    method AddStaticImage(w: nat, h: nat, pixels: Picture)
      requires Valid() && !inUse && w * h * 4 <= |pixels|
      modifies this`inUse, this`lastTextureBuffer
      ensures Valid() && inUse && View() == old(View())
      ensures |lastTextureBuffer| == w * h * 4 && lastTextureBuffer <= pixels
      ensures CopyFits(View(), inUse, lastTextureBuffer) <==> old(eventsImageCurrent) == [] || w * h >= 640 * 360
    {
      inUse := true;
      lastTextureBuffer := pixels[..w * h * 4];
      assert |View().full| == |eventsImageCurrent|;
    }

    /** Runs at every subscription and adds to whatever the slot already has. */
    method EventInit()
      requires Valid()
      modifies this
      ensures Valid() && old(pool) <= pool && fresh(pool[|old(pool)|..])
      ensures View() == Grow(old(View()), BUFFERS, IMAGE_BYTES)
      ensures lastTextureBuffer == old(lastTextureBuffer) && inUse == old(inUse)
      ensures |pool| == |old(pool)| + 30 && eventsImageEmpty == old(eventsImageEmpty) + pool[|old(pool)|..]
      ensures eventsImageCurrent == old(eventsImageCurrent)
      ensures forall i :: |old(pool)| <= i < |pool| ==> pool[i].bytes == seq(640 * 360 * 4, _ => 0)
    {
      for n := 0 to BUFFERS
        invariant Valid() && old(pool) <= pool && fresh(pool[|old(pool)|..])
        invariant View() == Grow(old(View()), n, IMAGE_BYTES)
        invariant lastTextureBuffer == old(lastTextureBuffer) && inUse == old(inUse)
        invariant |pool| == |old(pool)| + n && eventsImageEmpty == old(eventsImageEmpty) + pool[|old(pool)|..]
        invariant eventsImageCurrent == old(eventsImageCurrent)
      {
        ghost var before := pool[|old(pool)|..];
        GrowByOne(old(View()), n, IMAGE_BYTES);
        var bf := AddBuffer();
        assert pool[|old(pool)|..] == before + [bf];
      }
      forall i | |old(pool)| <= i < |pool| ensures pool[i].bytes == Blank(IMAGE_BYTES) {
        assert View().store[i] == pool[i].bytes;
      }
    }

    method AddBuffer() returns (bf: Buffer)
      requires Valid()
      modifies this`eventsImageEmpty, this`pool
      ensures Valid() && pool == old(pool) + [bf] && fresh(bf)
      ensures View() == GrownByOne(old(View()), IMAGE_BYTES)
      ensures eventsImageEmpty == old(eventsImageEmpty) + [bf] && bf.bytes == Blank(IMAGE_BYTES)
    {
      ghost var was := View();
      bf := new Buffer(|pool|, Blank(IMAGE_BYTES));
      pool := pool + [bf];
      eventsImageEmpty := eventsImageEmpty + [bf];
      assert Memory(pool) == was.store + [Blank(IMAGE_BYTES)];
      assert Ids(eventsImageEmpty) == was.free + [|was.store|];
      assert Ids(eventsImageCurrent) == was.full;
    }

    method PushBinEvent(kind: EventType, paddr: Buffer)
      requires Valid() && From([paddr], pool)
      modifies this`eventsImageEmpty, this`eventsImageCurrent
      ensures Valid()
      ensures View() == match kind
        case EmptyImage => PushFree(old(View()), paddr.id)
        case CurrentImage => PushFull(old(View()), paddr.id)
        case OtherEvent => old(View())
      ensures eventsImageEmpty == old(eventsImageEmpty) + if kind.EmptyImage? then [paddr] else []
      ensures eventsImageCurrent == old(eventsImageCurrent) + if kind.CurrentImage? then [paddr] else []
    {
      ghost var was := View();
      assert [paddr][0] == paddr;
      if kind.EmptyImage? {
        eventsImageEmpty := eventsImageEmpty + [paddr];
        assert Ids(eventsImageEmpty) == was.free + [paddr.id];
      } else if kind.CurrentImage? {
        eventsImageCurrent := eventsImageCurrent + [paddr];
        assert Ids(eventsImageCurrent) == was.full + [paddr.id];
      }
    }

    method PopBinEvent(kind: EventType) returns (paddr: Option<Buffer>)
      requires Valid()
      modifies this`eventsImageEmpty, this`eventsImageCurrent
      ensures Valid()
      ensures paddr.Some? <==>
        || (kind.EmptyImage? && old(eventsImageEmpty) != [])
        || (kind.CurrentImage? && old(eventsImageCurrent) != [])
      ensures paddr.None? ==>
        && View() == old(View())
        && eventsImageEmpty == old(eventsImageEmpty) && eventsImageCurrent == old(eventsImageCurrent)
      ensures paddr.Some? && kind.EmptyImage? ==>
        && paddr.value == old(eventsImageEmpty)[0]
        && eventsImageEmpty == old(eventsImageEmpty)[1..] && eventsImageCurrent == old(eventsImageCurrent)
      ensures paddr.Some? && kind.CurrentImage? ==>
        && paddr.value == old(eventsImageCurrent)[0]
        && eventsImageCurrent == old(eventsImageCurrent)[1..] && eventsImageEmpty == old(eventsImageEmpty)
      ensures paddr.Some? && kind.EmptyImage? ==>
        From([paddr.value], pool) && paddr.value.id == old(View()).free[0] && View() == PopFree(old(View()))
      ensures paddr.Some? && kind.CurrentImage? ==>
        From([paddr.value], pool) && paddr.value.id == old(View()).full[0] && View() == PopFull(old(View()))
    {
      ghost var was := View();
      if kind.EmptyImage? {
        if eventsImageEmpty != [] {
          paddr := Some(eventsImageEmpty[0]);
          eventsImageEmpty := eventsImageEmpty[1..];
          assert Ids(eventsImageEmpty) == was.free[1..];
          return;
        }
      } else if kind.CurrentImage? {
        if eventsImageCurrent != [] {
          paddr := Some(eventsImageCurrent[0]);
          eventsImageCurrent := eventsImageCurrent[1..];
          assert Ids(eventsImageCurrent) == was.full[1..];
          return;
        }
      }
      return None;
    }

    /** `picture` is the decoded frame after scaling and colour conversion. */
    method OnFrame(picture: Picture) returns (taken: bool)
      requires Valid() && |picture| == IMAGE_BYTES
      modifies this`eventsImageEmpty, this`eventsImageCurrent, pool
      ensures Valid()
      ensures taken <==> old(eventsImageEmpty) != []
      ensures View() == if taken then FillNext(old(View()), picture) else old(View())
    {
      var rgb := PopBinEvent(EmptyImage);
      if rgb.None? {
        return false;
      }
      assert [rgb.value][0] == rgb.value;
      Fill(pool, rgb.value, picture, IMAGE_BYTES);
      assert picture[..IMAGE_BYTES] == picture;
      PushBinEvent(CurrentImage, rgb.value);
      return true;
    }
  }

  function GrownByOne(q: Queues, size: nat): Queues {
    Queues(q.store + [Blank(size)], q.free + [|q.store|], q.full)
  }

  lemma {:induction false} GrowByOne(q: Queues, n: nat, size: nat)
    ensures Grow(q, n + 1, size) == GrownByOne(Grow(q, n, size), size)
  {
    assert seq(n + 1, _ => Blank(size)) == seq(n, _ => Blank(size)) + [Blank(size)];
    assert seq(n + 1, (i: nat) => |q.store| + i) == seq(n, (i: nat) => |q.store| + i) + [|q.store| + n];
  }

  // ---- The collect pass of the main loop ----

  /** What one pass does to a slot's queues: at most one picture is taken. */
  function Collected(q: Queues, inUse: bool): Queues {
    if inUse && q.full != [] then ReturnNext(q) else q
  }

  /** The pass copies a whole image, whatever the size of the texture. */
  predicate CopyFits(q: Queues, inUse: bool, texture: Picture) {
    inUse && q.full != [] ==> |texture| >= IMAGE_BYTES
  }

  function CollectedTexture(q: Queues, inUse: bool, texture: Picture): Picture
    requires CopyFits(q, inUse, texture)
  {
    if inUse && q.full != [] then Peek(q.store, q.full[0]) + texture[IMAGE_BYTES..] else texture
  }

  /** A slot's state before the pass, and after it, as the machine sees it. */
  twostate predicate WasCollected(inst: Instance)
    requires old(CopyFits(inst.View(), inst.inUse, inst.lastTextureBuffer))
    reads inst, inst.pool
  {
    && inst.View() == Collected(old(inst.View()), old(inst.inUse))
    && inst.lastTextureBuffer == CollectedTexture(old(inst.View()), old(inst.inUse), old(inst.lastTextureBuffer))
  }

  /** The same, buffer by buffer and byte by byte. */
  twostate predicate TookItsImage(inst: Instance)
    requires old(CopyFits(inst.View(), inst.inUse, inst.lastTextureBuffer))
    reads inst, inst.pool, inst.eventsImageCurrent
  {
    if old(inst.inUse && inst.eventsImageCurrent != []) then
      && |inst.lastTextureBuffer| == |old(inst.lastTextureBuffer)| >= IMAGE_BYTES
      && inst.lastTextureBuffer[..IMAGE_BYTES] == old(inst.eventsImageCurrent[0].bytes)
      && inst.lastTextureBuffer[IMAGE_BYTES..] == old(inst.lastTextureBuffer)[IMAGE_BYTES..]
      && inst.eventsImageCurrent == old(inst.eventsImageCurrent)[1..]
      && inst.eventsImageEmpty == old(inst.eventsImageEmpty) + [old(inst.eventsImageCurrent)[0]]
    else
      && inst.lastTextureBuffer == old(inst.lastTextureBuffer)
      && inst.eventsImageCurrent == old(inst.eventsImageCurrent)
      && inst.eventsImageEmpty == old(inst.eventsImageEmpty)
  }

  method CollectFrames(instances: seq<Instance>)
    requires forall i :: 0 <= i < |instances| ==>
      instances[i].Valid() && CopyFits(instances[i].View(), instances[i].inUse, instances[i].lastTextureBuffer)
    requires forall i, j :: 0 <= i < j < |instances| ==> instances[i] != instances[j]
    modifies instances
    ensures forall i :: 0 <= i < |instances| ==> instances[i].Valid() && WasCollected(instances[i])
    ensures forall i :: 0 <= i < |instances| && old(instances[i].inUse && instances[i].eventsImageCurrent != []) ==>
      var inst := instances[i];
      && |inst.lastTextureBuffer| == |old(inst.lastTextureBuffer)| >= 640 * 360 * 4
      && inst.lastTextureBuffer[..640 * 360 * 4] == old(inst.eventsImageCurrent[0].bytes)
      && inst.lastTextureBuffer[640 * 360 * 4..] == old(inst.lastTextureBuffer)[640 * 360 * 4..]
      && inst.eventsImageCurrent == old(inst.eventsImageCurrent)[1..]
      && inst.eventsImageEmpty == old(inst.eventsImageEmpty) + [old(inst.eventsImageCurrent)[0]]
    ensures forall i :: 0 <= i < |instances| && !old(instances[i].inUse && instances[i].eventsImageCurrent != []) ==>
      var inst := instances[i];
      && inst.lastTextureBuffer == old(inst.lastTextureBuffer)
      && inst.eventsImageCurrent == old(inst.eventsImageCurrent)
      && inst.eventsImageEmpty == old(inst.eventsImageEmpty)
  {
    for k := 0 to |instances|
      invariant forall i :: 0 <= i < |instances| ==> instances[i].Valid()
      invariant forall i :: 0 <= i < k ==> WasCollected(instances[i]) && TookItsImage(instances[i])
      invariant forall i :: k <= i < |instances| ==> unchanged(instances[i])
    {
      CollectOne(instances[k]);
    }
  }

  method CollectOne(inst: Instance)
    requires inst.Valid() && CopyFits(inst.View(), inst.inUse, inst.lastTextureBuffer)
    modifies inst
    ensures inst.Valid() && WasCollected(inst) && TookItsImage(inst)
  {
    if inst.inUse {
      assert inst.eventsImageCurrent != [] ==> inst.View().full != [];
      var pframe := inst.PopBinEvent(CurrentImage);
      if pframe.Some? {
        assert [pframe.value][0] == pframe.value;
        inst.lastTextureBuffer := pframe.value.bytes[..IMAGE_BYTES] + inst.lastTextureBuffer[IMAGE_BYTES..];
        inst.PushBinEvent(EmptyImage, pframe.value);
      }
    }
  }
}
