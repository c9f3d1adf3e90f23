/**
 * The received-image path of one slot: any number of decoder callbacks at once,
 * the collect pass of the main loop, and a pool that grows by 30 buffers at each
 * subscription (src/event.cc:59-126, inc/bres+client_webrtc_inl.hh:343-378,
 * src/main.cc:72-79).  A slot may also show a static image, which replaces the
 * texture by one of its own size (src/resource_static_image.cc:38-52).
 */
module ImagePath {
  import opened Buffers
  import opened Counting
  import opened Wrappers
  import L = BufferLoop
  import ImageQueues

  datatype Event =
    | Subscribe                 // `event_init`; nothing is ever freed
    | AddImage(image: Picture)  // static image, by the main loop
    | Delete                    // of the channel or of the static image
    | Decode(picture: Picture)  // `OnFrame` takes an empty buffer, or drops the frame
    | Write(w: nat, n: nat)     // callback `w` converts n more bytes
    | Publish(w: nat)
    | Collect                   // main loop pops a current image
    | Copy(n: nat)              // main loop copies n more bytes to the texture
    | Copied
    | Return

  /** `base` is the last static image, or the blank texture of the start; `shown`
      lists the images copied to the texture, `since` of them onto `base`. */
  datatype Path = Path(loop: L.Loop, texture: Picture, inUse: bool, shown: seq<Picture>, base: Picture, since: nat)

  function Start(size: nat): Path {
    Path(L.Init(), L.Blank(size), false, [], L.Blank(size), 0)
  }

  /** Whether a whole image can be copied to the texture. */
  predicate Fits(p: Path, size: nat) {
    |p.texture| >= size
  }

  function LoopEvent(e: Event): L.Event {
    match e
    case Subscribe => L.Add(ImageQueues.BUFFERS)
    case AddImage(_) => L.Add(0)
    case Delete => L.Add(0)
    case Decode(picture) => L.Offer(picture)
    case Write(w, n) => L.Write(w, n)
    case Publish(w) => L.Publish(w)
    case Collect => L.Fetch
    case Copy(n) => L.Read(n)
    case Copied => L.Finish
    case Return => L.Recycle
  }

  /** A copy that does not fit has no defined outcome, so runs stop before it;
      `CopiesFitExactlyWhenTheLastImageWasLarge` says when there is one. */
  predicate Enabled(p: Path, e: Event, size: nat) {
    && L.Enabled(p.loop, LoopEvent(e), size)
    && match e
       case Collect => p.inUse
       case Copy(n) => Fits(p, size)
       case Copied => |p.loop.reader.copied| == size && Fits(p, size)
       case Subscribe => !p.inUse
       case AddImage(_) => !p.inUse && p.loop.reader.Idle?
       case Delete => p.inUse
       case _ => true
  }

  /** The texture while a copy is under way: new bytes first, old bytes after. */
  function Overlay(copied: Picture, texture: Picture): Picture {
    if |copied| <= |texture| then copied + texture[|copied|..] else texture
  }

  function Step(p: Path, e: Event, size: nat): Path
    requires Enabled(p, e, size)
  {
    var moved := if e.Delete? || e.AddImage? then p.loop else L.Step(p.loop, LoopEvent(e), size);
    match e
    case Subscribe => p.(loop := moved, inUse := true)
    case AddImage(image) => p.(inUse := true, texture := image, base := image, since := 0)
    case Delete => p.(inUse := false)
    case Copy(n) => p.(loop := moved, texture := Overlay(moved.reader.copied, p.texture))
    case Copied => p.(loop := moved, shown := p.shown + [p.texture[..size]], since := p.since + 1)
    case _ => p.(loop := moved)
  }

  function Exec(es: seq<Event>, size: nat): Option<Path> {
    if es == [] then Some(Start(size))
    else match Exec(es[..|es| - 1], size)
      case None => None
      case Some(p) =>
        var e := es[|es| - 1];
        if Enabled(p, e, size) then Some(Step(p, e, size)) else None
  }

  function Subscriptions(es: seq<Event>): nat {
    if es == [] then 0
    else Subscriptions(es[..|es| - 1]) + if es[|es| - 1].Subscribe? then 1 else 0
  }

  /** The texture between copies. */
  function Settled(p: Path, size: nat): Picture {
    if p.since == 0 || p.shown == [] || |p.base| < size then p.base
    else p.shown[|p.shown| - 1] + p.base[size..]
  }

  /** What the texture holds, during a copy and between copies. */
  ghost predicate Shows(p: Path, size: nat) {
    && |p.texture| == |p.base|
    && (p.since > 0 ==> |p.base| >= size && p.shown != [])
    && (|p.base| >= size ==> p.texture[size..] == p.base[size..])
    && |p.loop.taken| == |p.shown| + (if p.loop.reader.Holding? then 1 else 0)
    && p.shown <= p.loop.taken
    && (p.loop.reader.Holding? ==> p.loop.reader.copied <= p.texture)
    && (!p.loop.reader.Holding? ==> p.texture == Settled(p, size))
  }

  ghost predicate Inv(p: Path, size: nat) {
    L.Inv(p.loop, size) && Shows(p, size)
  }

  lemma {:induction false} CopyKeepsShows(p: Path, n: nat, size: nat)
    requires Inv(p, size) && Enabled(p, Copy(n), size)
    ensures Shows(Step(p, Copy(n), size), size)
  {
    L.CopiesInBounds(p.loop, L.Read(n), size);
    var t := Step(p, Copy(n), size);
    OverlayKeepsTail(t.loop.reader.copied, p.texture, size);
  }

  lemma {:induction false} OverlayKeepsTail(copied: Picture, texture: Picture, size: nat)
    requires |copied| <= size <= |texture|
    ensures |Overlay(copied, texture)| == |texture| && copied <= Overlay(copied, texture)
    ensures Overlay(copied, texture)[size..] == texture[size..]
  {
  }

  lemma {:induction false} WholeCopy(copied: Picture, texture: Picture, picture: Picture, base: Picture)
    requires copied <= texture && copied <= picture && |copied| == |picture| <= |texture| == |base|
    requires texture[|picture|..] == base[|picture|..]
    ensures texture[..|picture|] == picture && texture == picture + base[|picture|..]
  {
    assert texture == texture[..|picture|] + texture[|picture|..];
  }

  lemma {:induction false} OneMoreShown(shown: seq<Picture>, taken: seq<Picture>, p: Picture)
    requires shown <= taken && |taken| == |shown| + 1 && p == taken[|taken| - 1]
    ensures taken == shown + [p]
  {
  }

  lemma {:induction false} CopiedKeepsShows(p: Path, size: nat)
    requires Inv(p, size) && Enabled(p, Copied, size)
    ensures Shows(Step(p, Copied, size), size)
  {
    L.HeldPicture(p.loop, size);
    var picture := p.loop.taken[|p.loop.taken| - 1];
    WholeCopy(p.loop.reader.copied, p.texture, picture, p.base);
    OneMoreShown(p.shown, p.loop.taken, picture);
  }

  lemma {:induction false} OtherKeepsShows(p: Path, e: Event, size: nat)
    requires Shows(p, size) && Enabled(p, e, size) && !e.Copy? && !e.Copied?
    ensures Shows(Step(p, e, size), size)
  {
  }

  lemma {:induction false} StepKeepsInv(p: Path, e: Event, size: nat)
    requires Inv(p, size) && Enabled(p, e, size)
    ensures Inv(Step(p, e, size), size)
  {
    L.StepKeepsInv(p.loop, LoopEvent(e), size);
    match e
    case Copy(n) => CopyKeepsShows(p, n, size);
    case Copied => CopiedKeepsShows(p, size);
    case _ => OtherKeepsShows(p, e, size);
  }

  lemma {:induction false} StepAllocates(p: Path, e: Event, size: nat)
    requires Enabled(p, e, size)
    ensures |Step(p, e, size).loop.q.store| == |p.loop.q.store| + if e.Subscribe? then ImageQueues.BUFFERS else 0
  {
  }

  lemma {:induction false} RunAllocates(es: seq<Event>, size: nat)
    requires Exec(es, size).Some?
    ensures |Exec(es, size).value.loop.q.store| == ImageQueues.BUFFERS * Subscriptions(es)
  {
    if es != [] {
      RunAllocates(es[..|es| - 1], size);
      StepAllocates(Exec(es[..|es| - 1], size).value, es[|es| - 1], size);
    }
  }

  lemma {:induction false} RunKeepsInv(es: seq<Event>, size: nat)
    requires Exec(es, size).Some?
    ensures Inv(Exec(es, size).value, size)
  {
    if es == [] {
      L.RunKeepsInv([], size);
    } else {
      RunKeepsInv(es[..|es| - 1], size);
      StepKeepsInv(Exec(es[..|es| - 1], size).value, es[|es| - 1], size);
    }
  }

  /** Image-path refinement: the images copied to the texture are a prefix of what
      the callbacks pushed as current, in push order and byte for byte.  Between
      copies the texture is the last static image, or the blank one, under the
      last image copied since. */
  lemma {:induction false} TextureFollowsPushes(es: seq<Event>, size: nat)
    requires Exec(es, size).Some?
    ensures var p := Exec(es, size).value;
      && p.shown <= p.loop.pushed
      && (!p.loop.reader.Holding? ==>
            && p.loop.pushed == p.shown + Contents(p.loop.q.store, p.loop.q.full)
            && p.texture == Settled(p, size))
  {
    RunKeepsInv(es, size);
  }

  // ---- The size of the texture ----

  function LastImage(es: seq<Event>, size: nat): Picture {
    if es == [] then L.Blank(size)
    else if es[|es| - 1].AddImage? then es[|es| - 1].image
    else LastImage(es[..|es| - 1], size)
  }

  lemma {:induction false} BaseIsLastImage(es: seq<Event>, size: nat)
    requires Exec(es, size).Some?
    ensures Exec(es, size).value.base == LastImage(es, size)
  {
    if es != [] { BaseIsLastImage(es[..|es| - 1], size); }
  }

  /** A copy fits if and only if the last static image put into the slot, if any,
      has at least as many bytes as a received one; subscribing does not help. */
  lemma {:induction false} CopiesFitExactlyWhenTheLastImageWasLarge(es: seq<Event>, size: nat)
    requires Exec(es, size).Some?
    ensures Fits(Exec(es, size).value, size) <==> |LastImage(es, size)| >= size
  {
    RunKeepsInv(es, size);
    BaseIsLastImage(es, size);
  }

  lemma {:induction false} RunOn(es: seq<Event>, e: Event, p: Path, size: nat)
    requires Exec(es, size) == Some(p) && Enabled(p, e, size)
    ensures Exec(es + [e], size) == Some(Step(p, e, size))
  {
    assert (es + [e])[..|es|] == es;
  }

  /** A slot that showed any static image smaller than a received one is used for a
      stream again: the main loop comes to hold an image that does not fit. */
  lemma {:induction false} SmallImageStays(image: Picture, picture: Picture, size: nat) returns (es: seq<Event>)
    requires |image| < size == |picture|
    ensures Exec(es, size).Some? && Exec(es, size).value.loop.reader.Holding? && !Fits(Exec(es, size).value, size)
  {
    var p0 := Start(size);
    RunOn([], AddImage(image), p0, size);
    var p1 := Step(p0, AddImage(image), size);
    es := [] + [AddImage(image)];
    RunOn(es, Delete, p1, size);
    var p2 := Step(p1, Delete, size);
    es := es + [Delete];
    RunOn(es, Subscribe, p2, size);
    var p3 := Step(p2, Subscribe, size);
    es := es + [Subscribe];
    es := OneImageCollected(es, p3, picture, size);
  }

  lemma {:induction false} OneImageCollected(before: seq<Event>, p: Path, picture: Picture, size: nat) returns (es: seq<Event>)
    requires Exec(before, size) == Some(p) && |picture| == size
    requires p.inUse && p.loop.reader.Idle? && p.loop.writers == [] && p.loop.q.free != [] && p.loop.q.full == []
    ensures Exec(es, size).Some? && Exec(es, size).value.loop.reader.Holding? && Exec(es, size).value.texture == p.texture
  {
    RunOn(before, Decode(picture), p, size);
    var p1 := Step(p, Decode(picture), size);
    es := before + [Decode(picture)];
    RunOn(es, Write(0, size), p1, size);
    var p2 := Step(p1, Write(0, size), size);
    es := es + [Write(0, size)];
    RunOn(es, Publish(0), p2, size);
    var p3 := Step(p2, Publish(0), size);
    es := es + [Publish(0)];
    RunOn(es, Collect, p3, size);
    es := es + [Collect];
  }

  /** Each of the 30 buffers per subscription is in exactly one of the empty queue,
      the current queue, one callback's hands or the main loop's hands. */
  lemma {:induction false} EveryImageBufferHasOneOwner(es: seq<Event>, size: nat, b: nat)
    requires Exec(es, size).Some?
    ensures var l := Exec(es, size).value.loop;
      multiset(l.q.free)[b] + multiset(l.q.full)[b] + multiset(L.WriterBufs(l.writers))[b]
      + multiset(L.ReaderBufs(l.reader))[b] == if b < ImageQueues.BUFFERS * Subscriptions(es) then 1 else 0
  {
    RunKeepsInv(es, size);
    RunAllocates(es, size);
    L.OwnedOnce(Exec(es, size).value.loop, b);
  }

  /** No two callbacks, and no callback and the main loop, ever use the same
      buffer, and a pushed image is not written before it is copied out. */
  lemma {:induction false} PushedImagesAreNotOverwritten(es: seq<Event>, size: nat, e: Event, b: nat)
    requires Exec(es, size).Some? && Enabled(Exec(es, size).value, e, size)
    ensures var p := Exec(es, size).value;
      && (forall w, v :: 0 <= w < v < |p.loop.writers| ==> p.loop.writers[w].buf != p.loop.writers[v].buf)
      && (forall w :: 0 <= w < |p.loop.writers| ==> p.loop.writers[w].buf !in L.ReaderBufs(p.loop.reader))
      && (b in p.loop.q.full || b in L.ReaderBufs(p.loop.reader) ==>
            b < |p.loop.q.store| && Peek(Step(p, e, size).loop.q.store, b) == p.loop.q.store[b])
  {
    RunKeepsInv(es, size);
    var p := Exec(es, size).value;
    L.OwnedIsSeparate(p.loop);
    if b < |p.loop.q.store| {
      L.OnlyTheHolderWrites(p.loop, LoopEvent(e), size, b);
    }
  }

  /** A decoder frame is refused exactly when all buffers are in transit. */
  lemma {:induction false} RefusedExactlyWhenAllInTransit(es: seq<Event>, size: nat)
    requires Exec(es, size).Some?
    ensures var l := Exec(es, size).value.loop;
      l.q.free == [] <==> L.InTransit(l) == ImageQueues.BUFFERS * Subscriptions(es)
  {
    RunKeepsInv(es, size);
    RunAllocates(es, size);
    var l := Exec(es, size).value.loop;
    assert |L.Places(l)| == |Upto(|l.q.store|)|;
    assert |L.WriterBufs(l.writers)| == |l.writers|;
  }

  // ---- One image, undisturbed ----

  /** The state after some more events; None if one of them could not happen. */
  function Run(p: Path, es: seq<Event>, size: nat): Option<Path>
    decreases |es|
  {
    if es == [] then Some(p)
    else if Enabled(p, es[0], size) then Run(Step(p, es[0], size), es[1..], size)
    else None
  }

  lemma {:induction false} RunOne(p: Path, e: Event, es: seq<Event>, size: nat)
    requires Enabled(p, e, size)
    ensures Run(p, [e] + es, size) == Run(Step(p, e, size), es, size)
  {
    assert ([e] + es)[1..] == es;
  }

  lemma {:induction false} RunTwo(p: Path, e1: Event, e2: Event, es: seq<Event>, size: nat)
    requires Enabled(p, e1, size) && Enabled(Step(p, e1, size), e2, size)
    ensures Run(p, [e1, e2] + es, size) == Run(Step(Step(p, e1, size), e2, size), es, size)
  {
    RunOne(p, e1, [e2] + es, size);
    RunOne(Step(p, e1, size), e2, es, size);
    assert [e1, e2] + es == [e1] + ([e2] + es);
  }

  /** A decoder callback left alone: the image is last in the current queue, in the
      buffer that was first in the empty one. */
  lemma {:induction false} CallbackAlone(p: Path, picture: Picture, size: nat)
    requires Inv(p, size) && p.loop.writers == [] && p.loop.q.free != [] && |picture| == size
    ensures var r := Run(p, [Decode(picture), Write(0, size), Publish(0)], size);
      && r.Some?
      && r.value == p.(loop := r.value.loop)
      && r.value.loop.q == L.FillNext(p.loop.q, picture)
      && r.value.loop.writers == [] && r.value.loop.reader == p.loop.reader
      && r.value.loop.pushed == p.loop.pushed + [picture]
  {
    L.FillNextIsThreeSteps(p.loop, picture, size);
    var p2 := Step(Step(p, Decode(picture), size), Write(0, size), size);
    RunTwo(p, Decode(picture), Write(0, size), [Publish(0)], size);
    RunOne(p2, Publish(0), [], size);
    assert [Decode(picture), Write(0, size)] + [Publish(0)] == [Decode(picture), Write(0, size), Publish(0)];
    assert [Publish(0)] == [Publish(0)] + [];
  }

  /** The first current image copied to the texture, its buffer still held. */
  function TextureFilled(p: Path, size: nat): Path
    requires p.loop.q.full != [] && |p.texture| >= size
  {
    var b := p.loop.q.full[0];
    var picture := Peek(p.loop.q.store, b);
    p.(loop := p.loop.(q := L.PopFull(p.loop.q), reader := L.Holding(b, picture), taken := p.loop.taken + [picture]),
       texture := picture + p.texture[size..])
  }

  lemma {:induction false} WholeImage(picture: Picture, size: nat)
    requires |picture| == size
    ensures picture[0..0 + size] == picture && [] + picture == picture
  {
  }

  lemma {:induction false} CollectCopies(p: Path, size: nat)
    requires Inv(p, size) && p.inUse && p.loop.reader.Idle? && p.loop.q.full != [] && Fits(p, size)
    ensures |Peek(p.loop.q.store, p.loop.q.full[0])| == size
    ensures Enabled(p, Collect, size) && Enabled(Step(p, Collect, size), Copy(size), size)
    ensures Step(Step(p, Collect, size), Copy(size), size) == TextureFilled(p, size)
  {
    L.OwnedIsSeparate(p.loop);
    WholeImage(p.loop.q.store[p.loop.q.full[0]], size);
  }

  lemma {:induction false} CollectGivesBack(p: Path, b: nat, picture: Picture, size: nat)
    requires p.loop.reader == L.Holding(b, picture) && |picture| == size && Fits(p, size) && p.texture[..size] == picture
    ensures Enabled(p, Copied, size) && Enabled(Step(p, Copied, size), Return, size)
    ensures Step(Step(p, Copied, size), Return, size)
      == p.(loop := p.loop.(q := L.PushFree(p.loop.q, b), reader := L.Idle), shown := p.shown + [picture], since := p.since + 1)
  {
  }

  /** The collect pass left alone: the first current image is in the texture, the
      rest of the texture is unchanged, and its buffer is last in the empty queue. */
  lemma {:induction false} CollectAlone(p: Path, size: nat)
    requires Inv(p, size) && p.inUse && p.loop.reader.Idle? && p.loop.q.full != [] && Fits(p, size)
    ensures var r, picture := Run(p, [Collect, Copy(size), Copied, Return], size), Peek(p.loop.q.store, p.loop.q.full[0]);
      && r.Some? && |picture| == size
      && r.value.texture == picture + p.texture[size..]
      && r.value.loop.q == L.ReturnNext(p.loop.q) && r.value.loop.reader.Idle?
      && r.value.loop.writers == p.loop.writers && r.value.loop.pushed == p.loop.pushed
      && r.value.shown == p.shown + [picture] && r.value.inUse
  {
    var b := p.loop.q.full[0];
    var q := TextureFilled(p, size);
    CollectCopies(p, size);
    CollectGivesBack(q, b, Peek(p.loop.q.store, b), size);
    RunTwo(p, Collect, Copy(size), [Copied, Return], size);
    RunTwo(q, Copied, Return, [], size);
    assert [Collect, Copy(size)] + [Copied, Return] == [Collect, Copy(size), Copied, Return];
    assert [Copied, Return] + [] == [Copied, Return];
  }

  /** That is what the program's collect pass does to the slot. */
  lemma {:induction false} CollectAloneIsTheCollectPass(p: Path)
    requires Inv(p, ImageQueues.IMAGE_BYTES) && p.inUse && p.loop.reader.Idle? && Fits(p, ImageQueues.IMAGE_BYTES)
    requires p.loop.q.full != []
    ensures var r := Run(p, [Collect, Copy(ImageQueues.IMAGE_BYTES), Copied, Return], ImageQueues.IMAGE_BYTES);
      && r.Some?
      && r.value.loop.q == ImageQueues.Collected(p.loop.q, p.inUse)
      && r.value.texture == ImageQueues.CollectedTexture(p.loop.q, p.inUse, p.texture)
  {
    CollectAlone(p, ImageQueues.IMAGE_BYTES);
  }

  // ---- No thread ever waits ----

  /** Whichever callback is the next to finish, its image is pushed last. */
  lemma {:induction false} AnyCallbackCanFinish(p: Path, w: nat, size: nat) returns (t: Path)
    requires Inv(p, size) && w < |p.loop.writers|
    ensures p.loop.writers[w].written <= size
    ensures Run(p, [Write(w, size - p.loop.writers[w].written), Publish(w)], size) == Some(t)
    ensures t == p.(loop := t.loop) && t.loop.reader == p.loop.reader
    ensures t.loop.pushed == p.loop.pushed + [p.loop.writers[w].picture]
    ensures t.loop.writers == p.loop.writers[..w] + p.loop.writers[w + 1..]
    ensures t.loop.q == L.Queues(
      Poke(p.loop.q.store, p.loop.writers[w].buf, p.loop.writers[w].picture), p.loop.q.free, p.loop.q.full + [p.loop.writers[w].buf])
  {
    assert L.WriterInv(p.loop, p.loop.writers[w], size);
    L.AnyWriterCanFinish(p.loop, w, size);
    var e := Write(w, size - p.loop.writers[w].written);
    t := Step(Step(p, e, size), Publish(w), size);
    RunTwo(p, e, Publish(w), [], size);
    assert [e, Publish(w)] + [] == [e, Publish(w)];
  }

  /** In every reachable state a further callback may come, each callback can go on by
      as much as it likes, and the main loop has a next step, as long as the copy fits. */
  lemma {:induction false} NoThreadWaits(es: seq<Event>, size: nat, picture: Picture, w: nat, n: nat, image: Picture)
    requires Exec(es, size).Some? && |picture| == size
    ensures var p := Exec(es, size).value;
      && Enabled(p, Decode(picture), size)
      && (w < |p.loop.writers| && p.loop.writers[w].written + n <= size ==> Enabled(p, Write(w, n), size))
      && (if p.inUse then Enabled(p, Delete, size)
          else Enabled(p, Subscribe, size) && (p.loop.reader.Idle? ==> Enabled(p, AddImage(image), size)))
      && match p.loop.reader
         case Idle => p.inUse ==> Enabled(p, Collect, size)
         case Holding(_, copied) => Fits(p, size) ==>
           && (|copied| + n <= size ==> Enabled(p, Copy(n), size))
           && (|copied| == size ==> Enabled(p, Copied, size))
         case Done(_) => Enabled(p, Return, size)
  {
    RunKeepsInv(es, size);
    L.NoThreadWaits(Exec(es, size).value.loop, picture, size);
  }
}
