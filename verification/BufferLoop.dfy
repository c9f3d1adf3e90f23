/**
 * Two queues that circulate a pool of picture buffers, with writers and one
 * reader between them.  The Blackmagic pipeline (src/bm.cc:380-453) and the
 * received-image pool of an instance (src/event.cc:59-126) are both this machine.
 *
 * Each critical section is one step.  The two `memcpy`s lie outside every lock,
 * so they are cut into pieces of any size and interleave with all other steps.
 */
module BufferLoop {
  import opened Buffers
  import opened Counting
  import opened Wrappers

  /** What the lock protects, and the memory the addresses point to. */
  datatype Queues = Queues(store: seq<Picture>, free: seq<nat>, full: seq<nat>)

  function Blank(size: nat): Picture { seq(size, _ => 0) }

  function Grow(q: Queues, n: nat, size: nat): Queues {
    Queues(q.store + seq(n, _ => Blank(size)), q.free + seq(n, (i: nat) => |q.store| + i), q.full)
  }

  function PopFree(q: Queues): Queues
    requires q.free != []
  {
    q.(free := q.free[1..])
  }

  function PushFree(q: Queues, b: nat): Queues { q.(free := q.free + [b]) }

  function PopFull(q: Queues): Queues
    requires q.full != []
  {
    q.(full := q.full[1..])
  }

  function PushFull(q: Queues, b: nat): Queues { q.(full := q.full + [b]) }

  /** A writer's whole call, undisturbed: fill the next free buffer and publish it. */
  function FillNext(q: Queues, picture: Picture): Queues
    requires q.free != []
  {
    var b := q.free[0];
    PushFull(PopFree(q).(store := Poke(q.store, b, picture)), b)
  }

  /** The reader's whole turn on the queues: the next full buffer becomes free. */
  function ReturnNext(q: Queues): Queues
    requires q.full != []
  {
    PushFree(PopFull(q), q.full[0])
  }

  /** A thread inside its `memcpy` into `buf`, `written` bytes done. */
  datatype Writer = Writer(buf: nat, picture: Picture, written: nat)

  /** The thread that empties the full queue: `Holding` while it copies out of
      `buf`, `Done` once it needs the bytes no more but has not returned `buf`. */
  datatype Reader = Idle | Holding(buf: nat, copied: Picture) | Done(buf: nat)

  /** `pushed` and `taken` are histories: what every writer made available, and
      what the reader found in the buffers it popped. */
  datatype Loop = Loop(q: Queues, writers: seq<Writer>, reader: Reader, pushed: seq<Picture>, taken: seq<Picture>)

  datatype Event =
    | Add(n: nat)
    | Offer(picture: Picture)
    | Write(w: nat, n: nat)
    | Publish(w: nat)
    | Fetch
    | Read(n: nat)
    | Finish
    | Recycle

  function Init(): Loop { Loop(Queues([], [], []), [], Idle, [], []) }

  predicate Enabled(l: Loop, e: Event, size: nat) {
    match e
    case Add(n) => true
    case Offer(picture) => |picture| == size
    case Write(w, n) => w < |l.writers| && l.writers[w].written + n <= size
    case Publish(w) => w < |l.writers| && l.writers[w].written == size
    case Fetch => l.reader.Idle?
    case Read(n) => l.reader.Holding? && |l.reader.copied| + n <= size
    case Finish => l.reader.Holding?
    case Recycle => l.reader.Done?
  }

  /** A piece of a `memcpy`: bytes `from` to `from + n` of `src` over the same
      bytes of `dst`.  `CopiesInBounds` shows that the guard always holds. */
  function Patch(dst: Picture, src: Picture, from: nat, n: nat): Picture {
    if from + n <= |dst| && from + n <= |src| then dst[..from] + src[from..from + n] + dst[from + n..] else dst
  }

  function Piece(src: Picture, from: nat, n: nat): Picture {
    if from + n <= |src| then src[from..from + n] else []
  }

  function Step(l: Loop, e: Event, size: nat): Loop
    requires Enabled(l, e, size)
  {
    match e
    case Add(n) => l.(q := Grow(l.q, n, size))
    case Offer(picture) =>
      if l.q.free == [] then l
      else l.(q := PopFree(l.q), writers := l.writers + [Writer(l.q.free[0], picture, 0)])
    case Write(w, n) =>
      var x := l.writers[w];
      l.(q := l.q.(store := Poke(l.q.store, x.buf, Patch(Peek(l.q.store, x.buf), x.picture, x.written, n))),
         writers := l.writers[w := x.(written := x.written + n)])
    case Publish(w) =>
      var x := l.writers[w];
      l.(q := PushFull(l.q, x.buf),
         writers := l.writers[..w] + l.writers[w + 1..],
         pushed := l.pushed + [x.picture])
    case Fetch =>
      if l.q.full == [] then l
      else l.(q := PopFull(l.q),
              reader := Holding(l.q.full[0], []),
              taken := l.taken + [Peek(l.q.store, l.q.full[0])])
    case Read(n) =>
      l.(reader := l.reader.(copied := l.reader.copied + Piece(Peek(l.q.store, l.reader.buf), |l.reader.copied|, n)))
    case Finish => l.(reader := Done(l.reader.buf))
    case Recycle => l.(q := PushFree(l.q, l.reader.buf), reader := Idle)
  }

  // ---- The invariant ----

  function WriterBufs(ws: seq<Writer>): seq<nat> {
    seq(|ws|, i requires 0 <= i < |ws| => ws[i].buf)
  }

  function ReaderBufs(r: Reader): seq<nat> {
    if r.Idle? then [] else [r.buf]
  }

  /** Every place a buffer can be, listed with repetition. */
  function Places(l: Loop): multiset<nat> {
    multiset(l.q.free) + multiset(l.q.full) + multiset(WriterBufs(l.writers)) + multiset(ReaderBufs(l.reader))
  }

  /** Every buffer ever allocated is in exactly one place. */
  ghost predicate Owned(l: Loop) {
    Places(l) == multiset(Upto(|l.q.store|))
  }

  ghost predicate WriterInv(l: Loop, x: Writer, size: nat) {
    && |x.picture| == size
    && x.written <= size
    && |Peek(l.q.store, x.buf)| == size
    && Peek(l.q.store, x.buf)[..x.written] == x.picture[..x.written]
  }

  ghost predicate ReaderInv(l: Loop) {
    l.reader.Holding? ==>
      && l.taken != []
      && Peek(l.q.store, l.reader.buf) == l.taken[|l.taken| - 1]
      && l.reader.copied <= Peek(l.q.store, l.reader.buf)
  }

  /** The bytes are where they should be. */
  ghost predicate Sound(l: Loop, size: nat) {
    && (forall b :: 0 <= b < |l.q.store| ==> |l.q.store[b]| == size)
    && (forall w :: 0 <= w < |l.writers| ==> WriterInv(l, l.writers[w], size))
    && ReaderInv(l)
  }

  ghost predicate Inv(l: Loop, size: nat) {
    && Owned(l)
    && Sound(l, size)
    && l.pushed == l.taken + Contents(l.q.store, l.q.full)
  }

  /** No buffer has two users, and no address points outside the pool. */
  ghost predicate Separate(l: Loop) {
    && (forall i :: 0 <= i < |l.q.full| ==> l.q.full[i] < |l.q.store|)
    && (forall w :: 0 <= w < |l.writers| ==> l.writers[w].buf < |l.q.store|)
    && (forall w, i :: 0 <= w < |l.writers| && 0 <= i < |l.q.full| ==> l.writers[w].buf != l.q.full[i])
    && (forall w, v :: 0 <= w < v < |l.writers| ==> l.writers[w].buf != l.writers[v].buf)
    && (!l.reader.Idle? ==>
          && l.reader.buf < |l.q.store|
          && (forall w :: 0 <= w < |l.writers| ==> l.writers[w].buf != l.reader.buf)
          && (forall i :: 0 <= i < |l.q.full| ==> l.q.full[i] != l.reader.buf))
  }

  lemma {:induction false} OwnedOnce(l: Loop, b: nat)
    requires Owned(l)
    ensures multiset(l.q.free)[b] + multiset(l.q.full)[b] + multiset(WriterBufs(l.writers))[b]
            + multiset(ReaderBufs(l.reader))[b] == if b < |l.q.store| then 1 else 0
  {
    UptoOnce(|l.q.store|, b);
    assert Places(l)[b] == multiset(Upto(|l.q.store|))[b];
  }

  lemma {:induction false} OwnedIsSeparate(l: Loop)
    requires Owned(l)
    ensures Separate(l)
  {
    var ws := WriterBufs(l.writers);
    forall i | 0 <= i < |l.q.full| ensures l.q.full[i] < |l.q.store| && l.q.full[i] !in ws && l.q.full[i] !in ReaderBufs(l.reader) {
      assert l.q.full[i] in multiset(l.q.full);
      OwnedOnce(l, l.q.full[i]);
    }
    forall w | 0 <= w < |l.writers| ensures l.writers[w].buf < |l.q.store| && l.writers[w].buf !in ReaderBufs(l.reader) {
      assert ws[w] in multiset(ws);
      OwnedOnce(l, ws[w]);
    }
    forall w, v | 0 <= w < v < |l.writers| ensures l.writers[w].buf != l.writers[v].buf {
      OwnedOnce(l, ws[w]);
      if ws[w] == ws[v] { AppearsTwice(ws, w, v); }
    }
    forall w, i | 0 <= w < |l.writers| && 0 <= i < |l.q.full| ensures l.writers[w].buf != l.q.full[i] {
      assert ws[w] in ws;
    }
    if !l.reader.Idle? {
      assert ReaderBufs(l.reader)[0] == l.reader.buf;
      OwnedOnce(l, l.reader.buf);
      forall w | 0 <= w < |l.writers| ensures l.writers[w].buf != l.reader.buf { assert ws[w] in ws; }
      forall i | 0 <= i < |l.q.full| ensures l.q.full[i] != l.reader.buf { assert l.q.full[i] in l.q.full; }
    }
  }

  lemma {:induction false} GrowKeepsOwned(l: Loop, n: nat, size: nat)
    requires Owned(l)
    ensures Owned(Step(l, Add(n), size))
  {
    var was := |l.q.store|;
    var added := seq(n, (i: nat) => was + i);
    assert Upto(was + n) == Upto(was) + added;
    assert multiset(l.q.free + added) == multiset(l.q.free) + multiset(added);
  }

  lemma {:induction false} OfferKeepsOwned(l: Loop, picture: Picture, size: nat)
    requires Owned(l) && Enabled(l, Offer(picture), size)
    ensures Owned(Step(l, Offer(picture), size))
  {
    if l.q.free != [] {
      var m := Step(l, Offer(picture), size);
      PopFront(l.q.free);
      assert WriterBufs(m.writers) == WriterBufs(l.writers) + [l.q.free[0]];
    }
  }

  lemma {:induction false} WriteKeepsOwned(l: Loop, w: nat, n: nat, size: nat)
    requires Owned(l) && Enabled(l, Write(w, n), size)
    ensures Owned(Step(l, Write(w, n), size))
  {
    var m := Step(l, Write(w, n), size);
    assert WriterBufs(m.writers) == WriterBufs(l.writers);
    assert |m.q.store| == |l.q.store|;
  }

  lemma {:induction false} PublishKeepsOwned(l: Loop, w: nat, size: nat)
    requires Owned(l) && Enabled(l, Publish(w), size)
    ensures Owned(Step(l, Publish(w), size))
  {
    var m := Step(l, Publish(w), size);
    var ws := WriterBufs(l.writers);
    RemoveAt(ws, w);
    assert WriterBufs(m.writers) == ws[..w] + ws[w + 1..];
  }

  lemma {:induction false} FetchKeepsOwned(l: Loop, size: nat)
    requires Owned(l) && Enabled(l, Fetch, size)
    ensures Owned(Step(l, Fetch, size))
  {
    if l.q.full != [] { PopFront(l.q.full); }
  }

  lemma {:induction false} RecycleKeepsOwned(l: Loop, size: nat)
    requires Owned(l) && Enabled(l, Recycle, size)
    ensures Owned(Step(l, Recycle, size))
  {
    assert multiset(l.q.free + [l.reader.buf]) == multiset(l.q.free) + multiset{l.reader.buf};
  }

  lemma {:induction false} ReaderStepKeepsOwned(l: Loop, e: Event, size: nat)
    requires Owned(l) && Enabled(l, e, size) && (e.Fetch? || e.Read? || e.Finish? || e.Recycle?)
    ensures Owned(Step(l, e, size))
  {
    if e.Fetch? {
      FetchKeepsOwned(l, size);
    } else if e.Recycle? {
      RecycleKeepsOwned(l, size);
    } else {
      assert ReaderBufs(Step(l, e, size).reader) == ReaderBufs(l.reader);
    }
  }

  lemma {:induction false} StepKeepsOwned(l: Loop, e: Event, size: nat)
    requires Owned(l) && Enabled(l, e, size)
    ensures Owned(Step(l, e, size))
  {
    if e.Add? {
      GrowKeepsOwned(l, e.n, size);
    } else if e.Offer? {
      OfferKeepsOwned(l, e.picture, size);
    } else if e.Write? {
      WriteKeepsOwned(l, e.w, e.n, size);
    } else if e.Publish? {
      PublishKeepsOwned(l, e.w, size);
    } else {
      ReaderStepKeepsOwned(l, e, size);
    }
  }

  lemma {:induction false} AddKeepsSound(l: Loop, n: nat, size: nat)
    requires Owned(l) && Sound(l, size)
    ensures Sound(Step(l, Add(n), size), size)
  {
    OwnedIsSeparate(l);
  }

  lemma {:induction false} OfferKeepsSound(l: Loop, picture: Picture, size: nat)
    requires Owned(l) && Sound(l, size) && |picture| == size
    ensures Sound(Step(l, Offer(picture), size), size)
  {
    OwnedIsSeparate(l);
    if l.q.free != [] {
      var b := l.q.free[0];
      assert b in multiset(l.q.free);
      OwnedOnce(l, b);
    }
  }

  lemma {:induction false} PatchExtends(dst: Picture, src: Picture, from: nat, n: nat)
    requires |dst| == |src| && from + n <= |dst| && dst[..from] == src[..from]
    ensures |Patch(dst, src, from, n)| == |dst| && Patch(dst, src, from, n)[..from + n] == src[..from + n]
  {
    assert src[..from + n] == src[..from] + src[from..from + n];
  }

  lemma {:induction false} WriteKeepsSound(l: Loop, w: nat, n: nat, size: nat)
    requires Owned(l) && Sound(l, size) && Enabled(l, Write(w, n), size)
    ensures Sound(Step(l, Write(w, n), size), size)
  {
    OwnedIsSeparate(l);
    var x, m := l.writers[w], Step(l, Write(w, n), size);
    PatchExtends(l.q.store[x.buf], x.picture, x.written, n);
    forall v | 0 <= v < |m.writers| ensures WriterInv(m, m.writers[v], size) {
      assert WriterInv(l, l.writers[v], size);
      assert v != w ==> m.q.store[l.writers[v].buf] == l.q.store[l.writers[v].buf];
    }
  }

  lemma {:induction false} StepKeepsSound(l: Loop, e: Event, size: nat)
    requires Owned(l) && Sound(l, size) && Enabled(l, e, size)
    ensures Sound(Step(l, e, size), size)
  {
    if e.Add? {
      AddKeepsSound(l, e.n, size);
    } else if e.Offer? {
      OfferKeepsSound(l, e.picture, size);
    } else if e.Write? {
      WriteKeepsSound(l, e.w, e.n, size);
    } else {
      OwnedIsSeparate(l);
    }
  }

  lemma {:induction false} StepKeepsOrder(l: Loop, e: Event, size: nat)
    requires Inv(l, size) && Enabled(l, e, size)
    ensures var m := Step(l, e, size); m.pushed == m.taken + Contents(m.q.store, m.q.full)
  {
    OwnedIsSeparate(l);
    var m := Step(l, e, size);
    match e
    case Publish(w) =>
      var x := l.writers[w];
      assert Peek(l.q.store, x.buf) == x.picture;
      assert Contents(m.q.store, m.q.full) == Contents(l.q.store, l.q.full) + [x.picture];
    case Fetch =>
      if l.q.full != [] {
        assert Contents(l.q.store, l.q.full) == [Peek(l.q.store, l.q.full[0])] + Contents(m.q.store, m.q.full);
      }
    case _ =>
      assert Contents(m.q.store, m.q.full) == Contents(l.q.store, l.q.full);
  }

  lemma {:induction false} HeldPicture(l: Loop, size: nat)
    requires Inv(l, size) && l.reader.Holding?
    ensures l.taken != [] && |l.taken[|l.taken| - 1]| == size && l.reader.copied <= l.taken[|l.taken| - 1]
  {
    OwnedIsSeparate(l);
  }

  lemma {:induction false} StepKeepsInv(l: Loop, e: Event, size: nat)
    requires Inv(l, size) && Enabled(l, e, size)
    ensures Inv(Step(l, e, size), size)
  {
    StepKeepsOwned(l, e, size);
    StepKeepsSound(l, e, size);
    StepKeepsOrder(l, e, size);
  }

  // ---- Runs: any interleaving of the threads' steps, from the empty pool ----

  /** The state after the events in order; None if one of them could not happen. */
  function Exec(es: seq<Event>, size: nat): Option<Loop> {
    if es == [] then Some(Init())
    else match Exec(es[..|es| - 1], size)
      case None => None
      case Some(l) =>
        var e := es[|es| - 1];
        if Enabled(l, e, size) then Some(Step(l, e, size)) else None
  }

  function Added(es: seq<Event>): nat {
    if es == [] then 0
    else Added(es[..|es| - 1]) + match es[|es| - 1] case Add(n) => n case _ => 0
  }

  lemma {:induction false} RunKeepsInv(es: seq<Event>, size: nat)
    requires Exec(es, size).Some?
    ensures Inv(Exec(es, size).value, size)
  {
    if es == [] {
      assert Upto(0) == [];
    } else {
      RunKeepsInv(es[..|es| - 1], size);
      StepKeepsInv(Exec(es[..|es| - 1], size).value, es[|es| - 1], size);
    }
  }

  lemma {:induction false} RunAdds(es: seq<Event>, size: nat)
    requires Exec(es, size).Some?
    ensures |Exec(es, size).value.q.store| == Added(es)
  {
    if es != [] { RunAdds(es[..|es| - 1], size); }
  }

  /** Ownership: whatever the interleaving, each buffer ever added is in exactly
      one of the two queues, one writer's hands, or the reader's hands. */
  lemma {:induction false} EveryBufferHasOneOwner(es: seq<Event>, size: nat, b: nat)
    requires Exec(es, size).Some?
    ensures var l := Exec(es, size).value;
      multiset(l.q.free)[b] + multiset(l.q.full)[b] + multiset(WriterBufs(l.writers))[b]
      + multiset(ReaderBufs(l.reader))[b] == if b < Added(es) then 1 else 0
  {
    RunKeepsInv(es, size);
    RunAdds(es, size);
    OwnedOnce(Exec(es, size).value, b);
  }

  /** First in, first out, undamaged: the pictures the reader has found are the
      first ones published, in order; the rest are waiting in the full queue;
      and what it has copied out so far is a part of the picture it holds. */
  lemma {:induction false} ReaderSeesWhatWasPublished(es: seq<Event>, size: nat)
    requires Exec(es, size).Some?
    ensures var l := Exec(es, size).value;
      && l.pushed == l.taken + Contents(l.q.store, l.q.full)
      && l.taken <= l.pushed
      && (l.reader.Holding? ==> l.taken != [] && l.reader.copied <= l.taken[|l.taken| - 1])
      && (l.reader.Holding? && |l.reader.copied| == size ==> l.reader.copied == l.taken[|l.taken| - 1])
  {
    RunKeepsInv(es, size);
    var l := Exec(es, size).value;
    if l.reader.Holding? {
      OwnedIsSeparate(l);
      assert |l.q.store[l.reader.buf]| == size;
    }
  }

  /** A step changes no byte except in the buffer of the writer that takes it; so
      a published picture stays intact until the reader gives its buffer back. */
  lemma {:induction false} OnlyTheHolderWrites(l: Loop, e: Event, size: nat, b: nat)
    requires Inv(l, size) && Enabled(l, e, size) && b < |l.q.store|
    ensures var m := Step(l, e, size);
      && (m.q.store[b] != l.q.store[b] ==> e.Write? && l.writers[e.w].buf == b)
      && (b in l.q.full || b in ReaderBufs(l.reader) ==> m.q.store[b] == l.q.store[b])
  {
    OwnedIsSeparate(l);
  }

  /** Every piece of every `memcpy` stays inside both blocks. */
  lemma {:induction false} CopiesInBounds(l: Loop, e: Event, size: nat)
    requires Inv(l, size) && Enabled(l, e, size)
    ensures e.Write? ==>
      var x := l.writers[e.w];
      x.buf < |l.q.store| && x.written + e.n <= |l.q.store[x.buf]| && x.written + e.n <= |x.picture|
    ensures e.Read? ==>
      l.reader.buf < |l.q.store| && |l.reader.copied| + e.n <= |l.q.store[l.reader.buf]|
  {
    OwnedIsSeparate(l);
  }

  /** Number of buffers that are not waiting in the free queue. */
  function InTransit(l: Loop): nat {
    |l.q.full| + |l.writers| + if l.reader.Idle? then 0 else 1
  }

  /** A writer is turned away exactly when every buffer ever added is in transit. */
  lemma {:induction false} RefusedExactlyWhenAllInTransit(es: seq<Event>, size: nat)
    requires Exec(es, size).Some?
    ensures var l := Exec(es, size).value;
      l.q.free == [] <==> InTransit(l) == Added(es)
  {
    RunKeepsInv(es, size);
    RunAdds(es, size);
    var l := Exec(es, size).value;
    assert |Places(l)| == |Upto(|l.q.store|)|;
    assert |WriterBufs(l.writers)| == |l.writers|;
  }

  /** Left alone, a writer's call is its three steps of the interleaved machine. */
  lemma {:induction false} FillNextIsThreeSteps(l: Loop, frame: Picture, size: nat)
    requires Inv(l, size) && l.q.free != [] && l.writers == [] && |frame| == size
    ensures var l1 := Step(l, Offer(frame), size);
      var l2 := Step(l1, Write(0, size), size);
      Enabled(l2, Publish(0), size) && Step(l2, Publish(0), size).q == FillNext(l.q, frame)
  {
    var b := l.q.free[0];
    assert b in multiset(l.q.free);
    OwnedOnce(l, b);
    assert Patch(l.q.store[b], frame, 0, size) == frame;
  }

  lemma {:induction false} ReturnNextIsFourSteps(l: Loop, size: nat)
    requires Inv(l, size) && l.q.full != [] && l.reader.Idle?
    ensures var l1 := Step(l, Fetch, size);
      var l2 := Step(l1, Read(size), size);
      var l3 := Step(l2, Finish, size);
      && l2.reader.copied == Contents(l.q.store, l.q.full)[0]
      && Enabled(l3, Recycle, size) && Step(l3, Recycle, size).q == ReturnNext(l.q)
  {
    OwnedIsSeparate(l);
    var p := l.q.store[l.q.full[0]];
    assert p[0..size] == p;
  }

  // ---- No thread ever waits ----

  lemma {:induction false} PatchTwice(dst: Picture, src: Picture, from: nat, n: nat, m: nat)
    requires |dst| == |src| && from + n + m <= |dst|
    ensures Patch(Patch(dst, src, from, n), src, from + n, m) == Patch(dst, src, from, n + m)
  {
  }

  /** A copy into a buffer can be cut anywhere; together the pieces do the same. */
  lemma {:induction false} WritesInPieces(l: Loop, w: nat, n: nat, m: nat, size: nat)
    requires Inv(l, size) && w < |l.writers| && l.writers[w].written + n + m <= size
    ensures Enabled(l, Write(w, n + m), size) && Enabled(l, Write(w, n), size)
    ensures Enabled(Step(l, Write(w, n), size), Write(w, m), size)
    ensures Step(Step(l, Write(w, n), size), Write(w, m), size) == Step(l, Write(w, n + m), size)
  {
    OwnedIsSeparate(l);
    var x := l.writers[w];
    PatchTwice(l.q.store[x.buf], x.picture, x.written, n, m);
  }

  lemma {:induction false} PieceTwice(src: Picture, copied: Picture, n: nat, m: nat)
    requires |copied| + n + m <= |src|
    ensures copied + Piece(src, |copied|, n) + Piece(src, |copied| + n, m) == copied + Piece(src, |copied|, n + m)
  {
  }

  lemma {:induction false} ReadsInPieces(l: Loop, n: nat, m: nat, size: nat)
    requires Inv(l, size) && l.reader.Holding? && |l.reader.copied| + n + m <= size
    ensures Enabled(l, Read(n + m), size) && Enabled(l, Read(n), size)
    ensures Enabled(Step(l, Read(n), size), Read(m), size)
    ensures Step(Step(l, Read(n), size), Read(m), size) == Step(l, Read(n + m), size)
  {
    OwnedIsSeparate(l);
    PieceTwice(l.q.store[l.reader.buf], l.reader.copied, n, m);
  }

  /** Any writer can finish, however many there are; its picture, and no other, is
      published last. */
  lemma {:induction false} AnyWriterCanFinish(l: Loop, w: nat, size: nat)
    requires Inv(l, size) && w < |l.writers|
    ensures var x := l.writers[w];
      && Enabled(l, Write(w, size - x.written), size)
      && var l1 := Step(l, Write(w, size - x.written), size);
         && Enabled(l1, Publish(w), size)
         && var l2 := Step(l1, Publish(w), size);
            && l2.pushed == l.pushed + [x.picture] && l2.taken == l.taken && l2.reader == l.reader
            && l2.writers == l.writers[..w] + l.writers[w + 1..]
            && l2.q == Queues(Poke(l.q.store, x.buf, x.picture), l.q.free, l.q.full + [x.buf])
  {
    OwnedIsSeparate(l);
    var x := l.writers[w];
    var b := l.q.store[x.buf];
    assert b[..x.written] + x.picture[x.written..size] == x.picture;
    assert Patch(b, x.picture, x.written, size - x.written) == x.picture;
  }

  /** The reader always has a next step, and a writer can always be added. */
  lemma {:induction false} NoThreadWaits(l: Loop, picture: Picture, size: nat)
    requires Inv(l, size) && |picture| == size
    ensures Enabled(l, Offer(picture), size)
    ensures l.q.free != [] ==> Step(l, Offer(picture), size).writers == l.writers + [Writer(l.q.free[0], picture, 0)]
    ensures match l.reader
      case Idle => Enabled(l, Fetch, size)
      case Holding(_, copied) => |copied| <= size && Enabled(l, Read(size - |copied|), size) && Enabled(l, Finish, size)
      case Done(_) => Enabled(l, Recycle, size)
  {
    if l.reader.Holding? { HeldPicture(l, size); }
  }
}
