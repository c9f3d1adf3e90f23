/**
 * The whole output path: renderer, pipeline service and driver callback, one
 * step per critical section, and the two copies made outside the pipeline lock
 * in pieces of any size (src/bm.cc:252-316 and src/bm.cc:379-453).
 *
 * Returning a buffer to ingress (src/bm.cc:417) takes no lock in the program; it
 * is one atomic step here.
 */
module OutputPath {
  import opened Buffers
  import opened Counting
  import opened Wrappers
  import L = BufferLoop
  import S = Screen
  import D = DriverOutput
  import H = HoldLast
  import T = DisplayTimes
  import Pipeline

  datatype Event =
    | ServiceStart
    | Render(picture: Picture)      // renderer takes an ingress buffer, or drops the picture
    | Write(n: nat)                 // renderer copies n more bytes
    | Publish                       // renderer hands the buffer to egress
    | Fetch                         // service takes an egress buffer
    | Read(n: nat)                  // service copies n more bytes
    | Deliver                       // `setFrame` takes effect or refuses
    | Recycle                       // service returns the buffer
    | Completes(i: nat, result: D.Completion)

  /** Pictures are numbered in the order the renderer offers them.  The histories
      hold those numbers: `entered` got a buffer, `noBuffer` did not; of the ones
      delivered, `accepted` got a driver frame and `noFrame` did not. */
  datatype System = System(
    loop: L.Loop, screen: S.Screen, started: bool,
    offered: seq<Picture>, entered: seq<nat>, noBuffer: seq<nat>, accepted: seq<nat>, noFrame: seq<nat>)

  function Start(size: nat, duration: int): System {
    System(L.Init(), S.Start(size, duration), false, [], [], [], [], [])
  }

  /** Pictures taken from egress and already delivered. */
  function Delivered(l: L.Loop): nat {
    if l.reader.Holding? && l.taken != [] then |l.taken| - 1 else |l.taken|
  }

  /** `HeldPictureIsNumbered` shows that the index is always in range. */
  function NumberAt(entered: seq<nat>, k: nat): nat {
    if k < |entered| then entered[k] else 0
  }

  function LoopEvent(e: Event): L.Event {
    match e
    case ServiceStart => L.Add(Pipeline.BUFFERS)
    case Render(picture) => L.Offer(picture)
    case Write(n) => L.Write(0, n)
    case Publish => L.Publish(0)
    case Fetch => L.Fetch
    case Read(n) => L.Read(n)
    case Deliver => L.Finish
    case Recycle => L.Recycle
    case Completes(_, _) => L.Add(0)
  }

  predicate Enabled(s: System, e: Event, size: nat) {
    && L.Enabled(s.loop, LoopEvent(e), size)
    && match e
       case ServiceStart => !s.started
       case Render(picture) => s.loop.writers == []
       case Fetch => s.started
       case Deliver => s.screen.o.completed == [] || |s.loop.reader.copied| == size
       case Completes(i, result) => i < |s.screen.hw|
       case _ => true
  }

  function Step(s: System, e: Event, size: nat, duration: int): System
    requires Enabled(s, e, size)
  {
    var moved := if e.Completes? then s.loop else L.Step(s.loop, LoopEvent(e), size);
    match e
    case ServiceStart => s.(loop := moved, started := true)
    case Render(picture) =>
      var number := |s.offered|;
      if s.loop.q.free == []
      then s.(offered := s.offered + [picture], noBuffer := s.noBuffer + [number])
      else s.(loop := moved, offered := s.offered + [picture], entered := s.entered + [number])
    case Deliver =>
      var number := NumberAt(s.entered, Delivered(s.loop));
      if s.screen.o.completed == []
      then s.(loop := moved, noFrame := s.noFrame + [number])
      else s.(loop := moved, accepted := s.accepted + [number],
              screen := S.Step(s.screen, S.Set(s.loop.reader.copied), size, duration))
    case Completes(i, result) => s.(screen := S.Step(s.screen, S.Completes(i, result), size, duration))
    case _ => s.(loop := moved)
  }

  function Exec(es: seq<Event>, size: nat, duration: int): Option<System> {
    if es == [] then Some(Start(size, duration))
    else match Exec(es[..|es| - 1], size, duration)
      case None => None
      case Some(s) =>
        var e := es[|es| - 1];
        if Enabled(s, e, size) then Some(Step(s, e, size, duration)) else None
  }

  // ---- The invariant ----

  ghost predicate Increasing(q: seq<nat>) {
    forall i, j :: 0 <= i < j < |q| ==> q[i] < q[j]
  }

  function WriterPictures(ws: seq<L.Writer>): seq<Picture> {
    seq(|ws|, i requires 0 <= i < |ws| => ws[i].picture)
  }

  /** The renderer's side: the pictures that got a buffer are, in order, the ones
      published and the one being copied. */
  ghost predicate EnteredInOrder(s: System) {
    && |s.loop.writers| <= 1
    && Increasing(s.entered)
    && (forall k :: 0 <= k < |s.entered| ==> s.entered[k] < |s.offered|)
    && Contents(s.offered, s.entered) == s.loop.pushed + WriterPictures(s.loop.writers)
    && multiset(s.entered) + multiset(s.noBuffer) == multiset(Upto(|s.offered|))
  }

  /** Each of the first `k` numbers in `entered` is in one of the other two lists,
      and `pictures` are the pictures under the numbers in `accepted`. */
  ghost predicate SortedOut(offered: seq<Picture>, entered: seq<nat>, k: nat, accepted: seq<nat>, noFrame: seq<nat>, pictures: seq<Picture>) {
    && k <= |entered|
    && Increasing(accepted)
    && multiset(accepted) + multiset(noFrame) == multiset(entered[..k])
    && pictures == Contents(offered, accepted)
  }

  /** The service's side: each delivered picture was accepted or refused. */
  ghost predicate DeliveredInOrder(s: System) {
    && |s.loop.taken| <= |s.loop.pushed| <= |s.entered|
    && SortedOut(s.offered, s.entered, Delivered(s.loop), s.accepted, s.noFrame, s.screen.accepted)
  }

  ghost predicate Allocated(s: System) {
    |s.loop.q.store| == if s.started then Pipeline.BUFFERS else 0
  }

  ghost predicate Inv(s: System, size: nat) {
    && L.Inv(s.loop, size)
    && S.Inv(s.screen, size)
    && Allocated(s)
    && EnteredInOrder(s)
    && DeliveredInOrder(s)
  }

  lemma {:induction false} SameContents(offered: seq<Picture>, picture: Picture, numbers: seq<nat>)
    requires forall k :: 0 <= k < |numbers| ==> numbers[k] < |offered|
    ensures Contents(offered + [picture], numbers) == Contents(offered, numbers)
  {
  }

  lemma {:induction false} EnteredBefore(entered: seq<nat>, k: nat, accepted: seq<nat>, noFrame: seq<nat>, i: nat) returns (j: nat)
    requires k <= |entered| && i < |accepted|
    requires multiset(accepted) + multiset(noFrame) == multiset(entered[..k])
    ensures j < k && entered[j] == accepted[i]
  {
    var before := entered[..k];
    assert accepted[i] in multiset(accepted);
    assert accepted[i] in multiset(before);
    j :| 0 <= j < |before| && before[j] == accepted[i];
  }

  lemma {:induction false} AcceptedWereEntered(s: System, i: nat) returns (k: nat)
    requires DeliveredInOrder(s) && i < |s.accepted|
    ensures k < Delivered(s.loop) && k < |s.entered| && s.entered[k] == s.accepted[i]
  {
    k := EnteredBefore(s.entered, Delivered(s.loop), s.accepted, s.noFrame, i);
  }

  lemma {:induction false} OneMoreOffered(entered: seq<nat>, noBuffer: seq<nat>, n: nat)
    requires multiset(entered) + multiset(noBuffer) == multiset(Upto(n))
    ensures multiset(entered + [n]) + multiset(noBuffer) == multiset(Upto(n + 1))
    ensures multiset(entered) + multiset(noBuffer + [n]) == multiset(Upto(n + 1))
  {
    UptoSnoc(n);
  }

  lemma {:induction false} NoBufferKeepsEntered(s: System, picture: Picture, size: nat, duration: int)
    requires EnteredInOrder(s) && Enabled(s, Render(picture), size) && s.loop.q.free == []
    ensures EnteredInOrder(Step(s, Render(picture), size, duration))
  {
    SameContents(s.offered, picture, s.entered);
    OneMoreOffered(s.entered, s.noBuffer, |s.offered|);
  }

  lemma {:induction false} OneMoreNumber(offered: seq<Picture>, numbers: seq<nat>, picture: Picture)
    requires forall k :: 0 <= k < |numbers| ==> numbers[k] < |offered|
    ensures Contents(offered + [picture], numbers + [|offered|]) == Contents(offered, numbers) + [picture]
  {
    SameContents(offered, picture, numbers);
  }

  lemma {:induction false} BufferKeepsEntered(s: System, picture: Picture, size: nat, duration: int)
    requires EnteredInOrder(s) && Enabled(s, Render(picture), size) && s.loop.q.free != []
    ensures EnteredInOrder(Step(s, Render(picture), size, duration))
  {
    var t := Step(s, Render(picture), size, duration);
    OneMoreOffered(s.entered, s.noBuffer, |s.offered|);
    OneMoreNumber(s.offered, s.entered, picture);
    assert WriterPictures(s.loop.writers) == [] && WriterPictures(t.loop.writers) == [picture];
  }

  lemma {:induction false} RenderKeepsDelivered(s: System, picture: Picture, size: nat, duration: int)
    requires EnteredInOrder(s) && DeliveredInOrder(s) && Enabled(s, Render(picture), size)
    ensures DeliveredInOrder(Step(s, Render(picture), size, duration))
  {
    var t := Step(s, Render(picture), size, duration);
    forall i | 0 <= i < |s.accepted| ensures s.accepted[i] < |s.offered| {
      var k := AcceptedWereEntered(s, i);
    }
    SameContents(s.offered, picture, s.accepted);
    assert t.entered[..Delivered(t.loop)] == s.entered[..Delivered(s.loop)];
  }

  lemma {:induction false} PublishKeepsOrder(s: System, size: nat, duration: int)
    requires L.Inv(s.loop, size) && EnteredInOrder(s) && DeliveredInOrder(s) && Enabled(s, Publish, size)
    ensures EnteredInOrder(Step(s, Publish, size, duration))
    ensures DeliveredInOrder(Step(s, Publish, size, duration))
  {
    var t := Step(s, Publish, size, duration);
    assert WriterPictures(s.loop.writers) == [s.loop.writers[0].picture];
    assert WriterPictures(t.loop.writers) == [];
    assert |Contents(s.offered, s.entered)| == |s.entered|;
  }

  /** The picture the service holds is a numbered one, and once copied in full it
      is, byte for byte, the one the renderer offered under that number. */
  lemma {:induction false} HeldPictureIsNumbered(s: System, size: nat)
    requires L.Inv(s.loop, size) && EnteredInOrder(s) && DeliveredInOrder(s) && s.loop.reader.Holding?
    ensures var k := Delivered(s.loop);
      && k < |s.entered| && s.entered[k] < |s.offered|
      && s.loop.reader.copied <= s.offered[s.entered[k]]
      && (|s.loop.reader.copied| == size ==> s.loop.reader.copied == s.offered[s.entered[k]])
  {
    var k := Delivered(s.loop);
    L.OwnedIsSeparate(s.loop);
    assert |s.loop.q.store[s.loop.reader.buf]| == size;
    assert s.loop.taken[k] == s.loop.pushed[k] == Contents(s.offered, s.entered)[k];
  }

  lemma {:induction false} RefuseOne(offered: seq<Picture>, entered: seq<nat>, k: nat, accepted: seq<nat>, noFrame: seq<nat>, pictures: seq<Picture>)
    requires SortedOut(offered, entered, k, accepted, noFrame, pictures) && k < |entered|
    ensures SortedOut(offered, entered, k + 1, accepted, noFrame + [entered[k]], pictures)
  {
    assert entered[..k + 1] == entered[..k] + [entered[k]];
  }

  lemma {:induction false} AcceptOne(offered: seq<Picture>, entered: seq<nat>, k: nat, accepted: seq<nat>, noFrame: seq<nat>, pictures: seq<Picture>)
    requires SortedOut(offered, entered, k, accepted, noFrame, pictures) && k < |entered| && Increasing(entered)
    ensures SortedOut(offered, entered, k + 1, accepted + [entered[k]], noFrame, pictures + [Peek(offered, entered[k])])
  {
    assert entered[..k + 1] == entered[..k] + [entered[k]];
    forall i | 0 <= i < |accepted| ensures accepted[i] < entered[k] {
      var j := EnteredBefore(entered, k, accepted, noFrame, i);
    }
  }

  lemma {:induction false} RefusedKeepsOrder(s: System, size: nat, duration: int)
    requires Enabled(s, Deliver, size) && s.screen.o.completed == []
    requires DeliveredInOrder(s) && s.loop.taken != [] && Delivered(s.loop) < |s.entered|
    ensures DeliveredInOrder(Step(s, Deliver, size, duration))
  {
    var t, k := Step(s, Deliver, size, duration), Delivered(s.loop);
    RefuseOne(s.offered, s.entered, k, s.accepted, s.noFrame, s.screen.accepted);
    assert t.noFrame == s.noFrame + [s.entered[k]] && Delivered(t.loop) == k + 1;
  }

  lemma {:induction false} AcceptedKeepsOrder(s: System, size: nat, duration: int)
    requires Enabled(s, Deliver, size) && s.screen.o.completed != []
    requires DeliveredInOrder(s) && s.loop.taken != [] && Delivered(s.loop) < |s.entered| && Increasing(s.entered)
    requires s.loop.reader.copied == Peek(s.offered, s.entered[Delivered(s.loop)])
    ensures DeliveredInOrder(Step(s, Deliver, size, duration))
  {
    var t, k := Step(s, Deliver, size, duration), Delivered(s.loop);
    AcceptOne(s.offered, s.entered, k, s.accepted, s.noFrame, s.screen.accepted);
    assert t.accepted == s.accepted + [s.entered[k]] && Delivered(t.loop) == k + 1;
    assert t.screen.accepted == s.screen.accepted + [s.loop.reader.copied];
  }

  lemma {:induction false} DeliverKeepsOrder(s: System, size: nat, duration: int)
    requires L.Inv(s.loop, size) && EnteredInOrder(s) && DeliveredInOrder(s) && Enabled(s, Deliver, size)
    ensures DeliveredInOrder(Step(s, Deliver, size, duration))
  {
    HeldPictureIsNumbered(s, size);
    L.HeldPicture(s.loop, size);
    if s.screen.o.completed == [] {
      RefusedKeepsOrder(s, size, duration);
    } else {
      AcceptedKeepsOrder(s, size, duration);
    }
  }

  lemma {:induction false} OtherKeepsEntered(s: System, e: Event, size: nat, duration: int)
    requires EnteredInOrder(s) && Enabled(s, e, size) && !e.Render? && !e.Publish?
    ensures EnteredInOrder(Step(s, e, size, duration))
  {
    assert WriterPictures(Step(s, e, size, duration).loop.writers) == WriterPictures(s.loop.writers);
  }

  lemma {:induction false} FetchKeepsDelivered(s: System, size: nat, duration: int)
    requires L.Inv(s.loop, size) && DeliveredInOrder(s) && Enabled(s, Fetch, size)
    ensures DeliveredInOrder(Step(s, Fetch, size, duration))
  {
    assert |s.loop.pushed| == |s.loop.taken| + |s.loop.q.full|;
  }

  lemma {:induction false} OtherKeepsDelivered(s: System, e: Event, size: nat, duration: int)
    requires DeliveredInOrder(s) && Enabled(s, e, size)
    requires !e.Render? && !e.Publish? && !e.Fetch? && !e.Deliver?
    ensures DeliveredInOrder(Step(s, e, size, duration))
  {
  }

  lemma {:induction false} StepKeepsOrder(s: System, e: Event, size: nat, duration: int)
    requires L.Inv(s.loop, size) && EnteredInOrder(s) && DeliveredInOrder(s) && Enabled(s, e, size)
    ensures EnteredInOrder(Step(s, e, size, duration))
    ensures DeliveredInOrder(Step(s, e, size, duration))
  {
    if e.Render? {
      if s.loop.q.free == [] {
        NoBufferKeepsEntered(s, e.picture, size, duration);
      } else {
        BufferKeepsEntered(s, e.picture, size, duration);
      }
      RenderKeepsDelivered(s, e.picture, size, duration);
    } else if e.Publish? {
      PublishKeepsOrder(s, size, duration);
    } else {
      OtherKeepsEntered(s, e, size, duration);
      if e.Deliver? {
        DeliverKeepsOrder(s, size, duration);
      } else if e.Fetch? {
        FetchKeepsDelivered(s, size, duration);
      } else {
        OtherKeepsDelivered(s, e, size, duration);
      }
    }
  }

  lemma {:induction false} StepKeepsParts(s: System, e: Event, size: nat, duration: int)
    requires L.Inv(s.loop, size) && S.Inv(s.screen, size) && Enabled(s, e, size)
    ensures var t := Step(s, e, size, duration); L.Inv(t.loop, size) && S.Inv(t.screen, size)
  {
    L.StepKeepsInv(s.loop, LoopEvent(e), size);
    if e.Completes? {
      S.StepKeepsInv(s.screen, S.Completes(e.i, e.result), size, duration);
    } else if e.Deliver? && s.screen.o.completed != [] {
      S.StepKeepsInv(s.screen, S.Set(s.loop.reader.copied), size, duration);
    }
  }

  lemma {:induction false} StepKeepsAllocated(s: System, e: Event, size: nat, duration: int)
    requires Allocated(s) && Enabled(s, e, size)
    ensures Allocated(Step(s, e, size, duration))
  {
  }

  lemma {:induction false} StepKeepsInv(s: System, e: Event, size: nat, duration: int)
    requires Inv(s, size) && Enabled(s, e, size)
    ensures Inv(Step(s, e, size, duration), size)
  {
    StepKeepsAllocated(s, e, size, duration);
    StepKeepsParts(s, e, size, duration);
    StepKeepsOrder(s, e, size, duration);
  }

  lemma {:induction false} RunKeepsInv(es: seq<Event>, size: nat, duration: int)
    requires Exec(es, size, duration).Some?
    ensures Inv(Exec(es, size, duration).value, size)
  {
    if es == [] {
      S.StartInv(size, duration);
      L.RunKeepsInv([], size);
    } else {
      RunKeepsInv(es[..|es| - 1], size, duration);
      StepKeepsInv(Exec(es[..|es| - 1], size, duration).value, es[|es| - 1], size, duration);
    }
  }

  // ---- Main results, over every run ----

  function Rendered(e: Event): seq<Picture> {
    match e case Render(picture) => [picture] case _ => []
  }

  /** The pictures passed to `bm_add_pipeline_frame`, in production order. */
  function Produced(es: seq<Event>): seq<Picture> {
    if es == [] then [] else Produced(es[..|es| - 1]) + Rendered(es[|es| - 1])
  }

  lemma {:induction false} StepOffers(s: System, e: Event, size: nat, duration: int)
    requires Enabled(s, e, size)
    ensures Step(s, e, size, duration).offered == s.offered + Rendered(e)
  {
  }

  lemma {:induction false} OfferedIsProduced(es: seq<Event>, size: nat, duration: int)
    requires Exec(es, size, duration).Some?
    ensures Exec(es, size, duration).value.offered == Produced(es)
  {
    if es != [] {
      OfferedIsProduced(es[..|es| - 1], size, duration);
      StepOffers(Exec(es[..|es| - 1], size, duration).value, es[|es| - 1], size, duration);
    }
  }

  /** The pictures scheduled as new are a subsequence of the pictures produced, in
      production order and byte for byte: shot number i among them is the picture
      with number `accepted[i]`, and these numbers increase. */
  lemma {:induction false} NewPicturesFollowProduction(es: seq<Event>, size: nat, duration: int)
    requires Exec(es, size, duration).Some?
    ensures var s := Exec(es, size, duration).value;
      var new_ := S.New(s.screen.shots);
      && Increasing(s.accepted)
      && |new_| <= |s.accepted|
      && (forall i :: 0 <= i < |new_| ==> s.accepted[i] < |Produced(es)| && new_[i] == Produced(es)[s.accepted[i]])
  {
    RunKeepsInv(es, size, duration);
    OfferedIsProduced(es, size, duration);
    var s := Exec(es, size, duration).value;
    var new_ := S.New(s.screen.shots);
    assert s.screen.accepted == new_ + Contents(s.screen.o.mem, s.screen.o.output);
    forall i | 0 <= i < |new_| ensures s.accepted[i] < |s.offered| && new_[i] == s.offered[s.accepted[i]] {
      var k := AcceptedWereEntered(s, i);
      assert new_[i] == Contents(s.offered, s.accepted)[i];
    }
  }

  lemma {:induction false} Split(q: seq<nat>, k: nat)
    requires k <= |q|
    ensures multiset(q) == multiset(q[..k]) + multiset(q[k..])
  {
    assert q == q[..k] + q[k..];
  }

  /** Nothing is lost, repeated or invented: each picture produced is exactly one
      of dropped for want of a buffer, dropped for want of a driver frame, shown
      as new, waiting in `_outputFrames`, or on its way to `setFrame`. */
  lemma {:induction false} EachPictureIsAccountedFor(es: seq<Event>, size: nat, duration: int, n: nat)
    requires Exec(es, size, duration).Some?
    ensures var s := Exec(es, size, duration).value;
      var shown := |S.New(s.screen.shots)|;
      && shown <= |s.accepted| && |s.accepted| == shown + |s.screen.o.output| && Delivered(s.loop) <= |s.entered|
      && multiset(s.noBuffer)[n] + multiset(s.noFrame)[n]
         + multiset(s.accepted[..shown])[n] + multiset(s.accepted[shown..])[n]
         + multiset(s.entered[Delivered(s.loop)..])[n] == if n < |Produced(es)| then 1 else 0
  {
    RunKeepsInv(es, size, duration);
    OfferedIsProduced(es, size, duration);
    var s := Exec(es, size, duration).value;
    var shown := |S.New(s.screen.shots)|;
    assert |s.screen.accepted| == |s.accepted|;
    Split(s.accepted, shown);
    Split(s.entered, Delivered(s.loop));
    UptoOnce(|s.offered|, n);
    assert (multiset(s.entered) + multiset(s.noBuffer))[n] == multiset(Upto(|s.offered|))[n];
    assert (multiset(s.accepted) + multiset(s.noFrame))[n] == multiset(s.entered[..Delivered(s.loop)])[n];
  }

  /** A picture is dropped only where ingress is empty, or where `setFrame` finds
      `_completedFrames` empty; every other step drops nothing. */
  lemma {:induction false} DropsOnlyAtTheTwoQueues(s: System, e: Event, size: nat, duration: int)
    requires Inv(s, size) && Enabled(s, e, size)
    ensures var t := Step(s, e, size, duration);
      && (t.noBuffer != s.noBuffer <==> e.Render? && s.loop.q.free == [])
      && (t.noFrame != s.noFrame <==> e.Deliver? && s.screen.o.completed == [])
      && (s.loop.q.free == [] <==> !s.started || L.InTransit(s.loop) == Pipeline.BUFFERS)
      && (s.screen.o.completed == [] <==> |s.screen.o.output| == D.FRAMES - D.ON_HARDWARE)
  {
    assert |L.Places(s.loop)| == |Upto(|s.loop.q.store|)|;
    assert |L.WriterBufs(s.loop.writers)| == |s.loop.writers|;
    assert |multiset(S.Frames(s.screen.hw)) + multiset(s.screen.o.output) + multiset(s.screen.o.completed)| == |multiset(Upto(D.FRAMES))|;
  }

  /** Each of the 32 buffers has one owner at every step after start-up, also when
      `setFrame` refuses; so the buffer being filled is never the one being read. */
  lemma {:induction false} PipelineBuffersHaveOneOwner(es: seq<Event>, size: nat, duration: int, b: nat)
    requires Exec(es, size, duration).Some? && Exec(es, size, duration).value.started
    ensures var l := Exec(es, size, duration).value.loop;
      && multiset(l.q.free)[b] + multiset(l.q.full)[b] + multiset(L.WriterBufs(l.writers))[b]
         + multiset(L.ReaderBufs(l.reader))[b] == (if b < Pipeline.BUFFERS then 1 else 0)
      && (!l.reader.Idle? && l.writers != [] ==> l.writers[0].buf != l.reader.buf)
  {
    RunKeepsInv(es, size, duration);
    var l := Exec(es, size, duration).value.loop;
    L.OwnedOnce(l, b);
    L.OwnedIsSeparate(l);
  }

  /** The part of a step that the output sees; a refused `setFrame` changes nothing there. */
  function OutputEvent(s: System, e: Event): seq<S.Event> {
    match e
    case Completes(i, result) => [S.Completes(i, result)]
    case Deliver => if s.screen.o.completed != [] && s.loop.reader.Holding? then [S.Set(s.loop.reader.copied)] else []
    case _ => []
  }

  lemma {:induction false} OutputStep(s: System, e: Event, size: nat, duration: int)
    requires Enabled(s, e, size)
    ensures var o := OutputEvent(s, e);
      if o == [] then Step(s, e, size, duration).screen == s.screen
      else |o| == 1 && S.Enabled(s.screen, o[0], size) && Step(s, e, size, duration).screen == S.Step(s.screen, o[0], size, duration)
  {
  }

  lemma {:induction false} RunOn(ses: seq<S.Event>, screen: S.Screen, e: S.Event, size: nat, duration: int)
    requires S.Exec(ses, size, duration) == Some(screen) && S.Enabled(screen, e, size)
    ensures S.Exec(ses + [e], size, duration) == Some(S.Step(screen, e, size, duration))
  {
    assert (ses + [e])[..|ses|] == ses;
  }

  /** The output's part of a whole run, step by step. */
  function OutputEvents(es: seq<Event>, size: nat, duration: int): seq<S.Event> {
    if es == [] then []
    else
      var before := es[..|es| - 1];
      OutputEvents(before, size, duration)
      + match Exec(before, size, duration) case None => [] case Some(s) => OutputEvent(s, es[|es| - 1])
  }

  /** What the output goes through in a run of the whole path is a run of the
      output by itself, so everything proved of the latter holds here too. */
  lemma {:induction false} OutputRun(es: seq<Event>, size: nat, duration: int)
    requires Exec(es, size, duration).Some?
    ensures S.Exec(OutputEvents(es, size, duration), size, duration) == Some(Exec(es, size, duration).value.screen)
  {
    if es != [] {
      var before, e := es[..|es| - 1], es[|es| - 1];
      OutputRun(before, size, duration);
      var s := Exec(before, size, duration).value;
      var o := OutputEvent(s, e);
      OutputStep(s, e, size, duration);
      OneOutputStep(OutputEvents(before, size, duration), s.screen, o, size, duration);
    }
  }

  lemma {:induction false} OneOutputStep(ses: seq<S.Event>, screen: S.Screen, o: seq<S.Event>, size: nat, duration: int)
    requires S.Exec(ses, size, duration) == Some(screen)
    requires o != [] ==> |o| == 1 && S.Enabled(screen, o[0], size)
    ensures S.Exec(ses + o, size, duration) == Some(if o == [] then screen else S.Step(screen, o[0], size, duration))
  {
    if o == [] {
      assert ses + o == ses;
    } else {
      assert o == [o[0]];
      RunOn(ses, screen, o[0], size, duration);
    }
  }

  /** The whole path is a hold-last display too, driven by the calls that reach the
      output in this very run, and its times strictly increase. */
  lemma {:induction false} WholePathIsHoldLast(es: seq<Event>, size: nat, duration: int)
    requires Exec(es, size, duration).Some? && duration > 0
    ensures var screen := Exec(es, size, duration).value.screen;
      && H.View(screen) == H.PlayAll(H.PowerOn(size), OutputEvents(es, size, duration))
      && forall i, j :: 0 <= i < j < |screen.shots| ==> screen.shots[i].time < screen.shots[j].time
  {
    var ses := OutputEvents(es, size, duration);
    OutputRun(es, size, duration);
    var screen := Exec(es, size, duration).value.screen;
    H.OutputIsHoldLast(ses, size, duration);
    forall i, j | 0 <= i < j < |screen.shots| ensures screen.shots[i].time < screen.shots[j].time {
      T.TimesStrictlyIncrease(ses, size, duration, i, j);
    }
  }

  // ---- Promptness ----

  function Completions(es: seq<Event>): nat {
    if es == [] then 0
    else Completions(es[..|es| - 1]) + if es[|es| - 1].Completes? then 1 else 0
  }

  lemma {:induction false} CompletionsAdd(a: seq<S.Event>, o: seq<S.Event>)
    requires |o| <= 1
    ensures H.Completions(a + o) == H.Completions(a) + if o != [] && o[0].Completes? then 1 else 0
  {
    if o == [] {
      assert a + o == a;
    } else {
      assert (a + o)[..|a|] == a;
    }
  }

  lemma {:induction false} NextOutputEvent(es: seq<Event>, e: Event, size: nat, duration: int) returns (o: seq<S.Event>)
    requires Exec(es + [e], size, duration).Some?
    ensures Exec(es, size, duration).Some?
    ensures OutputEvents(es + [e], size, duration) == OutputEvents(es, size, duration) + o
    ensures |o| <= 1 && (o != [] && o[0].Completes? <==> e.Completes?)
  {
    assert (es + [e])[..|es|] == es;
    o := OutputEvent(Exec(es, size, duration).value, e);
  }

  lemma {:induction false} Regroup(a: seq<S.Event>, b: seq<S.Event>, c: seq<S.Event>)
    ensures a + b + c == a + (b + c)
  {
  }

  /** A later stretch of the run adds its own part to the output's run. */
  lemma {:induction false} OutputEventsSince(a: seq<Event>, b: seq<Event>, size: nat, duration: int) returns (since: seq<S.Event>)
    requires Exec(a + b, size, duration).Some?
    ensures Exec(a, size, duration).Some?
    ensures OutputEvents(a + b, size, duration) == OutputEvents(a, size, duration) + since
    ensures H.Completions(since) == Completions(b)
  {
    since := [];
    if b == [] {
      assert a + b == a;
    } else {
      var before, e := b[..|b| - 1], b[|b| - 1];
      assert a + b == (a + before) + [e];
      var o := NextOutputEvent(a + before, e, size, duration);
      since := OutputEventsSince(a, before, size, duration);
      CompletionsAdd(since, o);
      Regroup(OutputEvents(a, size, duration), since, o);
      since := since + o;
    }
  }

  /** In a run of the whole path too, each picture waiting for the hardware is given
      to it at the completion its place says, within five completions. */
  lemma {:induction false} AcceptedPicturesAreShown(a: seq<Event>, b: seq<Event>, size: nat, duration: int) returns (s: System, t: System)
    requires Exec(a + b, size, duration).Some?
    ensures Exec(a, size, duration) == Some(s) && Exec(a + b, size, duration) == Some(t)
    ensures |t.screen.shots| == |s.screen.shots| + Completions(b) && |s.screen.o.output| <= 5
    ensures forall j :: 0 <= j < |s.screen.o.output| && j < Completions(b) ==>
      t.screen.shots[|s.screen.shots| + j].picture == Contents(s.screen.o.mem, s.screen.o.output)[j]
  {
    s, t := SinceTheCut(a, b, size, duration);
    H.ShownSinceMeans(s.screen, t.screen, Completions(b));
  }

  lemma {:induction false} SinceTheCut(a: seq<Event>, b: seq<Event>, size: nat, duration: int) returns (s: System, t: System)
    requires Exec(a + b, size, duration).Some?
    ensures Exec(a, size, duration) == Some(s) && Exec(a + b, size, duration) == Some(t)
    ensures H.ShownSince(s.screen, t.screen, Completions(b))
  {
    var since := OutputEventsSince(a, b, size, duration);
    OutputRun(a, size, duration);
    OutputRun(a + b, size, duration);
    H.SinceTheCut(OutputEvents(a, size, duration), since, size, duration);
    s, t := Exec(a, size, duration).value, Exec(a + b, size, duration).value;
  }

  // ---- One picture, undisturbed ----

  /** The state after some more events; None if one of them could not happen. */
  function Run(s: System, es: seq<Event>, size: nat, duration: int): Option<System>
    decreases |es|
  {
    if es == [] then Some(s)
    else if Enabled(s, es[0], size) then Run(Step(s, es[0], size, duration), es[1..], size, duration)
    else None
  }

  lemma {:induction false} RunOne(s: System, e: Event, es: seq<Event>, size: nat, duration: int)
    requires Enabled(s, e, size)
    ensures Run(s, [e] + es, size, duration) == Run(Step(s, e, size, duration), es, size, duration)
  {
    assert ([e] + es)[1..] == es;
  }

  lemma {:induction false} RunBoth(s: System, a: seq<Event>, b: seq<Event>, size: nat, duration: int)
    ensures Run(s, a + b, size, duration) == match Run(s, a, size, duration)
      case None => None
      case Some(m) => Run(m, b, size, duration)
    decreases |a|
  {
    if a == [] {
      assert a + b == b;
    } else {
      assert (a + b)[1..] == a[1..] + b;
      if Enabled(s, a[0], size) { RunBoth(Step(s, a[0], size, duration), a[1..], b, size, duration); }
    }
  }

  function RendererTurn(picture: Picture, size: nat): seq<Event> { [Render(picture), Write(size), Publish] }

  function ServiceTurn(size: nat): seq<Event> { [Fetch, Read(size), Deliver, Recycle] }

  /** What one call of `bm_add_pipeline_frame` does, left alone: nothing but the
      queues, the pictures and the numbers change. */
  ghost predicate IsRendered(s: System, t: System, picture: Picture)
  {
    && s.loop.q.free != []
    && t.loop.q == L.FillNext(s.loop.q, picture)
    && t.loop.writers == [] && t.loop.reader == s.loop.reader
    && t.loop.pushed == s.loop.pushed + [picture] && t.loop.taken == s.loop.taken
    && t == s.(loop := t.loop, offered := s.offered + [picture], entered := s.entered + [|s.offered|])
  }

  lemma {:induction false} RendererAlone(s: System, picture: Picture, size: nat, duration: int)
    requires Inv(s, size) && s.loop.writers == [] && s.loop.q.free != [] && |picture| == size
    ensures Run(s, RendererTurn(picture, size), size, duration).Some?
    ensures IsRendered(s, Run(s, RendererTurn(picture, size), size, duration).value, picture)
  {
    L.FillNextIsThreeSteps(s.loop, picture, size);
    RunThree(s, Render(picture), Write(size), Publish, size, duration);
  }

  lemma {:induction false} RunThree(s: System, e1: Event, e2: Event, e3: Event, size: nat, duration: int)
    requires Enabled(s, e1, size) && Enabled(Step(s, e1, size, duration), e2, size)
    requires Enabled(Step(Step(s, e1, size, duration), e2, size, duration), e3, size)
    ensures Run(s, [e1, e2, e3], size, duration)
      == Some(Step(Step(Step(s, e1, size, duration), e2, size, duration), e3, size, duration))
  {
    var s1 := Step(s, e1, size, duration);
    var s2 := Step(s1, e2, size, duration);
    RunOne(s, e1, [e2, e3], size, duration);
    RunOne(s1, e2, [e3], size, duration);
    RunOne(s2, e3, [], size, duration);
    assert [e1, e2, e3] == [e1] + [e2, e3] && [e2, e3] == [e2] + [e3] && [e3] == [e3] + [];
  }

  /** What one turn of the service does, left alone: the first picture of egress is
      taken, and goes to the output or nowhere; its buffer is back in ingress. */
  ghost predicate IsServed(s: System, t: System, size: nat, duration: int)
    requires s.loop.q.full != []
  {
    var picture, number := Peek(s.loop.q.store, s.loop.q.full[0]), NumberAt(s.entered, |s.loop.taken|);
    && |picture| == size
    && t.loop.q == L.ReturnNext(s.loop.q)
    && t.loop.writers == s.loop.writers && t.loop.reader == L.Idle
    && t.loop.pushed == s.loop.pushed && t.loop.taken == s.loop.taken + [picture]
    && if s.screen.o.completed != []
       then t == s.(loop := t.loop, accepted := s.accepted + [number], screen := S.Step(s.screen, S.Set(picture), size, duration))
       else t == s.(loop := t.loop, noFrame := s.noFrame + [number])
  }

  lemma {:induction false} WholeBlock(p: Picture, size: nat)
    requires |p| == size
    ensures p[0..0 + size] == p && [] + p == p
  {
  }

  /** Egress popped, and its first picture copied. */
  function Copied(s: System): System
    requires s.loop.q.full != []
  {
    var b := s.loop.q.full[0];
    var picture := Peek(s.loop.q.store, b);
    s.(loop := s.loop.(q := L.PopFull(s.loop.q), reader := L.Holding(b, picture), taken := s.loop.taken + [picture]))
  }

  lemma {:induction false} ServiceCopies(s: System, size: nat, duration: int)
    requires Inv(s, size) && s.started && s.loop.reader.Idle? && s.loop.q.full != []
    ensures |Peek(s.loop.q.store, s.loop.q.full[0])| == size
    ensures Enabled(s, Fetch, size) && Enabled(Step(s, Fetch, size, duration), Read(size), size)
    ensures Step(Step(s, Fetch, size, duration), Read(size), size, duration) == Copied(s)
  {
    L.OwnedIsSeparate(s.loop);
    WholeBlock(s.loop.q.store[s.loop.q.full[0]], size);
  }

  lemma {:induction false} ServiceHandsOver(s: System, b: nat, picture: Picture, size: nat, duration: int)
    requires s.loop.reader == L.Holding(b, picture) && |picture| == size && s.loop.taken != []
    ensures Enabled(s, Deliver, size) && Enabled(Step(s, Deliver, size, duration), Recycle, size)
    ensures var t := Step(Step(s, Deliver, size, duration), Recycle, size, duration);
      var number := NumberAt(s.entered, |s.loop.taken| - 1);
      && t.loop == s.loop.(q := L.PushFree(s.loop.q, b), reader := L.Idle)
      && if s.screen.o.completed != []
         then t == s.(loop := t.loop, accepted := s.accepted + [number], screen := S.Step(s.screen, S.Set(picture), size, duration))
         else t == s.(loop := t.loop, noFrame := s.noFrame + [number])
  {
  }

  lemma {:induction false} RunFour(s: System, e1: Event, e2: Event, e3: Event, e4: Event, size: nat, duration: int)
    requires Enabled(s, e1, size) && Enabled(Step(s, e1, size, duration), e2, size)
    requires var m := Step(Step(s, e1, size, duration), e2, size, duration);
      Enabled(m, e3, size) && Enabled(Step(m, e3, size, duration), e4, size)
    ensures var m := Step(Step(s, e1, size, duration), e2, size, duration);
      Run(s, [e1, e2, e3, e4], size, duration) == Some(Step(Step(m, e3, size, duration), e4, size, duration))
  {
    var s1 := Step(s, e1, size, duration);
    var m := Step(s1, e2, size, duration);
    var s3 := Step(m, e3, size, duration);
    RunOne(s, e1, [e2, e3, e4], size, duration);
    RunOne(s1, e2, [e3, e4], size, duration);
    RunOne(m, e3, [e4], size, duration);
    RunOne(s3, e4, [], size, duration);
    assert [e1, e2, e3, e4] == [e1] + [e2, e3, e4] && [e2, e3, e4] == [e2] + [e3, e4];
    assert [e3, e4] == [e3] + [e4] && [e4] == [e4] + [];
  }

  lemma {:induction false} ServiceAlone(s: System, size: nat, duration: int)
    requires Inv(s, size) && s.started && s.loop.reader.Idle? && s.loop.q.full != []
    ensures Run(s, ServiceTurn(size), size, duration).Some?
    ensures IsServed(s, Run(s, ServiceTurn(size), size, duration).value, size, duration)
  {
    var b := s.loop.q.full[0];
    ServiceCopies(s, size, duration);
    ServiceHandsOver(Copied(s), b, Peek(s.loop.q.store, b), size, duration);
    RunFour(s, Fetch, Read(size), Deliver, Recycle, size, duration);
  }

  lemma {:induction false} RunKeepsOn(s: System, es: seq<Event>, size: nat, duration: int)
    requires Inv(s, size) && Run(s, es, size, duration).Some?
    ensures Inv(Run(s, es, size, duration).value, size)
    decreases |es|
  {
    if es != [] {
      StepKeepsInv(s, es[0], size, duration);
      RunKeepsOn(Step(s, es[0], size, duration), es[1..], size, duration);
    }
  }

  /** With nothing under way, a picture offered goes through all seven steps, one
      after the other: it is accepted by the output, or dropped for want of a driver
      frame, and its buffer is in ingress again. */
  lemma {:induction false} UndisturbedDelivery(s: System, picture: Picture, size: nat, duration: int)
    requires Inv(s, size) && s.started && s.loop.writers == [] && s.loop.reader.Idle?
    requires s.loop.q.free != [] && s.loop.q.full == [] && |picture| == size
    ensures var r := Run(s, RendererTurn(picture, size) + ServiceTurn(size), size, duration);
      && r.Some?
      && var t := r.value;
         && t.loop.q == L.ReturnNext(L.FillNext(s.loop.q, picture))
         && t.offered == s.offered + [picture] && t.entered == s.entered + [|s.offered|] && t.noBuffer == s.noBuffer
         && if s.screen.o.completed != []
            then && t.accepted == s.accepted + [|s.offered|] && t.noFrame == s.noFrame
                 && t.screen == S.Step(s.screen, S.Set(picture), size, duration)
            else && t.accepted == s.accepted && t.noFrame == s.noFrame + [|s.offered|]
                 && t.screen == s.screen
  {
    var a, b := RendererTurn(picture, size), ServiceTurn(size);
    RendererAlone(s, picture, size, duration);
    var m := Run(s, a, size, duration).value;
    RunKeepsOn(s, a, size, duration);
    ServiceAlone(m, size, duration);
    RunBoth(s, a, b, size, duration);
    NothingUnderWay(s);
    FirstOut(s.loop, picture, size);
  }

  lemma {:induction false} NothingUnderWay(s: System)
    requires EnteredInOrder(s) && s.loop.writers == [] && s.loop.q.full == []
    requires s.loop.pushed == s.loop.taken + Contents(s.loop.q.store, s.loop.q.full)
    ensures |s.entered| == |s.loop.taken|
  {
    assert |Contents(s.offered, s.entered)| == |s.entered|;
    assert WriterPictures(s.loop.writers) == [];
  }

  lemma {:induction false} FirstOut(l: L.Loop, picture: Picture, size: nat)
    requires L.Inv(l, size) && l.q.free != [] && l.q.full == []
    ensures var q := L.FillNext(l.q, picture); q.full == [l.q.free[0]] && Peek(q.store, q.full[0]) == picture
  {
    assert l.q.free[0] in multiset(l.q.free);
    L.OwnedOnce(l, l.q.free[0]);
  }

  // ---- No thread ever waits ----

  /** In every reachable state each of the three threads has a next step: the renderer
      offers a picture, copies as much as it likes or publishes; the service, once
      started, fetches, copies as much as it likes, delivers or recycles; and the
      driver completes any of its five frames, which the other two do not notice. */
  lemma {:induction false} NoThreadWaits(es: seq<Event>, size: nat, duration: int, picture: Picture, n: nat, i: nat, result: D.Completion)
    requires Exec(es, size, duration).Some? && |picture| == size && i < 5
    ensures var s := Exec(es, size, duration).value;
      && (!s.started ==> Enabled(s, ServiceStart, size))
      && (s.loop.writers == [] ==> Enabled(s, Render(picture), size))
      && (s.loop.writers != [] ==>
            var left := size - s.loop.writers[0].written;
            && left >= 0 && (n <= left ==> Enabled(s, Write(n), size)) && (left == 0 ==> Enabled(s, Publish, size)))
      && (s.started ==> match s.loop.reader
            case Idle => Enabled(s, Fetch, size)
            case Holding(_, copied) =>
              && |copied| <= size && (n <= size - |copied| ==> Enabled(s, Read(n), size))
              && (|copied| == size || s.screen.o.completed == [] ==> Enabled(s, Deliver, size))
            case Done(_) => Enabled(s, Recycle, size))
      && Enabled(s, Completes(i, result), size)
      && Step(s, Completes(i, result), size, duration)
           == s.(screen := S.Step(s.screen, S.Completes(i, result), size, duration))
  {
    RunKeepsInv(es, size, duration);
    var s := Exec(es, size, duration).value;
    L.NoThreadWaits(s.loop, picture, size);
    assert s.loop.writers != [] ==> L.WriterInv(s.loop, s.loop.writers[0], size);
  }
}
