/**
 * The movie player's decode loop (src/examples/play_movie/src/main.cc:133-170).
 * It stops whenever a frame was handed out or nothing more can be done, and the
 * next call goes on from the status it left.
 *
 * The container and the decoder are boxes with a contract.  Reading may fail at
 * any time and must fail at the end.  A packet may be refused at any time; an
 * accepted one makes `decode` of everything accepted so far available, and
 * receiving fails exactly when all of that has been received.
 */
module Movie {
  import opened Buffers
  import opened Rows

  /** A decoded frame, in pixels of four bytes. */
  datatype AvFrame = AvFrame(plane: Plane, width: nat, height: nat)

  /** A decoder gives frames whose rows lie inside their block. */
  type Frame = f: AvFrame | Readable(f) witness AvFrame(Plane([], 0, 0), 0, 0)

  ghost predicate Readable(f: AvFrame) {
    forall r :: 0 <= r < f.height ==> HasRow(f.plane, f.width * 4, r)
  }

  datatype Packet = Packet(stream: int, data: seq<int>)
  datatype Status = ReadFrame | StreamIdx | SendPacket | ReceiveFrame

  /** What the container and the decoder are asked to do, and how they answer. */
  datatype Call = Read(found: bool) | Send(packet: Packet, accepted: bool) | Received | Drained

  function Chosen(packets: seq<Packet>, stream: int): seq<Packet> {
    if packets == [] then []
    else
      var p := packets[|packets| - 1];
      Chosen(packets[..|packets| - 1], stream) + if p.stream == stream then [p] else []
  }

  /** Everything a decoder puts out for the packets, in order. */
  function Outputs(packets: seq<Packet>, decode: seq<Packet> -> seq<Frame>): seq<Frame> {
    if packets == [] then []
    else Outputs(packets[..|packets| - 1], decode) + decode(packets)
  }

  lemma {:induction false} ChosenNext(packets: seq<Packet>, n: nat, stream: int)
    requires 0 < n <= |packets|
    ensures Chosen(packets[..n], stream) == Chosen(packets[..n - 1], stream) + if packets[n - 1].stream == stream then [packets[n - 1]] else []
  {
    assert packets[..n][..n - 1] == packets[..n - 1];
  }

  lemma {:induction false} ChosenOfOne(p: Packet, stream: int)
    ensures Chosen([], stream) == [] && Chosen([p], stream) == if p.stream == stream then [p] else []
  {
    assert [p][..0] == [];
  }

  /** The packets of the stream are picked one by one, in their order. */
  lemma {:induction false} ChosenOfBoth(a: seq<Packet>, b: seq<Packet>, stream: int)
    ensures Chosen(a + b, stream) == Chosen(a, stream) + Chosen(b, stream)
  {
    if b == [] {
      assert a + b == a;
    } else {
      var last := |b| - 1;
      ChosenOfBoth(a, b[..last], stream);
      ChosenNext(b, |b|, stream);
      ChosenNext(a + b, |a + b|, stream);
      assert b[..|b|] == b && (a + b)[..|a + b|] == a + b;
      assert (a + b)[..|a + b| - 1] == a + b[..last];
    }
  }

  lemma {:induction false} OutputsNext(packets: seq<Packet>, p: Packet, decode: seq<Packet> -> seq<Frame>)
    ensures Outputs(packets + [p], decode) == Outputs(packets, decode) + decode(packets + [p])
  {
    assert (packets + [p])[..|packets|] == packets;
  }

  /** How far the player has come: the packets sent are the chosen ones of those
      read, but for one in hand; what they gave has been handed out or is pending. */
  ghost predicate Progress(
    packets: seq<Packet>, stream: int, decode: seq<Packet> -> seq<Frame>,
    pos: nat, status: Status, pkt: Packet, pending: seq<Frame>, sent: seq<Packet>, delivered: seq<Frame>)
  {
    && pos <= |packets|
    && delivered + pending == Outputs(sent, decode)
    && (!status.ReceiveFrame? ==> pending == [])
    && match status
       case ReadFrame => sent == Chosen(packets[..pos], stream)
       case ReceiveFrame => sent == Chosen(packets[..pos], stream)
       case StreamIdx => pos > 0 && pkt == packets[pos - 1] && sent == Chosen(packets[..pos - 1], stream)
       case SendPacket => pos > 0 && pkt == packets[pos - 1] && sent == Chosen(packets[..pos - 1], stream) && pkt.stream == stream
  }

  lemma {:induction false} AfterSending(
    packets: seq<Packet>, stream: int, decode: seq<Packet> -> seq<Frame>,
    pos: nat, pkt: Packet, sent: seq<Packet>, delivered: seq<Frame>, now: seq<Packet>, pending: seq<Frame>)
    requires Progress(packets, stream, decode, pos, SendPacket, pkt, [], sent, delivered)
    requires now == sent + [pkt] && pending == decode(now)
    ensures Progress(packets, stream, decode, pos, ReceiveFrame, pkt, pending, now, delivered)
  {
    ChosenNext(packets, pos, stream);
    OutputsNext(sent, pkt, decode);
    assert delivered + [] == delivered;
  }

  // ---- Protocol ----

  /** The decoder reported itself drained after the last accepted packet. */
  predicate Clean(calls: seq<Call>) {
    calls == [] ||
    match calls[|calls| - 1]
    case Send(_, true) => false
    case Drained => true
    case _ => Clean(calls[..|calls| - 1])
  }

  predicate Polite(calls: seq<Call>, stream: int) {
    forall i :: 0 <= i < |calls| && calls[i].Send? ==> Clean(calls[..i]) && calls[i].packet.stream == stream
  }

  /** The container had no packet, or the decoder did not take it. */
  predicate Failed(c: Call) { c == Read(false) || (c.Send? && !c.accepted) }

  lemma {:induction false} CleanSnoc(calls: seq<Call>, c: Call)
    ensures Clean(calls + [c]) == match c case Send(_, true) => false case Drained => true case _ => Clean(calls)
  {
    assert (calls + [c])[..|calls|] == calls;
  }

  lemma {:induction false} PoliteSnoc(calls: seq<Call>, c: Call, stream: int)
    requires Polite(calls, stream) && (c.Send? ==> Clean(calls) && c.packet.stream == stream)
    ensures Polite(calls + [c], stream)
  {
    var more := calls + [c];
    forall i | 0 <= i < |more| && more[i].Send? ensures Clean(more[..i]) && more[i].packet.stream == stream {
      assert more[..i] == calls[..i];
      assert i == |calls| ==> calls[..i] == calls;
    }
  }

  /** Put without the recursion: between an accepted packet and the next packet
      offered, the decoder has always said that it is drained. */
  lemma {:induction false} CleanMeansDrainedSince(calls: seq<Call>, j: nat)
    requires Clean(calls) && j < |calls| && calls[j].Send? && calls[j].accepted
    ensures exists k :: j < k < |calls| && calls[k].Drained?
  {
    var n := |calls| - 1;
    if !calls[n].Drained? {
      CleanMeansDrainedSince(calls[..n], j);
      var k :| j < k < |calls[..n]| && calls[..n][k].Drained?;
      assert calls[k].Drained?;
    }
  }

  lemma {:induction false} SendsOnlyWhenDrained(calls: seq<Call>, stream: int, j: nat, i: nat)
    requires Polite(calls, stream) && j < i < |calls|
    requires calls[j].Send? && calls[j].accepted && calls[i].Send?
    ensures exists k :: j < k < i && calls[k].Drained?
  {
    CleanMeansDrainedSince(calls[..i], j);
    var k :| j < k < i && calls[..i][k].Drained?;
    assert calls[k].Drained?;
  }

  // ---- What is rendered ----

  /** What `videoRender->Render` is given. */
  datatype Rendered = Rendered(bytes: Picture, width: nat, height: nat)

  ghost predicate IsPacked(f: Frame, r: Rendered) {
    Packs(f.plane, r.bytes, f.width * 4, f.height) && r.width == f.width && r.height == f.height
  }

  ghost predicate AllPacked(frames: seq<Frame>, rendered: seq<Rendered>) {
    |frames| == |rendered| && forall i :: 0 <= i < |frames| ==> IsPacked(frames[i], rendered[i])
  }

  lemma {:induction false} PackedSnoc(frames: seq<Frame>, rendered: seq<Rendered>, f: Frame, r: Rendered)
    requires AllPacked(frames, rendered) && IsPacked(f, r)
    ensures AllPacked(frames + [f], rendered + [r])
  {
  }

  /** Byte `c` of row `r` of each picture rendered is that byte of the frame. */
  lemma {:induction false} RenderedByteByByte(frames: seq<Frame>, rendered: seq<Rendered>, i: nat, r: nat, c: nat)
    requires AllPacked(frames, rendered) && i < |frames| && r < frames[i].height && c < frames[i].width * 4
    ensures var f, p := frames[i], rendered[i];
      && p.width == f.width && p.height == f.height
      && r * (f.width * 4) + c < |p.bytes| == f.height * (f.width * 4)
      && 0 <= f.plane.start + r * f.plane.linesize + c < |f.plane.bytes|
      && p.bytes[r * (f.width * 4) + c] == f.plane.bytes[f.plane.start + r * f.plane.linesize + c]
  {
    var f, p := frames[i], rendered[i];
    assert IsPacked(f, p);
    assert PackedByte(f.plane, p.bytes, f.width * 4, r, c);
  }

  // ---- The player ----

  const NO_PACKET := Packet(-1, [])
  const NO_FRAME := AvFrame(Plane([], 0, 0), 0, 0)

  function StateRank(status: Status): nat {
    match status
    case ReadFrame => 0
    case ReceiveFrame => 1
    case SendPacket => 2
    case StreamIdx => 3
  }

  class Player {
    const packets: seq<Packet>
    const stream: int
    const decode: seq<Packet> -> seq<Frame>
    var pos: nat
    var status: Status
    var pkt: Packet
    var pending: seq<Frame>
    var sent: seq<Packet>
    var rendered: seq<Rendered>
    ghost var calls: seq<Call>
    ghost var delivered: seq<Frame>

    ghost predicate Valid()
      reads this
    {
      && Progress(packets, stream, decode, pos, status, pkt, pending, sent, delivered)
      && AllPacked(delivered, rendered)
      && (!status.ReceiveFrame? ==> Clean(calls))
      && Polite(calls, stream)
    }

    constructor (packets: seq<Packet>, stream: int, decode: seq<Packet> -> seq<Frame>)
      ensures Valid() && status.ReadFrame? && pos == 0 && delivered == [] && rendered == [] && calls == []
      ensures this.packets == packets && this.stream == stream && this.decode == decode
    {
      this.packets, this.stream, this.decode := packets, stream, decode;
      pos, status, pkt, pending := 0, ReadFrame, NO_PACKET, [];
      sent, rendered, calls, delivered := [], [], [], [];
    }

    method AvReadFrame() returns (ok: bool)
      requires pos <= |packets|
      modifies this`pos, this`pkt, this`calls
      ensures calls == old(calls) + [Read(ok)]
      ensures ok ==> old(pos) < |packets| && pos == old(pos) + 1 && pkt == packets[old(pos)]
      ensures !ok ==> pos == old(pos) && pkt == old(pkt)
    {
      ok := false;
      if * {
        if pos < |packets| {
          pkt := packets[pos];
          pos := pos + 1;
          ok := true;
        }
      }
      calls := calls + [Read(ok)];
    }

    method AvcodecSendPacket() returns (ok: bool)
      requires pending == []
      modifies this`sent, this`pending, this`calls
      ensures sent == if ok then old(sent) + [pkt] else old(sent)
      ensures pending == if ok then decode(sent) else []
      ensures calls == old(calls) + [Send(pkt, ok)]
    {
      ok := false;
      if * {
        sent := sent + [pkt];
        pending := decode(sent);
        ok := true;
      }
      calls := calls + [Send(pkt, ok)];
    }

    /** A packet of the chosen stream, offered to a drained decoder. */
    method SendPolitely() returns (ok: bool)
      requires pending == [] && Polite(calls, stream) && Clean(calls) && pkt.stream == stream
      modifies this`sent, this`pending, this`calls
      ensures sent == if ok then old(sent) + [pkt] else old(sent)
      ensures pending == if ok then decode(sent) else []
      ensures calls == old(calls) + [Send(pkt, ok)]
      ensures Polite(calls, stream) && (!ok ==> Clean(calls))
    {
      ghost var before := calls;
      ok := AvcodecSendPacket();
      PoliteSnoc(before, Send(pkt, ok), stream);
      CleanSnoc(before, Send(pkt, ok));
    }

    /** The callback the main loop passes to `iterate`. */
    method OnFrame(fr: Frame)
      modifies this`rendered
      ensures |rendered| == |old(rendered)| + 1 && rendered == old(rendered) + [rendered[|old(rendered)|]]
      ensures IsPacked(fr, rendered[|old(rendered)|])
    {
      var frameBuffer := PackRows(fr.plane, fr.width, fr.height);
      rendered := rendered + [Rendered(frameBuffer[..], fr.width, fr.height)];
    }

    method AvcodecReceiveFrame() returns (ok: bool, frame: Frame)
      modifies this`pending, this`calls
      ensures ok <==> old(pending) != []
      ensures ok ==> [frame] + pending == old(pending) && calls == old(calls) + [Received]
      ensures !ok ==> pending == [] && calls == old(calls) + [Drained]
    {
      if pending == [] {
        calls := calls + [Drained];
        return false, NO_FRAME;
      }
      frame := pending[0];
      pending := pending[1..];
      calls := calls + [Received];
      return true, frame;
    }

    // The four branches of the loop.

    method ReadTurn() returns (isDone: bool)
      requires Valid() && status.ReadFrame?
      modifies this
      ensures Valid() && delivered == old(delivered)
      ensures if isDone then status.ReadFrame? && pos == old(pos) else status.StreamIdx? && pos == old(pos) + 1
      ensures calls == old(calls) + [Read(!isDone)]
    {
      ghost var before := calls;
      var ok := AvReadFrame();
      PoliteSnoc(before, Read(ok), stream);
      CleanSnoc(before, Read(ok));
      if ok {
        status := StreamIdx;
      }
      return !ok;
    }

    method StreamTurn()
      requires Valid() && status.StreamIdx?
      modifies this
      ensures Valid() && delivered == old(delivered) && pos == old(pos) && calls == old(calls)
      ensures status.ReadFrame? || status.SendPacket?
    {
      ChosenNext(packets, pos, stream);
      if pkt.stream != stream {
        status := ReadFrame;
      } else {
        status := SendPacket;
      }
    }

    method SendTurn() returns (isDone: bool)
      requires Valid() && status.SendPacket?
      modifies this
      ensures Valid() && delivered == old(delivered) && pos == old(pos)
      ensures if isDone then status.SendPacket? else status.ReceiveFrame?
      ensures calls == old(calls) + [Send(old(pkt), !isDone)]
    {
      ghost var sentBefore := sent;
      var ok := SendPolitely();
      if ok {
        AfterSending(packets, stream, decode, pos, pkt, sentBefore, delivered, sent, pending);
        status := ReceiveFrame;
      }
      return !ok;
    }

    /** Answers true when it has handed out a frame. */
    method ReceiveTurn() returns (handed: bool)
      requires Valid() && status.ReceiveFrame?
      modifies this
      ensures Valid() && pos == old(pos)
      ensures if handed then |delivered| == |old(delivered)| + 1 && delivered[..|old(delivered)|] == old(delivered)
              else delivered == old(delivered) && status.ReadFrame?
      ensures calls == old(calls) + [if handed then Received else Drained]
    {
      ghost var before, left := calls, pending;
      var ok, frame := AvcodecReceiveFrame();
      PoliteSnoc(before, if ok then Received else Drained, stream);
      CleanSnoc(before, if ok then Received else Drained);
      if !ok {
        pkt := NO_PACKET;
        status := ReadFrame;
      } else {
        assert delivered + left == (delivered + [frame]) + pending;
        ghost var shown := rendered;
        OnFrame(frame);
        PackedSnoc(delivered, shown, frame, rendered[|shown|]);
        delivered := delivered + [frame];
      }
      return ok;
    }

    /** One call hands out exactly one frame and answers true, or none and answers
        false, which it does only when a read or a send has just failed; a false at
        the end of the container means that every frame of the chosen stream has
        been handed out. */
    method Iterate() returns (more: bool)
      requires Valid()
      modifies this
      ensures Valid() && pos >= old(pos)
      ensures |calls| > |old(calls)|
      ensures more ==> |delivered| == |old(delivered)| + 1 && delivered[..|old(delivered)|] == old(delivered)
      ensures more ==> calls[|calls| - 1].Received?
      ensures !more ==> delivered == old(delivered)
      ensures !more ==> var last := calls[|calls| - 1]; last == Read(false) || (last.Send? && !last.accepted)
      ensures !more && status.ReadFrame? && pos == |packets| ==> delivered == Outputs(Chosen(packets, stream), decode)
    {
      var isDone := false;
      while !isDone
        invariant Valid() && delivered == old(delivered) && pos >= old(pos)
        invariant |calls| >= |old(calls)| && (isDone ==> |calls| > |old(calls)|)
        invariant isDone ==> Failed(calls[|calls| - 1])
        decreases !isDone, |packets| - pos, StateRank(status)
      {
        if status.ReadFrame? {
          isDone := ReadTurn();
        } else if status.StreamIdx? {
          StreamTurn();
        } else if status.SendPacket? {
          isDone := SendTurn();
        } else {
          var handed := ReceiveTurn();
          if handed {
            return true;
          }
        }
      }
      assert packets[..|packets|] == packets;
      return false;
    }
  }

  // ---- Over any number of calls ----

  lemma {:induction false} ChosenOfPrefix(packets: seq<Packet>, n: nat, stream: int)
    requires n <= |packets|
    ensures Chosen(packets[..n], stream) <= Chosen(packets, stream)
    decreases |packets|
  {
    if n < |packets| {
      var all := packets[..|packets| - 1];
      ChosenOfPrefix(all, n, stream);
      assert all[..n] == packets[..n];
    } else {
      assert packets[..n] == packets;
    }
  }

  lemma {:induction false} OutputsOfPrefix(a: seq<Packet>, b: seq<Packet>, decode: seq<Packet> -> seq<Frame>)
    requires a <= b
    ensures Outputs(a, decode) <= Outputs(b, decode)
    decreases |b|
  {
    if |a| < |b| {
      OutputsOfPrefix(a, b[..|b| - 1], decode);
    } else {
      assert a == b;
    }
  }

  /** However often `iterate` has been called, the frames handed out are, in order,
      a prefix of what the decoder puts out for the chosen stream's packets; and
      packets were offered only to a drained decoder. */
  lemma {:induction false} DeliveredIsPrefix(p: Player)
    requires p.Valid()
    ensures p.delivered <= Outputs(Chosen(p.packets, p.stream), p.decode)
    ensures p.sent <= Chosen(p.packets, p.stream)
    ensures Polite(p.calls, p.stream)
  {
    var n := if p.status.ReadFrame? || p.status.ReceiveFrame? then p.pos else p.pos - 1;
    ChosenOfPrefix(p.packets, n, p.stream);
    OutputsOfPrefix(p.sent, Chosen(p.packets, p.stream), p.decode);
  }

  /** The main loop: `iterate` again and again.  Its answer is not looked at; what
      counts is what has been rendered. */
  method Play(p: Player, calls: nat)
    requires p.Valid() && p.delivered == []
    modifies p
    ensures p.Valid() && |p.delivered| <= calls
    ensures p.delivered <= Outputs(Chosen(p.packets, p.stream), p.decode)
    ensures AllPacked(p.delivered, p.rendered)
  {
    for i := 0 to calls
      invariant p.Valid() && |p.delivered| <= i
    {
      var _ := p.Iterate();
    }
    DeliveredIsPrefix(p);
  }
}
