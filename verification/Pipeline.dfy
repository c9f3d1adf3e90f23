/**
 * The two pipeline queues between the renderer and the output, and the device
 * that owns the outputs (src/bm.cc:90-104 and src/bm.cc:379-453).
 */
module Pipeline {
  import opened Buffers
  import opened BufferLoop
  import opened DriverOutput

  const WIDTH: nat := 640 * 3
  const HEIGHT: nat := 360 * 3
  const FRAME_BYTES: nat := WIDTH * HEIGHT * 4
  const BUFFERS: nat := 32

  datatype Call = Returned | Panicked

  class Device {
    var outputs: seq<Output>

    constructor (outputs: seq<Output>)
      ensures this.outputs == outputs
    {
      this.outputs := outputs;
    }

    /** The result of `Output::setFrame` is dropped here, so the caller does not
        learn that no driver frame was free. */
    method SetFrame(id: nat, frame: Picture, framelen: nat, width: nat, height: nat) returns (r: Call)
      requires framelen <= |frame|
      requires id < |outputs| ==> outputs[id].Valid() && framelen == width * height * 4 == outputs[id].size
      modifies if id < |outputs| then outputs[id].Footprint() else {}
      ensures r.Panicked? <==> id >= |outputs|
      ensures r.Returned? ==>
        && outputs[id].Valid()
        && outputs[id].frames == old(outputs[id].frames) && outputs[id].lastFrame == old(outputs[id].lastFrame)
        && outputs[id].State() == Accept(old(outputs[id].State()), frame[..framelen])
    {
      if id >= |outputs| {
        return Panicked;
      }
      var ok := outputs[id].SetFrame(frame, framelen, width, height);
      return Returned;
    }
  }

  datatype Added = NoBuffer | WrongLength | Published

  class Queue {
    var ingress: seq<Buffer>
    var egress: seq<Buffer>
    ghost var pool: seq<Buffer>

    ghost predicate Valid()
      reads this, pool
    {
      && Numbered(pool) && From(ingress, pool) && From(egress, pool)
      && (forall i :: 0 <= i < |pool| ==> |pool[i].bytes| == FRAME_BYTES)
    }

    ghost function View(): Queues
      reads this, pool
    {
      Queues(Memory(pool), Ids(ingress), Ids(egress))
    }

    constructor ()
      ensures Valid() && View() == Queues([], [], [])
    {
      ingress, egress, pool := [], [], [];
    }

    /** The start of `bm_pipeline_service`: allocate, then fill ingress and clear
        egress.  The service thread is started once, on empty queues. */
    method Start()
      requires Valid() && pool == []
      modifies this
      ensures Valid() && fresh(pool)
      ensures View() == Grow(old(View()), BUFFERS, FRAME_BYTES)
      ensures |pool| == 32 && ingress == pool && egress == []
      ensures forall i :: 0 <= i < 32 ==> pool[i].bytes == seq(1920 * 1080 * 4, _ => 0)
    {
      FromSomewhere(ingress, pool);
      FromSomewhere(egress, pool);
      var pipelineFrames: seq<Buffer> := [];
      for n := 0 to BUFFERS
        invariant |pipelineFrames| == n && Numbered(pipelineFrames) && fresh(pipelineFrames)
        invariant forall i :: 0 <= i < n ==> pipelineFrames[i].bytes == Blank(FRAME_BYTES)
        invariant ingress == [] && egress == []
      {
        var f := new Buffer(n, Blank(FRAME_BYTES));
        pipelineFrames := pipelineFrames + [f];
      }
      for n := 0 to |pipelineFrames|
        invariant ingress == pipelineFrames[..n]
        invariant forall i :: 0 <= i < |pipelineFrames| ==> pipelineFrames[i].bytes == Blank(FRAME_BYTES)
      {
        ingress := ingress + [pipelineFrames[n]];
      }
      egress := [];
      pool := pipelineFrames;
      assert Memory(pool) == seq(BUFFERS, _ => Blank(FRAME_BYTES));
      assert Ids(ingress) == seq(BUFFERS, (i: nat) => i);
    }

    /** The length check comes after the buffer was taken, and ends the program. */
    method AddPipelineFrame(frame: Picture) returns (r: Added)
      requires Valid()
      modifies this, pool
      ensures Valid() && pool == old(pool)
      ensures r.NoBuffer? <==> old(ingress) == []
      ensures r.WrongLength? <==> old(ingress) != [] && |frame| != FRAME_BYTES
      ensures r.NoBuffer? ==> View() == old(View())
      ensures r.WrongLength? ==> View() == PopFree(old(View()))
      ensures r.Published? ==> View() == FillNext(old(View()), frame)
      ensures r.Published? ==>
        && |frame| == 1920 * 1080 * 4 && old(ingress[0]).bytes == frame
        && ingress == old(ingress)[1..] && egress == old(egress) + [old(ingress)[0]]
    {
      if ingress == [] {
        return NoBuffer;
      }
      ghost var was := View();
      var pframe := ingress[0];
      ingress := ingress[1..];
      assert Ids(ingress) == was.free[1..];
      if |frame| != FRAME_BYTES {
        return WrongLength;
      }
      Fill(pool, pframe, frame, FRAME_BYTES);
      egress := egress + [pframe];
      assert frame[..FRAME_BYTES] == frame;
      assert Ids(egress) == was.full + [pframe.id];
      return Published;
    }

    method TakeEgress() returns (pframe: Buffer)
      requires Valid() && egress != []
      modifies this`egress
      ensures Valid() && View() == PopFull(old(View()))
      ensures From([pframe], pool) && pframe.id == old(View()).full[0]
      ensures pframe == old(egress)[0] && egress == old(egress)[1..]
    {
      pframe := egress[0];
      egress := egress[1..];
      assert [pframe][0] == pframe;
      assert Ids(egress) == old(Ids(egress))[1..];
    }

    method ReturnToIngress(pframe: Buffer)
      requires Valid() && From([pframe], pool)
      modifies this`ingress
      ensures Valid() && View() == PushFree(old(View()), pframe.id)
      ensures ingress == old(ingress) + [pframe]
    {
      assert [pframe][0] == pframe;
      ingress := ingress + [pframe];
      assert Ids(ingress) == old(Ids(ingress)) + [pframe.id];
    }

    /** The call of `Device::setFrame` reads the buffer and leaves the queues alone. */
    method GiveToOutput(device: Device, pframe: Buffer) returns (r: Call)
      requires Valid() && From([pframe], pool)
      requires device.outputs != [] ==>
        var out := device.outputs[0];
        out.Valid() && out.size == FRAME_BYTES && (forall b :: b in pool ==> b !in out.frames && b != out.lastFrame)
      modifies if device.outputs != [] then device.outputs[0].Footprint() else {}
      ensures Valid() && View() == old(View())
      ensures r.Panicked? <==> device.outputs == []
      ensures r.Returned? ==>
        device.outputs[0].State() == Accept(old(device.outputs[0].State()), Peek(old(View()).store, pframe.id))
    {
      assert [pframe][0] == pframe;
      assert pframe.bytes[..WIDTH * HEIGHT * 4] == Peek(View().store, pframe.id);
      r := device.SetFrame(0, pframe.bytes, WIDTH * HEIGHT * 4, WIDTH, HEIGHT);
    }

    /** One turn of the service loop.  The buffer goes back to ingress whether or
        not the output took the picture. */
    method ServiceOnce(device: Device) returns (r: Call)
      requires Valid()
      requires device.outputs != [] ==>
        var out := device.outputs[0];
        out.Valid() && out.size == FRAME_BYTES && (forall b :: b in pool ==> b !in out.frames && b != out.lastFrame)
      modifies this, if device.outputs != [] then device.outputs[0].Footprint() else {}
      ensures r.Panicked? <==> old(egress) != [] && device.outputs == []
      ensures r.Returned? && old(egress) == [] ==>
        && View() == old(View())
        && (device.outputs != [] ==> device.outputs[0].State() == old(device.outputs[0].State()))
      ensures r.Returned? && old(egress) != [] ==>
        var was := old(View());
        && View() == ReturnNext(was)
        && device.outputs[0].State() == Accept(old(device.outputs[0].State()), Peek(was.store, was.full[0]))
      ensures Valid() && pool == old(pool)
      ensures r.Returned? && old(egress) != [] ==> egress == old(egress)[1..] && ingress == old(ingress) + [old(egress)[0]]
      ensures r.Returned? && old(egress) == [] ==> egress == old(egress) && ingress == old(ingress)
    {
      if egress == [] {
        return Returned;
      }
      var pframe := TakeEgress();
      r := GiveToOutput(device, pframe);
      if r.Returned? {
        ReturnToIngress(pframe);
      }
    }
  }
}
