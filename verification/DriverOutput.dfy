/**
 * One Blackmagic output: ten driver frames that circulate between the hardware,
 * `_outputFrames` (filled, not shown yet) and `_completedFrames` (free), and the
 * cached copy `_lastFrame` that is shown again when nothing new is waiting.
 */
module DriverOutput {
  import opened Buffers

  /** What the driver reports about a frame it is done with. */
  datatype Completion = Completed | DisplayedLate | Dropped | Flushed

  predicate Skips(result: Completion) { result.DisplayedLate? || result.Dropped? }

  /** One call of `ScheduleVideoFrame`: the frame, its bytes at that moment, the
      display time, and whether the bytes came from `_outputFrames`. */
  datatype Shot = Shot(frame: nat, picture: Picture, time: int, isNew: bool)

  /** What `Output::_mtx` protects. */
  datatype OutState = OutState(mem: seq<Picture>, output: seq<nat>, completed: seq<nat>, last: Picture, total: nat)

  const FRAMES: nat := 10
  const ON_HARDWARE: nat := 5

  function White(size: nat): Picture { seq(size, _ => 0xFF) }

  function StartState(size: nat): OutState {
    OutState(seq(FRAMES, _ => White(size)), [], seq(FRAMES - ON_HARDWARE, (i: nat) => ON_HARDWARE + i), White(size), FRAMES)
  }

  function StartShots(size: nat, duration: int): seq<Shot> {
    seq(ON_HARDWARE, (i: nat) => Shot(i, White(size), i * duration, false))
  }

  /** `Output::setFrame`; it answers E_OUTOFMEMORY when no frame is free. */
  function Accept(o: OutState, picture: Picture): OutState {
    if o.completed == [] then o
    else o.(mem := Poke(o.mem, o.completed[0], picture),
            output := o.output + [o.completed[0]],
            completed := o.completed[1..])
  }

  /** `Output::ScheduledFrameCompleted` for frame `f`. */
  function Complete(o: OutState, f: nat, result: Completion, duration: int): (OutState, Shot) {
    var free := o.completed + [f];
    var total := o.total + if Skips(result) then 2 else 0;
    if o.output == [] then
      (o.(mem := Poke(o.mem, free[0], o.last), completed := free[1..], total := total + 1),
       Shot(free[0], o.last, total * duration, false))
    else
      var picture := Peek(o.mem, o.output[0]);
      (o.(output := o.output[1..], completed := free, last := picture, total := total + 1),
       Shot(o.output[0], picture, total * duration, true))
  }

  /** `now` is `was` after frame `f` came back and `out` was picked to be scheduled. */
  ghost predicate Picks(was: OutState, f: nat, now: OutState, out: nat, picture: Picture) {
    && now.last == picture && now.total == was.total
    && if was.output == [] then
         && out == (was.completed + [f])[0] && picture == was.last
         && now.output == [] && now.completed == (was.completed + [f])[1..]
         && now.mem == Poke(was.mem, out, picture)
       else
         && out == was.output[0] && picture == Peek(was.mem, out)
         && now.output == was.output[1..] && now.completed == was.completed + [f]
         && now.mem == was.mem
  }

  lemma {:induction false} PicksThenSchedules(was: OutState, f: nat, now: OutState, out: nat, picture: Picture, result: Completion, duration: int)
    requires Picks(was, f, now, out, picture)
    ensures var total := was.total + if Skips(result) then 2 else 0;
      Complete(was, f, result, duration) == (now.(total := total + 1), Shot(out, picture, total * duration, was.output != []))
  {
  }

  class Output {
    var width: nat
    var height: nat
    const size: nat
    const duration: int
    var totalFramesScheduled: nat
    var lastFrame: Buffer
    var outputFrames: seq<Buffer>
    var completedFrames: seq<Buffer>
    ghost var frames: seq<Buffer>
    ghost var scheduled: seq<Shot>

    ghost predicate Valid()
      reads this, frames, lastFrame
    {
      && |frames| == FRAMES && Numbered(frames)
      && From(outputFrames, frames) && From(completedFrames, frames)
      && lastFrame !in frames
      && width * height * 4 == size
      && |lastFrame.bytes| == size
      && (forall i :: 0 <= i < |frames| ==> |frames[i].bytes| == size)
    }

    /** What `setFrame` may change. */
    ghost function Footprint(): set<object>
      reads this
    {
      var all: set<object> := set f | f in frames; all + {this}
    }

    ghost function State(): OutState
      reads this, frames, lastFrame
    {
      OutState(Memory(frames), Ids(outputFrames), Ids(completedFrames), lastFrame.bytes, totalFramesScheduled)
    }

    constructor (width: nat, height: nat, duration: int)
      ensures Valid() && size == width * height * 4 && this.duration == duration
      ensures State() == StartState(size) && scheduled == StartShots(size, duration)
      ensures fresh(frames) && fresh(lastFrame)
      ensures |frames| == 10 && |scheduled| == 5 && |completedFrames| == 5 && outputFrames == [] && totalFramesScheduled == 10
      ensures forall i, k :: 0 <= i < 10 && 0 <= k < |frames[i].bytes| ==> frames[i].bytes[k] == 0xFF
      ensures forall k :: 0 <= k < |lastFrame.bytes| ==> lastFrame.bytes[k] == 0xFF
      ensures forall i :: 0 <= i < 5 ==> scheduled[i] == Shot(i, frames[i].bytes, i * duration, false)
      ensures forall i :: 0 <= i < 5 ==> completedFrames[i] == frames[i + 5]
    {
      var size := width * height * 4;
      var total := 0;
      var made: seq<Buffer>, completed: seq<Buffer> := [], [];
      ghost var shots: seq<Shot> := [];
      for i := 0 to FRAMES
        invariant total == i == |made| && Numbered(made) && fresh(made)
        invariant completed == if i <= ON_HARDWARE then [] else made[ON_HARDWARE..]
        invariant forall k :: 0 <= k < |made| ==> made[k].bytes == White(size)
        invariant shots == if i < ON_HARDWARE then StartShots(size, duration)[..i] else StartShots(size, duration)
      {
        var outputFrame := new Buffer(i, White(size));
        made := made + [outputFrame];
        if i < 5 {
          shots := shots + [Shot(i, outputFrame.bytes, total * duration, false)];
        } else {
          completed := completed + [outputFrame];
        }
        total := total + 1;
      }
      var cache := new Buffer(FRAMES, White(size));
      this.width, this.height, this.size, this.duration := width, height, size, duration;
      totalFramesScheduled := total;
      lastFrame, outputFrames, completedFrames := cache, [], completed;
      frames, scheduled := made, shots;
      new;
      assert Memory(frames) == StartState(size).mem;
      assert Ids(completedFrames) == StartState(size).completed;
    }

    method SetFrame(frame: Picture, framelen: nat, width: nat, height: nat) returns (ok: bool)
      requires Valid() && framelen == width * height * 4 == size && framelen <= |frame|
      modifies this, frames
      ensures Valid() && frames == old(frames) && lastFrame == old(lastFrame) && scheduled == old(scheduled)
      ensures ok <==> old(completedFrames) != []
      ensures State() == Accept(old(State()), frame[..framelen])
      ensures ok ==>
        && completedFrames == old(completedFrames)[1..] && outputFrames == old(outputFrames) + [old(completedFrames)[0]]
        && old(completedFrames[0]).bytes == frame[..framelen]
      ensures !ok ==> completedFrames == old(completedFrames) && outputFrames == old(outputFrames)
    {
      if completedFrames == [] {
        return false;
      }
      var outframe := completedFrames[0];
      completedFrames := completedFrames[1..];
      outputFrames := outputFrames + [outframe];
      Fill(frames, outframe, frame, framelen);
      this.width, this.height := width, height;
      assert Ids(completedFrames) == old(Ids(completedFrames))[1..];
      assert Ids(outputFrames) == old(Ids(outputFrames)) + [outframe.id];
      return true;
    }

    /** Nothing new is waiting: the longest free frame gets the last picture again. */
    method Repeat(device: Buffer) returns (outframe: Buffer)
      requires Valid() && device in frames && outputFrames == []
      modifies this`completedFrames, frames
      ensures Valid() && outframe.bytes == lastFrame.bytes
      ensures outframe == old(completedFrames + [device])[0] && completedFrames == old(completedFrames + [device])[1..]
      ensures Picks(old(State()), device.id, State(), outframe.id, outframe.bytes)
    {
      completedFrames := completedFrames + [device];
      assert Ids(completedFrames) == old(Ids(completedFrames)) + [device.id];
      outframe := completedFrames[0];
      completedFrames := completedFrames[1..];
      assert Ids(completedFrames) == old(Ids(completedFrames) + [device.id])[1..];
      Fill(frames, outframe, lastFrame.bytes, width * height * 4);
    }

    /** The longest waiting frame is shown, and its picture kept. */
    method ShowNext(device: Buffer) returns (outframe: Buffer)
      requires Valid() && device in frames && outputFrames != []
      modifies this`completedFrames, this`outputFrames, lastFrame
      ensures Valid()
      ensures outframe == old(outputFrames)[0] && outputFrames == old(outputFrames)[1..] && completedFrames == old(completedFrames) + [device]
      ensures lastFrame.bytes == outframe.bytes == old(outputFrames[0].bytes)
      ensures Picks(old(State()), device.id, State(), outframe.id, outframe.bytes)
    {
      completedFrames := completedFrames + [device];
      outframe := outputFrames[0];
      outputFrames := outputFrames[1..];
      MemCpy(lastFrame, outframe.bytes, width * height * 4);
      assert Ids(completedFrames) == old(Ids(completedFrames)) + [device.id];
      assert Ids(outputFrames) == old(Ids(outputFrames))[1..];
      assert Memory(frames) == old(Memory(frames));
    }

    /** `device` is a frame the hardware held, so it is in neither queue. */
    method ScheduledFrameCompleted(device: Buffer, result: Completion)
      requires Valid() && device in frames
      modifies this, frames, lastFrame
      ensures Valid() && frames == old(frames) && lastFrame == old(lastFrame)
      ensures State() == Complete(old(State()), device.id, result, duration).0
      ensures scheduled == old(scheduled) + [Complete(old(State()), device.id, result, duration).1]
      ensures totalFramesScheduled == old(totalFramesScheduled) + match result
        case Completed => 1 case Flushed => 1 case DisplayedLate => 3 case Dropped => 3
      ensures |scheduled| == |old(scheduled)| + 1
      ensures scheduled[|old(scheduled)|].time == duration * match result
        case Completed => old(totalFramesScheduled) case Flushed => old(totalFramesScheduled)
        case DisplayedLate => old(totalFramesScheduled) + 2 case Dropped => old(totalFramesScheduled) + 2
      ensures var shot := scheduled[|old(scheduled)|];
        if old(outputFrames) == [] then
          && shot.frame == old(completedFrames + [device])[0].id && shot.picture == old(lastFrame.bytes) == lastFrame.bytes
          && completedFrames == old(completedFrames + [device])[1..] && outputFrames == []
        else
          && shot.frame == old(outputFrames)[0].id && shot.picture == old(outputFrames[0].bytes) == lastFrame.bytes
          && completedFrames == old(completedFrames) + [device] && outputFrames == old(outputFrames)[1..]
    {
      var outframe: Buffer;
      ghost var was := State();
      if outputFrames == [] {
        outframe := Repeat(device);
      } else {
        outframe := ShowNext(device);
      }
      ghost var now := State();
      PicksThenSchedules(was, device.id, now, outframe.id, outframe.bytes, result, duration);
      Schedule(outframe, result, was.output != []);
      assert State() == now.(total := totalFramesScheduled);
    }

    /** `ScheduleVideoFrame` and the counter around it. */
    method Schedule(outframe: Buffer, result: Completion, ghost isNew: bool)
      modifies this`totalFramesScheduled, this`scheduled
      ensures totalFramesScheduled == old(totalFramesScheduled) + match result
        case Completed => 1 case Flushed => 1 case DisplayedLate => 3 case Dropped => 3
      ensures scheduled == old(scheduled) + [Shot(outframe.id, outframe.bytes, (totalFramesScheduled - 1) * duration, isNew)]
    {
      if result.DisplayedLate? || result.Dropped? {
        totalFramesScheduled := totalFramesScheduled + 2;
      }
      scheduled := scheduled + [Shot(outframe.id, outframe.bytes, totalFramesScheduled * duration, isNew)];
      totalFramesScheduled := totalFramesScheduled + 1;
    }
  }
}
