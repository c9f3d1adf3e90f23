/**
 * Every place where the main program's own code takes a mutex, and why no set of
 * threads can wait for each other in a circle.  Driver calls are assumed not to
 * wait for callbacks.  Locks inside the libraries, and those of the separate
 * example programs, are not part of this model.
 */
module LockOrder {
  import opened Wrappers

  datatype Lock =
    | DeviceMtx
    | OutputMtx
    | InstanceMtx(i: nat)   // instance::mtx_, the three event queues
    | ImageMtx(i: nat)      // instance::mtx_image_
    | PipelineMtx           // bres::_mtx in bm.cc
    | EventsMtx             // events_t::mtx_, telnet commands
    | AudioRenderLock(i: nat)  // AudioRender::lock_, one for each instance

  datatype Action = Acquire(l: Lock) | Release(l: Lock)

  /** One call that takes locks. */
  datatype Task =
    | DeviceNotification        // DeckLinkDeviceArrived, DeckLinkDeviceRemoved
    | DeviceSetFrame            // Device::setFrame, which calls Output::setFrame
    | FrameCompleted            // Output::ScheduledFrameCompleted
    | RenderAudio(channels: seq<nat>)  // RenderAudioSamples, whose callback pops each channel's audio
    | EventCall(i: nat)         // push_event, pop_event
    | ImageCall(i: nat)         // event_init, event_quit, push_bin_event, pop_bin_event
    | PipelineCall              // the locked parts of bm_pipeline_service and bm_add_pipeline_frame
    | CommandCall               // telnet push, main loop pop
    | AudioRenderCall(i: nat)   // RegisterAudioCallback, StartPlayout, StopPlayout, StartRecording, ..., Recording

  function Around(l: Lock, inner: seq<Action>): seq<Action> {
    [Acquire(l)] + inner + [Release(l)]
  }

  function AudioPops(channels: seq<nat>): seq<Action> {
    if channels == [] then [] else Around(InstanceMtx(channels[0]), []) + AudioPops(channels[1..])
  }

  function Actions(t: Task): seq<Action> {
    match t
    case DeviceNotification => Around(DeviceMtx, [])
    case DeviceSetFrame => Around(DeviceMtx, Around(OutputMtx, []))
    case FrameCompleted => Around(OutputMtx, [])
    case RenderAudio(channels) => Around(OutputMtx, AudioPops(channels))
    case EventCall(i) => Around(InstanceMtx(i), [])
    case ImageCall(i) => Around(ImageMtx(i), [])
    case PipelineCall => Around(PipelineMtx, [])
    case CommandCall => Around(EventsMtx, [])
    case AudioRenderCall(i) => Around(AudioRenderLock(i), [])
  }

  /** A thread makes any calls, any number of times, in any order. */
  function Program(tasks: seq<Task>): seq<Action> {
    if tasks == [] then [] else Actions(tasks[0]) + Program(tasks[1..])
  }

  const TOP: nat := 2

  function Rank(l: Lock): nat {
    match l
    case DeviceMtx => 0
    case OutputMtx => 1
    case _ => TOP
  }

  /** From holding `held`, the actions take locks in rising rank and give all back. */
  ghost predicate Ordered(acts: seq<Action>, held: set<Lock>) {
    if acts == [] then held == {}
    else match acts[0]
      case Acquire(l) => (forall h :: h in held ==> Rank(h) < Rank(l)) && Ordered(acts[1..], held + {l})
      case Release(l) => l in held && Ordered(acts[1..], held - {l})
  }

  lemma {:induction false} OrderedThen(a: seq<Action>, b: seq<Action>, held: set<Lock>)
    requires Ordered(a, held) && Ordered(b, {})
    ensures Ordered(a + b, held)
  {
    if a == [] {
      assert a + b == b;
    } else {
      assert (a + b)[1..] == a[1..] + b;
      match a[0]
      case Acquire(l) => OrderedThen(a[1..], b, held + {l});
      case Release(l) => OrderedThen(a[1..], b, held - {l});
    }
  }

  lemma {:induction false} AcquireFirst(l: Lock, rest: seq<Action>, held: set<Lock>)
    requires (forall h :: h in held ==> Rank(h) < Rank(l)) && Ordered(rest, held + {l})
    ensures Ordered([Acquire(l)] + rest, held)
  {
    assert ([Acquire(l)] + rest)[1..] == rest;
  }

  lemma {:induction false} ReleaseFirst(l: Lock, rest: seq<Action>, held: set<Lock>)
    requires l in held && Ordered(rest, held - {l})
    ensures Ordered([Release(l)] + rest, held)
  {
    assert ([Release(l)] + rest)[1..] == rest;
  }

  /** A lock above all those held, around a stretch of actions and what follows it. */
  lemma {:induction false} AroundThen(l: Lock, rest: seq<Action>, held: set<Lock>)
    requires (forall h :: h in held ==> Rank(h) < Rank(l)) && Ordered(rest, held)
    ensures Ordered([Acquire(l)] + ([Release(l)] + rest), held)
  {
    assert held + {l} - {l} == held;
    ReleaseFirst(l, rest, held + {l});
    AcquireFirst(l, [Release(l)] + rest, held);
  }

  lemma {:induction false} LastRelease(l: Lock)
    ensures Ordered([Release(l)], {l})
  {
    assert [Release(l)] + [] == [Release(l)];
    ReleaseFirst(l, [], {l});
  }

  /** The per-channel pops, done while only the output's lock is held. */
  lemma {:induction false} AudioPopsOrdered(channels: seq<nat>)
    ensures Ordered(AudioPops(channels) + [Release(OutputMtx)], {OutputMtx})
  {
    var last := [Release(OutputMtx)];
    if channels == [] {
      LastRelease(OutputMtx);
      assert AudioPops(channels) + last == last;
    } else {
      var l, pops := InstanceMtx(channels[0]), AudioPops(channels[1..]);
      AudioPopsOrdered(channels[1..]);
      AroundThen(l, pops + last, {OutputMtx});
      assert AudioPops(channels) + last == [Acquire(l)] + ([Release(l)] + (pops + last));
    }
  }

  lemma {:induction false} Alone(l: Lock)
    ensures Ordered(Around(l, []), {})
  {
    AroundThen(l, [], {});
    assert Around(l, []) == [Acquire(l)] + ([Release(l)] + []);
  }

  lemma {:induction false} DeviceThenOutput()
    ensures Ordered(Around(DeviceMtx, Around(OutputMtx, [])), {})
  {
    var last := [Release(DeviceMtx)];
    LastRelease(DeviceMtx);
    AroundThen(OutputMtx, last, {DeviceMtx});
    assert {} + {DeviceMtx} == {DeviceMtx};
    AcquireFirst(DeviceMtx, [Acquire(OutputMtx)] + ([Release(OutputMtx)] + last), {});
    assert Around(DeviceMtx, Around(OutputMtx, [])) == [Acquire(DeviceMtx)] + ([Acquire(OutputMtx)] + ([Release(OutputMtx)] + last));
  }

  lemma {:induction false} OutputThenChannels(channels: seq<nat>)
    ensures Ordered(Around(OutputMtx, AudioPops(channels)), {})
  {
    var rest := AudioPops(channels) + [Release(OutputMtx)];
    AudioPopsOrdered(channels);
    assert {} + {OutputMtx} == {OutputMtx};
    AcquireFirst(OutputMtx, rest, {});
    assert Around(OutputMtx, AudioPops(channels)) == [Acquire(OutputMtx)] + rest;
  }

  /** The calls that hold one lock while they take another: the device's call of
      `setFrame`, and the audio callback, which pops channel after channel. */
  lemma {:induction false} NestedCalls(channels: seq<nat>, k: nat)
    ensures Actions(DeviceSetFrame) == [Acquire(DeviceMtx), Acquire(OutputMtx), Release(OutputMtx), Release(DeviceMtx)]
    ensures var acts := Actions(RenderAudio(channels));
      && |acts| == 2 * |channels| + 2 && acts[0] == Acquire(OutputMtx) && acts[|acts| - 1] == Release(OutputMtx)
      && (k < |channels| ==> acts[2 * k + 1] == Acquire(InstanceMtx(channels[k])) && acts[2 * k + 2] == Release(InstanceMtx(channels[k])))
  {
    PopsInOrder(channels, k);
  }

  lemma {:induction false} PopsInOrder(channels: seq<nat>, k: nat)
    ensures |AudioPops(channels)| == 2 * |channels|
    ensures k < |channels| ==>
      && AudioPops(channels)[2 * k] == Acquire(InstanceMtx(channels[k]))
      && AudioPops(channels)[2 * k + 1] == Release(InstanceMtx(channels[k]))
  {
    if channels != [] { PopsInOrder(channels[1..], if k > 0 then k - 1 else 0); }
  }

  /** All other calls take one lock and give it back. */
  lemma {:induction false} SingleCalls(i: nat)
    ensures Actions(DeviceNotification) == [Acquire(DeviceMtx), Release(DeviceMtx)]
    ensures Actions(FrameCompleted) == [Acquire(OutputMtx), Release(OutputMtx)]
    ensures Actions(EventCall(i)) == [Acquire(InstanceMtx(i)), Release(InstanceMtx(i))]
    ensures Actions(ImageCall(i)) == [Acquire(ImageMtx(i)), Release(ImageMtx(i))]
    ensures Actions(PipelineCall) == [Acquire(PipelineMtx), Release(PipelineMtx)]
    ensures Actions(CommandCall) == [Acquire(EventsMtx), Release(EventsMtx)]
    ensures Actions(AudioRenderCall(i)) == [Acquire(AudioRenderLock(i)), Release(AudioRenderLock(i))]
  {
  }

  /** Every call in the program keeps to the rank order. */
  lemma {:induction false} EveryTaskIsOrdered(t: Task)
    ensures Ordered(Actions(t), {})
  {
    match t
    case RenderAudio(channels) => OutputThenChannels(channels);
    case DeviceSetFrame => DeviceThenOutput();
    case _ => Alone(Actions(t)[0].l);
  }

  lemma {:induction false} EveryProgramIsOrdered(tasks: seq<Task>)
    ensures Ordered(Program(tasks), {})
  {
    if tasks != [] {
      EveryTaskIsOrdered(tasks[0]);
      EveryProgramIsOrdered(tasks[1..]);
      OrderedThen(Actions(tasks[0]), Program(tasks[1..]), {});
    }
  }

  // ---- Any number of threads, interleaved ----

  datatype Thread = Thread(todo: seq<Action>, held: set<Lock>)

  predicate Free(ts: seq<Thread>, l: Lock) {
    forall j :: 0 <= j < |ts| ==> l !in ts[j].held
  }

  /** A thread waits when its next action takes a lock that is not free. */
  predicate CanStep(ts: seq<Thread>, i: nat) {
    i < |ts| && ts[i].todo != [] && (ts[i].todo[0].Acquire? ==> Free(ts, ts[i].todo[0].l))
  }

  function Step(ts: seq<Thread>, i: nat): seq<Thread>
    requires CanStep(ts, i)
  {
    var t := ts[i];
    match t.todo[0]
    case Acquire(l) => ts[i := Thread(t.todo[1..], t.held + {l})]
    case Release(l) => ts[i := Thread(t.todo[1..], t.held - {l})]
  }

  function Start(programs: seq<seq<Task>>): seq<Thread> {
    seq(|programs|, i requires 0 <= i < |programs| => Thread(Program(programs[i]), {}))
  }

  /** `schedule` says which thread moves at each step. */
  function Exec(programs: seq<seq<Task>>, schedule: seq<nat>): Option<seq<Thread>> {
    if schedule == [] then Some(Start(programs))
    else match Exec(programs, schedule[..|schedule| - 1])
      case None => None
      case Some(ts) =>
        var i := schedule[|schedule| - 1];
        if CanStep(ts, i) then Some(Step(ts, i)) else None
  }

  ghost predicate Inv(ts: seq<Thread>) {
    && (forall i :: 0 <= i < |ts| ==> Ordered(ts[i].todo, ts[i].held))
    && (forall i, j :: 0 <= i < j < |ts| ==> ts[i].held !! ts[j].held)
  }

  lemma {:induction false} RunKeepsInv(programs: seq<seq<Task>>, schedule: seq<nat>)
    requires Exec(programs, schedule).Some?
    ensures Inv(Exec(programs, schedule).value)
  {
    if schedule == [] {
      forall i | 0 <= i < |programs| ensures Ordered(Program(programs[i]), {}) {
        EveryProgramIsOrdered(programs[i]);
      }
    } else {
      RunKeepsInv(programs, schedule[..|schedule| - 1]);
    }
  }

  /** Thread `i` waits for a lock that a thread in `group` holds. */
  ghost predicate WaitsFor(ts: seq<Thread>, i: nat, group: set<nat>) {
    && i < |ts| && ts[i].todo != [] && ts[i].todo[0].Acquire?
    && exists j :: j in group && j < |ts| && ts[i].todo[0].l in ts[j].held
  }

  /** Follow the waits: each one leads to a higher rank, so the chase ends. */
  lemma {:induction false} Chase(ts: seq<Thread>, group: set<nat>, i: nat) returns (free: nat)
    requires Inv(ts) && i in group
    ensures free in group && !WaitsFor(ts, free, group)
    decreases if WaitsFor(ts, i, group) then TOP + 1 - Rank(ts[i].todo[0].l) else 0
  {
    free := i;
    if WaitsFor(ts, i, group) {
      var l := ts[i].todo[0].l;
      var j :| j in group && j < |ts| && l in ts[j].held;
      free := Chase(ts, group, j);
    }
  }

  /** Deadlock freedom: in no reachable state does a non-empty set of threads
      consist of threads that each wait for a lock held within the set. */
  lemma {:induction false} NoCircularWait(programs: seq<seq<Task>>, schedule: seq<nat>, group: set<nat>)
    requires Exec(programs, schedule).Some? && group != {}
    ensures exists i :: i in group && !WaitsFor(Exec(programs, schedule).value, i, group)
  {
    RunKeepsInv(programs, schedule);
    var i :| i in group;
    var free := Chase(Exec(programs, schedule).value, group, i);
  }

  /** Progress: as long as some thread has something left to do, one can move. */
  lemma {:induction false} SomeThreadCanMove(programs: seq<seq<Task>>, schedule: seq<nat>, i: nat)
    requires Exec(programs, schedule).Some?
    requires i < |Exec(programs, schedule).value| && Exec(programs, schedule).value[i].todo != []
    ensures exists j :: CanStep(Exec(programs, schedule).value, j)
  {
    RunKeepsInv(programs, schedule);
    var ts := Exec(programs, schedule).value;
    var unfinished := set j: nat | j < |ts| && ts[j].todo != [];
    var j := Chase(ts, unfinished, i);
    assert CanStep(ts, j);
  }
}
