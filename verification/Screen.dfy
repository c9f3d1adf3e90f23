/**
 * An output together with the hardware: `setFrame` calls and frame completions
 * in any order (src/bm.cc:252-316).  The main result is that the ten driver
 * frames, the two queues and the cached copy implement a plain hold-last display
 * with room for five waiting pictures.
 */
module Screen {
  import opened Buffers
  import opened Counting
  import opened DriverOutput
  import opened Wrappers

  /** `hw` are the frames the hardware holds, with what was scheduled in them;
      `shots`, `accepted` and `results` are histories. */
  datatype Screen = Screen(o: OutState, hw: seq<Shot>, shots: seq<Shot>, accepted: seq<Picture>, results: seq<Completion>)

  /** The hardware may complete its frames in any order. */
  datatype Event = Set(picture: Picture) | Completes(i: nat, result: Completion)

  function Start(size: nat, duration: int): Screen {
    Screen(StartState(size), StartShots(size, duration), StartShots(size, duration), [], [])
  }

  predicate Enabled(s: Screen, e: Event, size: nat) {
    match e
    case Set(picture) => |picture| == size
    case Completes(i, result) => i < |s.hw|
  }

  function Step(s: Screen, e: Event, size: nat, duration: int): Screen
    requires Enabled(s, e, size)
  {
    match e
    case Set(picture) =>
      if s.o.completed == [] then s
      else s.(o := Accept(s.o, picture), accepted := s.accepted + [picture])
    case Completes(i, result) =>
      var (o, shot) := Complete(s.o, s.hw[i].frame, result, duration);
      Screen(o, s.hw[..i] + s.hw[i + 1..] + [shot], s.shots + [shot], s.accepted, s.results + [result])
  }

  function Exec(es: seq<Event>, size: nat, duration: int): Option<Screen> {
    if es == [] then Some(Start(size, duration))
    else match Exec(es[..|es| - 1], size, duration)
      case None => None
      case Some(s) =>
        var e := es[|es| - 1];
        if Enabled(s, e, size) then Some(Step(s, e, size, duration)) else None
  }

  // ---- Where the ten frames are ----

  function Frames(shots: seq<Shot>): seq<nat> {
    seq(|shots|, i requires 0 <= i < |shots| => shots[i].frame)
  }

  ghost predicate Partition(s: Screen) {
    && |s.hw| == ON_HARDWARE
    && |s.o.mem| == FRAMES
    && multiset(Frames(s.hw)) + multiset(s.o.output) + multiset(s.o.completed) == multiset(Upto(FRAMES))
  }

  lemma {:induction false} FrameOnce(s: Screen, f: nat)
    requires Partition(s)
    ensures multiset(Frames(s.hw))[f] + multiset(s.o.output)[f] + multiset(s.o.completed)[f] == if f < FRAMES then 1 else 0
  {
    UptoOnce(FRAMES, f);
    assert (multiset(Frames(s.hw)) + multiset(s.o.output) + multiset(s.o.completed))[f] == multiset(Upto(FRAMES))[f];
  }

  /** The frames that a step may read or write are apart from each other. */
  ghost predicate Apart(s: Screen) {
    && (forall i :: 0 <= i < |s.hw| ==> s.hw[i].frame < FRAMES)
    && (forall i :: 0 <= i < |s.o.output| ==> s.o.output[i] < FRAMES)
    && (forall i :: 0 <= i < |s.o.completed| ==> s.o.completed[i] < FRAMES)
    && (forall i, j :: 0 <= i < |s.hw| && 0 <= j < |s.o.completed| ==> s.hw[i].frame != s.o.completed[j])
    && (forall i, j :: 0 <= i < |s.o.output| && 0 <= j < |s.o.completed| ==> s.o.output[i] != s.o.completed[j])
    && (forall i, j :: 0 <= i < |s.hw| && 0 <= j < |s.o.output| ==> s.hw[i].frame != s.o.output[j])
    && (forall i, j :: 0 <= i < j < |s.hw| ==> s.hw[i].frame != s.hw[j].frame)
  }

  lemma {:induction false} PartitionIsApart(s: Screen)
    requires Partition(s)
    ensures Apart(s)
  {
    var hw := Frames(s.hw);
    forall i | 0 <= i < |s.hw| ensures s.hw[i].frame < FRAMES && s.hw[i].frame !in s.o.completed && s.hw[i].frame !in s.o.output {
      assert hw[i] in multiset(hw);
      FrameOnce(s, hw[i]);
    }
    forall i | 0 <= i < |s.o.output| ensures s.o.output[i] < FRAMES && s.o.output[i] !in s.o.completed {
      assert s.o.output[i] in multiset(s.o.output);
      FrameOnce(s, s.o.output[i]);
    }
    forall i | 0 <= i < |s.o.completed| ensures s.o.completed[i] < FRAMES && s.o.completed[i] in s.o.completed {
      assert s.o.completed[i] in multiset(s.o.completed);
      FrameOnce(s, s.o.completed[i]);
    }
    forall i, j | 0 <= i < |s.hw| && 0 <= j < |s.o.output| ensures s.hw[i].frame != s.o.output[j] {
      assert s.o.output[j] in s.o.output;
    }
    forall i, j | 0 <= i < j < |s.hw| ensures s.hw[i].frame != s.hw[j].frame {
      FrameOnce(s, hw[i]);
      if hw[i] == hw[j] { AppearsTwice(hw, i, j); }
    }
  }

  lemma {:induction false} RepeatMoves(hw: seq<nat>, i: nat, output: seq<nat>, completed: seq<nat>)
    requires i < |hw|
    ensures multiset(hw[..i] + hw[i + 1..] + [(completed + [hw[i]])[0]]) + multiset(output) + multiset((completed + [hw[i]])[1..])
      == multiset(hw) + multiset(output) + multiset(completed)
  {
    var rest, free := hw[..i] + hw[i + 1..], completed + [hw[i]];
    RemoveAt(hw, i);
    PopFront(free);
    assert multiset(rest + [free[0]]) + multiset(free[1..]) == multiset(rest) + multiset(free);
    assert multiset(free) == multiset(completed) + multiset{hw[i]};
    assert multiset(rest) + multiset(free) == multiset(hw) + multiset(completed);
    Between(multiset(rest + [free[0]]), multiset(free[1..]), multiset(hw), multiset(completed), multiset(output));
  }

  lemma {:induction false} Between(a: multiset<nat>, b: multiset<nat>, c: multiset<nat>, d: multiset<nat>, m: multiset<nat>)
    requires a + b == c + d
    ensures a + m + b == c + m + d
  {
    assert a + m + b == (a + b) + m;
    assert c + m + d == (c + d) + m;
  }

  lemma {:induction false} ShowMoves(hw: seq<nat>, i: nat, output: seq<nat>, completed: seq<nat>)
    requires i < |hw| && output != []
    ensures multiset(hw[..i] + hw[i + 1..] + [output[0]]) + multiset(output[1..]) + multiset(completed + [hw[i]])
      == multiset(hw) + multiset(output) + multiset(completed)
  {
    RemoveAt(hw, i);
    PopFront(output);
  }

  lemma {:induction false} FramesAfter(hw: seq<Shot>, i: nat, shot: Shot)
    requires i < |hw|
    ensures Frames(hw[..i] + hw[i + 1..] + [shot]) == Frames(hw)[..i] + Frames(hw)[i + 1..] + [shot.frame]
  {
  }

  lemma {:induction false} SetKeepsPartition(s: Screen, picture: Picture, size: nat, duration: int)
    requires Partition(s) && |picture| == size
    ensures Partition(Step(s, Set(picture), size, duration))
  {
    if s.o.completed != [] { PopFront(s.o.completed); }
  }

  lemma {:induction false} RepeatKeepsPartition(s: Screen, i: nat, result: Completion, size: nat, duration: int)
    requires Partition(s) && i < |s.hw| && s.o.output == []
    ensures Partition(Step(s, Completes(i, result), size, duration))
  {
    var hw, free := Frames(s.hw), s.o.completed + [s.hw[i].frame];
    var t := Step(s, Completes(i, result), size, duration);
    FramesAfter(s.hw, i, t.shots[|s.shots|]);
    RepeatMoves(hw, i, s.o.output, s.o.completed);
    assert Frames(t.hw) == hw[..i] + hw[i + 1..] + [free[0]];
    assert t.o.completed == free[1..] && t.o.output == s.o.output;
  }

  lemma {:induction false} ShowKeepsPartition(s: Screen, i: nat, result: Completion, size: nat, duration: int)
    requires Partition(s) && i < |s.hw| && s.o.output != []
    ensures Partition(Step(s, Completes(i, result), size, duration))
  {
    var hw := Frames(s.hw);
    var t := Step(s, Completes(i, result), size, duration);
    FramesAfter(s.hw, i, t.shots[|s.shots|]);
    ShowMoves(hw, i, s.o.output, s.o.completed);
    assert Frames(t.hw) == hw[..i] + hw[i + 1..] + [s.o.output[0]] && t.o.completed == s.o.completed + [hw[i]];
  }

  lemma {:induction false} StepKeepsPartition(s: Screen, e: Event, size: nat, duration: int)
    requires Partition(s) && Enabled(s, e, size)
    ensures Partition(Step(s, e, size, duration))
  {
    match e
    case Set(picture) => SetKeepsPartition(s, picture, size, duration);
    case Completes(i, result) =>
      if s.o.output == [] {
        RepeatKeepsPartition(s, i, result, size, duration);
      } else {
        ShowKeepsPartition(s, i, result, size, duration);
      }
  }

  // ---- What the frames hold ----

  /** The pictures scheduled as new, in order. */
  function New(shots: seq<Shot>): seq<Picture> {
    if shots == [] then []
    else New(shots[..|shots| - 1]) + if shots[|shots| - 1].isNew then [shots[|shots| - 1].picture] else []
  }

  lemma {:induction false} NewSnoc(shots: seq<Shot>, x: Shot)
    ensures New(shots + [x]) == New(shots) + if x.isNew then [x.picture] else []
  {
    assert (shots + [x])[..|shots|] == shots;
  }

  lemma {:induction false} NothingNewAtStart(size: nat, duration: int, n: nat)
    requires n <= ON_HARDWARE
    ensures New(StartShots(size, duration)[..n]) == []
  {
    if n > 0 {
      NothingNewAtStart(size, duration, n - 1);
      assert StartShots(size, duration)[..n][..n - 1] == StartShots(size, duration)[..n - 1];
    }
  }

  ghost predicate Intact(s: Screen, size: nat) {
    && (forall f :: 0 <= f < |s.o.mem| ==> |s.o.mem[f]| == size)
    && (forall i :: 0 <= i < |s.hw| ==> Peek(s.o.mem, s.hw[i].frame) == s.hw[i].picture && s.hw[i] in s.shots)
    && |s.o.last| == size
    && s.accepted == New(s.shots) + Contents(s.o.mem, s.o.output)
    && s.shots != []
    && s.o.last == s.shots[|s.shots| - 1].picture
  }

  ghost predicate Inv(s: Screen, size: nat) {
    Partition(s) && Intact(s, size)
  }

  lemma {:induction false} SetKeepsIntact(s: Screen, picture: Picture, size: nat, duration: int)
    requires Inv(s, size) && Enabled(s, Set(picture), size)
    ensures Intact(Step(s, Set(picture), size, duration), size)
  {
    PartitionIsApart(s);
    var t := Step(s, Set(picture), size, duration);
    if s.o.completed != [] {
      assert Contents(t.o.mem, t.o.output) == Contents(s.o.mem, s.o.output) + [picture];
    }
  }

  lemma {:induction false} ContentsSplit(mem: seq<Picture>, ids: seq<nat>)
    requires ids != []
    ensures Contents(mem, ids) == [Peek(mem, ids[0])] + Contents(mem, ids[1..])
  {
  }

  lemma {:induction false} RepeatKeepsIntact(s: Screen, i: nat, result: Completion, size: nat, duration: int)
    requires Inv(s, size) && i < |s.hw| && s.o.output == []
    ensures Intact(Step(s, Completes(i, result), size, duration), size)
  {
    PartitionIsApart(s);
    var t := Step(s, Completes(i, result), size, duration);
    NewSnoc(s.shots, t.shots[|s.shots|]);
    assert Contents(t.o.mem, t.o.output) == [];
  }

  lemma {:induction false} ShowKeepsIntact(s: Screen, i: nat, result: Completion, size: nat, duration: int)
    requires Inv(s, size) && i < |s.hw| && s.o.output != []
    ensures Intact(Step(s, Completes(i, result), size, duration), size)
  {
    PartitionIsApart(s);
    var t := Step(s, Completes(i, result), size, duration);
    NewSnoc(s.shots, t.shots[|s.shots|]);
    ContentsSplit(s.o.mem, s.o.output);
  }

  lemma {:induction false} StepKeepsInv(s: Screen, e: Event, size: nat, duration: int)
    requires Inv(s, size) && Enabled(s, e, size)
    ensures Inv(Step(s, e, size, duration), size)
  {
    StepKeepsPartition(s, e, size, duration);
    match e
    case Set(picture) => SetKeepsIntact(s, picture, size, duration);
    case Completes(i, result) =>
      if s.o.output == [] {
        RepeatKeepsIntact(s, i, result, size, duration);
      } else {
        ShowKeepsIntact(s, i, result, size, duration);
      }
  }

  lemma {:induction false} StartInv(size: nat, duration: int)
    ensures Inv(Start(size, duration), size)
  {
    var s := Start(size, duration);
    assert Frames(s.hw) + s.o.completed == Upto(FRAMES);
    NothingNewAtStart(size, duration, ON_HARDWARE);
    assert s.shots[..ON_HARDWARE] == s.shots;
  }

  lemma {:induction false} RunKeepsInv(es: seq<Event>, size: nat, duration: int)
    requires Exec(es, size, duration).Some?
    ensures Inv(Exec(es, size, duration).value, size)
  {
    if es == [] {
      StartInv(size, duration);
    } else {
      RunKeepsInv(es[..|es| - 1], size, duration);
      StepKeepsInv(Exec(es[..|es| - 1], size, duration).value, es[|es| - 1], size, duration);
    }
  }

  /** Ten-frame partition: in every reachable state each driver frame is in
      exactly one place, five are on the hardware, and the queues hold the other five. */
  lemma {:induction false} EveryFrameHasOnePlace(es: seq<Event>, size: nat, duration: int, f: nat)
    requires Exec(es, size, duration).Some?
    ensures var s := Exec(es, size, duration).value;
      && multiset(Frames(s.hw))[f] + multiset(s.o.output)[f] + multiset(s.o.completed)[f] == (if f < FRAMES then 1 else 0)
      && |s.hw| == ON_HARDWARE
      && |s.o.output| + |s.o.completed| == FRAMES - ON_HARDWARE
  {
    RunKeepsInv(es, size, duration);
    var s := Exec(es, size, duration).value;
    FrameOnce(s, f);
    assert |multiset(Frames(s.hw)) + multiset(s.o.output) + multiset(s.o.completed)| == |multiset(Upto(FRAMES))|;
  }

  /** Each frame on the hardware still holds, byte for byte, what was scheduled in it. */
  lemma {:induction false} HardwareHoldsWhatWasScheduled(es: seq<Event>, size: nat, duration: int, i: nat)
    requires Exec(es, size, duration).Some?
    requires i < |Exec(es, size, duration).value.hw|
    ensures var s := Exec(es, size, duration).value;
      s.hw[i] in s.shots && Peek(s.o.mem, s.hw[i].frame) == s.hw[i].picture
  {
    RunKeepsInv(es, size, duration);
  }

  /** No step writes a frame the hardware keeps. */
  lemma {:induction false} NoScheduledFrameIsWritten(s: Screen, e: Event, size: nat, duration: int, i: nat)
    requires Inv(s, size) && Enabled(s, e, size)
    requires i < |s.hw| && !(e.Completes? && e.i == i)
    ensures Peek(Step(s, e, size, duration).o.mem, s.hw[i].frame) == Peek(s.o.mem, s.hw[i].frame)
  {
    PartitionIsApart(s);
  }

  /** At any moment any of the five frames on the hardware may complete, and any
      picture may be offered. */
  lemma {:induction false} AnyFrameMayComplete(es: seq<Event>, size: nat, duration: int, i: nat, result: Completion, picture: Picture)
    requires Exec(es, size, duration).Some? && i < 5 && |picture| == size
    ensures Exec(es + [Completes(i, result)], size, duration).Some?
    ensures Exec(es + [Set(picture)], size, duration).Some?
  {
    RunKeepsInv(es, size, duration);
    assert (es + [Completes(i, result)])[..|es|] == es;
    assert (es + [Set(picture)])[..|es|] == es;
  }
}
