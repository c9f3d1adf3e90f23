/**
 * The display an output is meant to be: pictures wait in a queue with room for
 * five; at each frame time the first waiting picture is shown, or the previous
 * one again when none waits.  It knows nothing of driver frames, the two queues
 * of addresses or the cached copy, and the output refines it in every run.
 */
module HoldLast {
  import opened Buffers
  import opened Counting
  import opened DriverOutput
  import opened Screen
  import opened Wrappers

  datatype Display = Display(shown: seq<Picture>, waiting: seq<Picture>)

  const ROOM: nat := FRAMES - ON_HARDWARE

  function PowerOn(size: nat): Display {
    Display(seq(ON_HARDWARE, _ => White(size)), [])
  }

  function Play(d: Display, e: Event): (r: Display)
    requires d.shown != []
    ensures r.shown != []
  {
    match e
    case Set(picture) =>
      if |d.waiting| == ROOM then d else d.(waiting := d.waiting + [picture])
    case Completes(i, result) =>
      if d.waiting == [] then d.(shown := d.shown + [d.shown[|d.shown| - 1]])
      else Display(d.shown + [d.waiting[0]], d.waiting[1..])
  }

  function PlayAll(d: Display, es: seq<Event>): (r: Display)
    requires d.shown != []
    ensures r.shown != []
  {
    if es == [] then d else Play(PlayAll(d, es[..|es| - 1]), es[|es| - 1])
  }

  // ---- Refinement ----

  function Pictures(shots: seq<Shot>): seq<Picture> {
    seq(|shots|, i requires 0 <= i < |shots| => shots[i].picture)
  }

  function View(s: Screen): Display {
    Display(Pictures(s.shots), Contents(s.o.mem, s.o.output))
  }

  lemma {:induction false} QueuesHoldFive(s: Screen)
    requires Partition(s)
    ensures |s.o.output| + |s.o.completed| == ROOM
  {
    assert |multiset(Frames(s.hw)) + multiset(s.o.output) + multiset(s.o.completed)| == |multiset(Upto(FRAMES))|;
  }

  lemma {:induction false} StepRefines(s: Screen, e: Event, size: nat, duration: int)
    requires Inv(s, size) && Enabled(s, e, size)
    ensures View(Step(s, e, size, duration)) == Play(View(s), e)
  {
    PartitionIsApart(s);
    QueuesHoldFive(s);
    var t := Step(s, e, size, duration);
    match e
    case Set(picture) =>
      if s.o.completed != [] {
        assert Contents(t.o.mem, t.o.output) == Contents(s.o.mem, s.o.output) + [picture];
      }
    case Completes(i, result) =>
      var shot := t.shots[|s.shots|];
      assert Pictures(t.shots) == Pictures(s.shots) + [shot.picture];
      if s.o.output != [] {
        assert Contents(s.o.mem, s.o.output) == [shot.picture] + Contents(t.o.mem, t.o.output);
      }
  }

  /** Hold-last refinement: for every order of `setFrame` calls and completions,
      whichever frame completes and however, the pictures scheduled and the
      pictures waiting are those of the plain display. */
  lemma {:induction false} OutputIsHoldLast(es: seq<Event>, size: nat, duration: int)
    requires Exec(es, size, duration).Some?
    ensures View(Exec(es, size, duration).value) == PlayAll(PowerOn(size), es)
  {
    if es == [] {
      var s := Start(size, duration);
      assert Pictures(s.shots) == PowerOn(size).shown;
      assert Contents(s.o.mem, s.o.output) == [];
    } else {
      var before := es[..|es| - 1];
      OutputIsHoldLast(before, size, duration);
      RunKeepsInv(before, size, duration);
      StepRefines(Exec(before, size, duration).value, es[|es| - 1], size, duration);
    }
  }

  /** `setFrame` refuses a picture exactly when five accepted ones are waiting. */
  lemma {:induction false} RefusedExactlyWhenFiveWait(es: seq<Event>, size: nat, duration: int)
    requires Exec(es, size, duration).Some?
    ensures Exec(es, size, duration).value.o.completed == [] <==> |PlayAll(PowerOn(size), es).waiting| == ROOM
  {
    RunKeepsInv(es, size, duration);
    OutputIsHoldLast(es, size, duration);
    QueuesHoldFive(Exec(es, size, duration).value);
  }

  // ---- What that means for each scheduled picture ----

  /** Shot `k` is the accepted picture whose turn it is, or a copy of shot `k - 1`. */
  ghost predicate NextOrRepeat(s: Screen, k: nat)
    requires 0 < k < |s.shots|
  {
    var shot := s.shots[k];
    var already := |New(s.shots[..k])|;
    if shot.isNew then already < |s.accepted| && shot.picture == s.accepted[already]
    else shot.picture == s.shots[k - 1].picture
  }

  ghost predicate Explained(s: Screen, size: nat) {
    && |s.shots| >= ON_HARDWARE
    && (forall k :: 0 <= k < ON_HARDWARE ==> s.shots[k].picture == White(size))
    && (forall k :: ON_HARDWARE <= k < |s.shots| ==> NextOrRepeat(s, k))
  }

  lemma {:induction false} EarlierShotsStayExplained(s: Screen, t: Screen, k: nat)
    requires 0 < k < |s.shots| && NextOrRepeat(s, k)
    requires s.shots <= t.shots && s.accepted <= t.accepted
    ensures NextOrRepeat(t, k)
  {
    assert t.shots[..k] == s.shots[..k];
  }

  lemma {:induction false} StepKeepsExplained(s: Screen, e: Event, size: nat, duration: int)
    requires Inv(s, size) && Enabled(s, e, size) && Explained(s, size)
    ensures Explained(Step(s, e, size, duration), size)
  {
    var t := Step(s, e, size, duration);
    forall k | ON_HARDWARE <= k < |s.shots| ensures NextOrRepeat(t, k) {
      EarlierShotsStayExplained(s, t, k);
    }
    if e.Completes? {
      assert t.shots[..|s.shots|] == s.shots;
      if s.o.output != [] {
        assert s.accepted[|New(s.shots)|] == Contents(s.o.mem, s.o.output)[0];
      }
      assert NextOrRepeat(t, |s.shots|);
    }
  }

  /** Accepted pictures are those already shown as new followed by those waiting,
      and each scheduled picture is the next accepted one or a copy of the one
      before it; the first five are the white fill. */
  lemma {:induction false} EachShotIsNextOrRepeat(es: seq<Event>, size: nat, duration: int)
    requires Exec(es, size, duration).Some?
    ensures var s := Exec(es, size, duration).value;
      && s.accepted == New(s.shots) + Contents(s.o.mem, s.o.output) && Explained(s, size)
      && (forall k :: 0 <= k < 5 ==> s.shots[k].picture == White(size))
      && (forall k :: 5 <= k < |s.shots| && !s.shots[k].isNew ==> s.shots[k].picture == s.shots[k - 1].picture)
      && (forall k :: 5 <= k < |s.shots| && s.shots[k].isNew ==>
            |New(s.shots[..k])| < |s.accepted| && s.shots[k].picture == s.accepted[|New(s.shots[..k])|])
  {
    RunKeepsInv(es, size, duration);
    RunIsExplained(es, size, duration);
    var s := Exec(es, size, duration).value;
    forall k | 5 <= k < |s.shots| ensures
      if s.shots[k].isNew then |New(s.shots[..k])| < |s.accepted| && s.shots[k].picture == s.accepted[|New(s.shots[..k])|]
      else s.shots[k].picture == s.shots[k - 1].picture
    {
      assert NextOrRepeat(s, k);
    }
  }

  lemma {:induction false} RunIsExplained(es: seq<Event>, size: nat, duration: int)
    requires Exec(es, size, duration).Some?
    ensures Explained(Exec(es, size, duration).value, size)
  {
    if es != [] {
      var before := es[..|es| - 1];
      RunIsExplained(before, size, duration);
      RunKeepsInv(before, size, duration);
      StepKeepsExplained(Exec(before, size, duration).value, es[|es| - 1], size, duration);
    }
  }

  // ---- Promptness ----

  function Completions(es: seq<Event>): nat {
    if es == [] then 0
    else Completions(es[..|es| - 1]) + if es[|es| - 1].Completes? then 1 else 0
  }

  /** On the plain display a waiting picture is shown at the completion its place in
      the queue says, whatever else is accepted meanwhile. */
  lemma {:induction false} WaitingPicturesAreShown(d: Display, es: seq<Event>)
    requires d.shown != []
    ensures var r := PlayAll(d, es);
      && |r.shown| == |d.shown| + Completions(es)
      && d.shown <= r.shown
      && (forall j :: 0 <= j < |d.waiting| && j < Completions(es) ==> r.shown[|d.shown| + j] == d.waiting[j])
      && (Completions(es) <= |d.waiting| ==> d.waiting[Completions(es)..] <= r.waiting)
  {
    if es != [] {
      WaitingPicturesAreShown(d, es[..|es| - 1]);
    }
  }

  lemma {:induction false} PlayOn(d: Display, a: seq<Event>, b: seq<Event>)
    requires d.shown != []
    ensures PlayAll(d, a + b) == PlayAll(PlayAll(d, a), b)
  {
    if b == [] {
      assert a + b == a;
    } else {
      var last := |b| - 1;
      PlayOn(d, a, b[..last]);
      assert (a + b)[..|a + b| - 1] == a + b[..last];
    }
  }

  lemma {:induction false} RunHasBeginning(a: seq<Event>, b: seq<Event>, size: nat, duration: int)
    requires Exec(a + b, size, duration).Some?
    ensures Exec(a, size, duration).Some?
  {
    if b == [] {
      assert a + b == a;
    } else {
      assert (a + b)[..|a + b| - 1] == a + b[..|b| - 1];
      RunHasBeginning(a, b[..|b| - 1], size, duration);
    }
  }

  /** `t` follows `s`, with `n` more frames completed: the pictures waiting then
      have been shown, in order, one at each completion. */
  ghost predicate ShownSince(s: Screen, t: Screen, n: nat) {
    && |t.shots| == |s.shots| + n
    && |s.o.output| <= ROOM
    && forall j :: 0 <= j < |s.o.output| && j < n ==> t.shots[|s.shots| + j].picture == Contents(s.o.mem, s.o.output)[j]
  }

  lemma {:induction false} ShownSinceMeans(s: Screen, t: Screen, n: nat)
    requires ShownSince(s, t, n)
    ensures |t.shots| == |s.shots| + n && |s.o.output| <= 5
    ensures forall j :: 0 <= j < |s.o.output| && j < n ==> t.shots[|s.shots| + j].picture == Contents(s.o.mem, s.o.output)[j]
  {
  }

  lemma {:induction false} ViewsShownSince(s: Screen, t: Screen, b: seq<Event>)
    requires s.shots != [] && |s.o.output| <= ROOM && View(t) == PlayAll(View(s), b)
    ensures ShownSince(s, t, Completions(b))
  {
    WaitingPicturesAreShown(View(s), b);
    forall j | 0 <= j < |s.o.output| && j < Completions(b)
      ensures t.shots[|s.shots| + j].picture == Contents(s.o.mem, s.o.output)[j]
    {
      assert View(t).shown[|View(s).shown| + j] == View(s).waiting[j];
    }
  }

  /** Wherever a run of the output is cut, each picture waiting there is given to
      the hardware at the completion its place says; the waiting ones are at most
      five, so none waits for more than five completions. */
  lemma {:induction false} AcceptedPicturesAreShown(a: seq<Event>, b: seq<Event>, size: nat, duration: int) returns (s: Screen, t: Screen)
    requires Exec(a + b, size, duration).Some?
    ensures Exec(a, size, duration) == Some(s) && Exec(a + b, size, duration) == Some(t)
    ensures |t.shots| == |s.shots| + Completions(b) && |s.o.output| <= 5
    ensures forall j :: 0 <= j < |s.o.output| && j < Completions(b) ==>
      t.shots[|s.shots| + j].picture == Contents(s.o.mem, s.o.output)[j]
  {
    SinceTheCut(a, b, size, duration);
    s, t := Exec(a, size, duration).value, Exec(a + b, size, duration).value;
    ShownSinceMeans(s, t, Completions(b));
  }

  lemma {:induction false} SinceTheCut(a: seq<Event>, b: seq<Event>, size: nat, duration: int)
    requires Exec(a + b, size, duration).Some?
    ensures Exec(a, size, duration).Some?
    ensures ShownSince(Exec(a, size, duration).value, Exec(a + b, size, duration).value, Completions(b))
  {
    RunHasBeginning(a, b, size, duration);
    RunKeepsInv(a, size, duration);
    OutputIsHoldLast(a, size, duration);
    OutputIsHoldLast(a + b, size, duration);
    PlayOn(PowerOn(size), a, b);
    var s := Exec(a, size, duration).value;
    QueuesHoldFive(s);
    ViewsShownSince(s, Exec(a + b, size, duration).value, b);
  }
}
