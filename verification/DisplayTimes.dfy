/**
 * The display times an output gives to the hardware (src/bm.cc:191-223 and
 * src/bm.cc:301-313), over a whole run including start-up.
 */
module DisplayTimes {
  import opened DriverOutput
  import opened Screen

  /** Completions reported late or dropped. */
  function Late(results: seq<Completion>): nat {
    if results == [] then 0
    else Late(results[..|results| - 1]) + if Skips(results[|results| - 1]) then 1 else 0
  }

  /** Late counts what the driver reports as displayed late or as dropped. */
  lemma {:induction false} LateCountsLateAndDropped(results: seq<Completion>)
    ensures Late(results) == multiset(results)[DisplayedLate] + multiset(results)[Dropped]
  {
    if results != [] {
      var before, r := results[..|results| - 1], results[|results| - 1];
      LateCountsLateAndDropped(before);
      assert results == before + [r];
    }
  }

  /** The counter value used for shot `k`: the first five count from 0, start-up
      then jumps to 10, and each completion adds one, or three when it was late. */
  function Slot(results: seq<Completion>, k: nat): nat
    requires k < ON_HARDWARE + |results|
  {
    if k < ON_HARDWARE then k
    else FRAMES + (k - ON_HARDWARE) + 2 * Late(results[..k - ON_HARDWARE + 1])
  }

  ghost predicate Timed(s: Screen, duration: int) {
    && |s.shots| == ON_HARDWARE + |s.results|
    && s.o.total == FRAMES + |s.results| + 2 * Late(s.results)
    && (forall k :: 0 <= k < |s.shots| ==> s.shots[k].time == Slot(s.results, k) * duration)
  }

  lemma {:induction false} EarlierSlots(results: seq<Completion>, r: Completion, k: nat)
    requires k < ON_HARDWARE + |results|
    ensures Slot(results + [r], k) == Slot(results, k)
  {
    if k >= ON_HARDWARE {
      assert (results + [r])[..k - ON_HARDWARE + 1] == results[..k - ON_HARDWARE + 1];
    }
  }

  lemma {:induction false} StepKeepsTimed(s: Screen, e: Event, size: nat, duration: int)
    requires Timed(s, duration) && Enabled(s, e, size)
    ensures Timed(Step(s, e, size, duration), duration)
  {
    if e.Completes? {
      var t := Step(s, e, size, duration);
      assert t.results[..|s.results|] == s.results;
      assert t.results[..|t.results|] == t.results;
      forall k | 0 <= k < |s.shots| ensures t.shots[k].time == Slot(t.results, k) * duration {
        EarlierSlots(s.results, e.result, k);
      }
    }
  }

  /** After k completions, d of them late or dropped, the counter is 10 + k + 2d,
      and every display time ever given is its slot times the frame duration. */
  lemma {:induction false} RunIsTimed(es: seq<Event>, size: nat, duration: int)
    requires Exec(es, size, duration).Some?
    ensures Timed(Exec(es, size, duration).value, duration)
  {
    if es != [] {
      RunIsTimed(es[..|es| - 1], size, duration);
      StepKeepsTimed(Exec(es[..|es| - 1], size, duration).value, es[|es| - 1], size, duration);
    }
  }

  lemma {:induction false} LateGrows(results: seq<Completion>, i: nat, j: nat)
    requires i <= j <= |results|
    ensures Late(results[..i]) <= Late(results[..j])
  {
    if i < j {
      LateGrows(results, i, j - 1);
      assert results[..j][..j - 1] == results[..j - 1];
    }
  }

  lemma {:induction false} SlotsIncrease(results: seq<Completion>, i: nat, j: nat)
    requires i < j < ON_HARDWARE + |results|
    ensures Slot(results, i) < Slot(results, j)
  {
    if i >= ON_HARDWARE {
      LateGrows(results, i - ON_HARDWARE + 1, j - ON_HARDWARE + 1);
    }
  }

  lemma {:induction false} Scale(a: int, b: int, c: int)
    requires c > 0
    ensures a < b <==> a * c < b * c
  {
    if a < b { assert (b - a) * c > 0; }
    if a > b { assert (a - b) * c > 0; }
  }

  /** For any positive duration the display times are strictly increasing. */
  lemma {:induction false} TimesStrictlyIncrease(es: seq<Event>, size: nat, duration: int, i: nat, j: nat)
    requires Exec(es, size, duration).Some? && duration > 0
    requires i < j < |Exec(es, size, duration).value.shots|
    ensures var s := Exec(es, size, duration).value; s.shots[i].time < s.shots[j].time
  {
    RunIsTimed(es, size, duration);
    var s := Exec(es, size, duration).value;
    SlotsIncrease(s.results, i, j);
    Scale(Slot(s.results, i), Slot(s.results, j), duration);
  }

  // ---- The 32-bit counter ----

  const WRAP: int := 0x1_0000_0000

  /** The counter value of shot `k` in 32 bits. */
  function MachineSlot(results: seq<Completion>, k: nat): nat
    requires k < ON_HARDWARE + |results|
  {
    Slot(results, k) % WRAP
  }

  /** The time of shot `k` when the counter is the program's 32-bit one. */
  function MachineTime(results: seq<Completion>, k: nat, duration: int): int
    requires k < ON_HARDWARE + |results|
  {
    MachineSlot(results, k) * duration
  }

  lemma {:induction false} Remainder(x: nat)
    requires x < 2 * WRAP
    ensures x % WRAP == if x < WRAP then x else x - WRAP
  {
  }

  lemma {:induction false} FirstWrap(results: seq<Completion>, k: nat) returns (j: nat)
    requires k < ON_HARDWARE + |results| && Slot(results, k) >= WRAP
    ensures 0 < j <= k && Slot(results, j - 1) < WRAP <= Slot(results, j) <= Slot(results, j - 1) + 8
  {
    j := k;
    if Slot(results, k - 1) >= WRAP {
      j := FirstWrap(results, k - 1);
    } else {
      SlotGap(results, k);
    }
  }

  lemma {:induction false} SlotGap(results: seq<Completion>, k: nat)
    requires 0 < k < ON_HARDWARE + |results|
    ensures Slot(results, k) <= Slot(results, k - 1) + 8
  {
    if k >= ON_HARDWARE {
      var n := k - ON_HARDWARE;
      assert results[..n + 1][..n] == results[..n];
      if n == 0 { assert Late(results[..0]) == 0; }
    }
  }

  lemma {:induction false} BelowWrap(results: seq<Completion>, i: nat, j: nat, duration: int)
    requires duration > 0 && i < j < ON_HARDWARE + |results|
    requires Slot(results, ON_HARDWARE + |results| - 1) < WRAP
    ensures MachineTime(results, i, duration) < MachineTime(results, j, duration)
  {
    SlotsIncrease(results, i, j);
    var last := ON_HARDWARE + |results| - 1;
    if j < last { SlotsIncrease(results, j, last); }
    Remainder(Slot(results, i));
    Remainder(Slot(results, j));
    Scale(MachineSlot(results, i), MachineSlot(results, j), duration);
  }

  lemma {:induction false} AtWrap(results: seq<Completion>, duration: int) returns (j: nat)
    requires duration > 0
    requires Slot(results, ON_HARDWARE + |results| - 1) >= WRAP
    ensures 0 < j < ON_HARDWARE + |results|
    ensures MachineTime(results, j, duration) < MachineTime(results, j - 1, duration)
  {
    j := FirstWrap(results, ON_HARDWARE + |results| - 1);
    Remainder(Slot(results, j - 1));
    Remainder(Slot(results, j));
    Scale(MachineSlot(results, j), MachineSlot(results, j - 1), duration);
  }

  /** With the 32-bit counter the times increase exactly until it wraps, which is
      when a slot number first reaches 2^32. */
  lemma {:induction false} MachineTimesIncreaseUntilWrap(results: seq<Completion>, duration: int)
    requires duration > 0
    ensures (forall i, j :: 0 <= i < j < ON_HARDWARE + |results| ==> MachineTime(results, i, duration) < MachineTime(results, j, duration))
            <==> Slot(results, ON_HARDWARE + |results| - 1) < 0x1_0000_0000
  {
    if Slot(results, ON_HARDWARE + |results| - 1) < WRAP {
      forall i, j | 0 <= i < j < ON_HARDWARE + |results| ensures MachineTime(results, i, duration) < MachineTime(results, j, duration) {
        BelowWrap(results, i, j, duration);
      }
    } else {
      var j := AtWrap(results, duration);
    }
  }
}
