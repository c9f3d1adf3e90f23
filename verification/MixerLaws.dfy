/**
 * What the saturating mix means.  Saturation makes the result depend on the
 * order of the channels in general; `OrderIsIrrelevantExactlyWhen` says when not.
 */
module MixerLaws {
  import opened Counting
  import opened Mixer

  function Id(x: int): int { x }
  function Up(x: int): int { if x > 0 then x else 0 }
  function Down(x: int): int { if x < 0 then x else 0 }

  function Total(ps: seq<int>, f: int -> int): int {
    if ps == [] then 0 else Total(ps[..|ps| - 1], f) + f(ps[|ps| - 1])
  }

  function Sum(ps: seq<int>): int { Total(ps, Id) }

  predicate InRange(x: int) { LOW <= x <= HIGH }

  // ---- Meaning ----

  lemma {:induction false} MixIsBounded(ps: seq<int>)
    ensures -32767 <= Mix(ps) <= 32767
  {
    if ps != [] {
      MixIsBounded(ps[..|ps| - 1]);
    }
  }

  /** Without saturation on the way the mix is the exact sum. */
  lemma {:induction false} MixIsExact(ps: seq<int>)
    requires forall i :: 0 <= i <= |ps| ==> InRange(Sum(ps[..i]))
    ensures Mix(ps) == Sum(ps)
  {
    if ps != [] {
      var qs := ps[..|ps| - 1];
      forall i | 0 <= i <= |qs| ensures InRange(Sum(qs[..i])) { assert qs[..i] == ps[..i]; }
      MixIsExact(qs);
      assert ps[..|ps|] == ps;
      assert InRange(Sum(ps[..|ps|]));
    }
  }

  predicate NoNegative(ps: seq<int>) { forall i :: 0 <= i < |ps| ==> ps[i] >= 0 }
  predicate NoPositive(ps: seq<int>) { forall i :: 0 <= i < |ps| ==> ps[i] <= 0 }

  lemma {:induction false} RisingMix(acc: int, ps: seq<int>)
    requires NoNegative(ps) && InRange(acc)
    ensures Sum(ps) >= 0 && MixOnto(acc, ps) == Clamp(acc + Sum(ps))
  {
    if ps != [] { RisingMix(acc, ps[..|ps| - 1]); }
  }

  lemma {:induction false} FallingMix(acc: int, ps: seq<int>)
    requires NoPositive(ps) && InRange(acc)
    ensures Sum(ps) <= 0 && MixOnto(acc, ps) == Clamp(acc + Sum(ps))
  {
    if ps != [] { FallingMix(acc, ps[..|ps| - 1]); }
  }

  // ---- Stability ----

  predicate Below(a: seq<int>, b: seq<int>)
    requires |a| == |b|
  {
    forall i :: 0 <= i < |a| ==> a[i] <= b[i]
  }

  /** Raising any contribution never lowers the mix. */
  lemma {:induction false} MixIsMonotone(a: seq<int>, b: seq<int>)
    requires |a| == |b| && Below(a, b)
    ensures Mix(a) <= Mix(b)
  {
    if a != [] {
      MixIsMonotone(a[..|a| - 1], b[..|b| - 1]);
    }
  }

  function Abs(x: int): nat { if x < 0 then -x else x }

  function Distance(a: seq<int>, b: seq<int>): nat
    requires |a| == |b|
  {
    if a == [] then 0 else Distance(a[..|a| - 1], b[..|b| - 1]) + Abs(a[|a| - 1] - b[|b| - 1])
  }

  /** Two mixes differ by no more than their contributions do altogether. */
  lemma {:induction false} MixIsStable(a: seq<int>, b: seq<int>)
    requires |a| == |b|
    ensures Abs(Mix(a) - Mix(b)) <= Distance(a, b)
  {
    if a != [] {
      MixIsStable(a[..|a| - 1], b[..|b| - 1]);
    }
  }

  // ---- Order of the channels ----

  lemma {:induction false} TotalOfBoth(a: seq<int>, b: seq<int>, f: int -> int)
    ensures Total(a + b, f) == Total(a, f) + Total(b, f)
  {
    if b == [] {
      assert a + b == a;
    } else {
      TotalOfBoth(a, b[..|b| - 1], f);
      assert (a + b)[..|a + b| - 1] == a + b[..|b| - 1];
    }
  }

  lemma {:induction false} MixOfBoth(acc: int, a: seq<int>, b: seq<int>)
    ensures MixOnto(acc, a + b) == MixOnto(MixOnto(acc, a), b)
  {
    if b == [] {
      assert a + b == a;
    } else {
      MixOfBoth(acc, a, b[..|b| - 1]);
      assert (a + b)[..|a + b| - 1] == a + b[..|b| - 1];
    }
  }

  lemma {:induction false} TotalIgnoresOrder(a: seq<int>, b: seq<int>, f: int -> int)
    requires multiset(a) == multiset(b)
    ensures Total(a, f) == Total(b, f)
    decreases |a|
  {
    if a == [] {
      assert |multiset(b)| == 0;
      assert b == [];
    } else {
      var n := |a| - 1;
      assert a[n] in multiset(b);
      var i :| 0 <= i < |b| && b[i] == a[n];
      assert a == a[..n] + [a[n]];
      assert b == b[..i] + [b[i]] + b[i + 1..];
      RemoveAt(b, i);
      assert multiset(a[..n]) == multiset(a) - multiset{a[n]};
      assert multiset(b[..i] + b[i + 1..]) == multiset(b) - multiset{a[n]};
      TotalIgnoresOrder(a[..n], b[..i] + b[i + 1..], f);
      TotalOfBoth(b[..i], b[i + 1..], f);
      TotalOfBoth(b[..i] + [b[i]], b[i + 1..], f);
      TotalOfBoth(b[..i], [b[i]], f);
      assert Total([b[i]], f) == f(b[i]);
    }
  }

  lemma {:induction false} SumBetween(ps: seq<int>, n: nat)
    requires n <= |ps|
    ensures Total(ps, Down) <= Sum(ps[..n]) <= Total(ps, Up)
    ensures Total(ps, Down) <= 0 <= Total(ps, Up)
    ensures Sum(ps) == Total(ps, Up) + Total(ps, Down)
  {
    if ps != [] {
      var qs := ps[..|ps| - 1];
      if n == |ps| {
        SumBetween(qs, |qs|);
        assert ps[..n] == ps && qs[..|qs|] == qs;
      } else {
        SumBetween(qs, n);
        assert ps[..n] == qs[..n];
      }
    }
  }

  /** The contributions share a sign, or all the positive ones together and all
      the negative ones together stay in range. */
  predicate Harmless(ps: seq<int>) {
    NoNegative(ps) || NoPositive(ps) || (Total(ps, Up) <= HIGH && Total(ps, Down) >= LOW)
  }

  lemma {:induction false} HarmlessMix(ps: seq<int>)
    requires Harmless(ps)
    ensures Mix(ps) == Clamp(Sum(ps))
  {
    if NoNegative(ps) {
      RisingMix(0, ps);
    } else if NoPositive(ps) {
      FallingMix(0, ps);
    } else {
      forall i | 0 <= i <= |ps| ensures InRange(Sum(ps[..i])) { SumBetween(ps, i); }
      MixIsExact(ps);
      SumBetween(ps, |ps|);
    }
  }

  lemma {:induction false} HarmlessIgnoresOrder(ps: seq<int>, qs: seq<int>)
    requires Harmless(ps) && multiset(ps) == multiset(qs)
    ensures Harmless(qs)
  {
    TotalIgnoresOrder(ps, qs, Up);
    TotalIgnoresOrder(ps, qs, Down);
    forall i | 0 <= i < |qs| ensures qs[i] in ps {
      assert qs[i] in multiset(qs);
    }
  }

  lemma {:induction false} TotalSnoc(ps: seq<int>, p: int, f: int -> int)
    ensures Total(ps + [p], f) == Total(ps, f) + f(p)
  {
    assert (ps + [p])[..|ps|] == ps;
  }

  /** The channel values `ps`, split by sign. */
  ghost predicate Splits(ps: seq<int>, up: seq<int>, others: seq<int>) {
    && NoNegative(up) && NoPositive(others)
    && multiset(ps) == multiset(up) + multiset(others)
    && Total(up, Id) == Total(ps, Up) && Total(others, Id) == Total(ps, Down)
  }

  lemma {:induction false} MultisetSnoc(qs: seq<int>, up: seq<int>, others: seq<int>, p: int)
    requires multiset(qs) == multiset(up) + multiset(others)
    ensures multiset(qs + [p]) == multiset(up + [p]) + multiset(others)
    ensures multiset(qs + [p]) == multiset(up) + multiset(others + [p])
  {
    assert multiset(qs + [p]) == multiset(qs) + multiset{p};
    assert multiset(up + [p]) == multiset(up) + multiset{p};
    assert multiset(others + [p]) == multiset(others) + multiset{p};
  }

  lemma {:induction false} OneMoreRises(qs: seq<int>, up: seq<int>, others: seq<int>, p: int)
    requires Splits(qs, up, others) && p > 0
    ensures Splits(qs + [p], up + [p], others)
  {
    TotalSnoc(qs, p, Up);
    TotalSnoc(qs, p, Down);
    TotalSnoc(up, p, Id);
    MultisetSnoc(qs, up, others, p);
  }

  lemma {:induction false} OneMoreFalls(qs: seq<int>, up: seq<int>, others: seq<int>, p: int)
    requires Splits(qs, up, others) && p <= 0
    ensures Splits(qs + [p], up, others + [p])
  {
    TotalSnoc(qs, p, Up);
    TotalSnoc(qs, p, Down);
    TotalSnoc(others, p, Id);
    MultisetSnoc(qs, up, others, p);
  }

  lemma {:induction false} SplitBySign(ps: seq<int>) returns (up: seq<int>, others: seq<int>)
    ensures Splits(ps, up, others)
  {
    if ps == [] { return [], []; }
    var qs, p := ps[..|ps| - 1], ps[|ps| - 1];
    up, others := SplitBySign(qs);
    assert qs + [p] == ps;
    if p > 0 {
      OneMoreRises(qs, up, others, p);
      up := up + [p];
    } else {
      OneMoreFalls(qs, up, others, p);
      others := others + [p];
    }
  }

  lemma {:induction false} MixedSigns(ps: seq<int>)
    ensures NoPositive(ps) || Total(ps, Up) > 0
    ensures NoNegative(ps) || Total(ps, Down) < 0
    ensures Total(ps, Down) <= 0 <= Total(ps, Up)
  {
    if ps != [] { MixedSigns(ps[..|ps| - 1]); }
  }

  lemma {:induction false} OneSideFirst(rising: seq<int>, falling: seq<int>)
    requires NoNegative(rising) && NoPositive(falling)
    ensures Mix(rising + falling) == Clamp(Clamp(Sum(rising)) + Sum(falling))
    ensures Mix(falling + rising) == Clamp(Clamp(Sum(falling)) + Sum(rising))
  {
    MixOfBoth(0, rising, falling);
    MixOfBoth(0, falling, rising);
    RisingMix(0, rising);
    FallingMix(MixOnto(0, rising), falling);
    FallingMix(0, falling);
    RisingMix(MixOnto(0, falling), rising);
  }

  lemma {:induction false} ClashingClamps(up: int, down: int)
    requires up > 0 > down && (up > HIGH || down < LOW)
    ensures Clamp(Clamp(up) + down) != Clamp(Clamp(down) + up)
  {
  }

  /** Positive channels first, or last: with both signs and an overflow in sight
      the two orders sound different. */
  lemma {:induction false} ClashingOrders(ps: seq<int>, up: seq<int>, others: seq<int>)
    requires !Harmless(ps) && Splits(ps, up, others)
    ensures Mix(up + others) != Mix(others + up)
  {
    MixedSigns(ps);
    OneSideFirst(up, others);
    ClashingClamps(Sum(up), Sum(others));
  }

  /** No order of these channels changes the mix. */
  ghost predicate OrderIsIrrelevant(ps: seq<int>) {
    forall qs: seq<int> :: multiset(qs) == multiset(ps) ==> Mix(qs) == Mix(ps)
  }

  lemma {:induction false} HarmlessInAnyOrder(ps: seq<int>, qs: seq<int>)
    requires Harmless(ps) && multiset(qs) == multiset(ps)
    ensures Mix(qs) == Mix(ps)
  {
    HarmlessMix(ps);
    HarmlessIgnoresOrder(ps, qs);
    HarmlessMix(qs);
    TotalIgnoresOrder(ps, qs, Id);
  }

  lemma {:induction false} OtherwiseOrderMatters(ps: seq<int>)
    requires !Harmless(ps)
    ensures !OrderIsIrrelevant(ps)
  {
    var up, others := SplitBySign(ps);
    ClashingOrders(ps, up, others);
    assert multiset(up + others) == multiset(ps) && multiset(others + up) == multiset(ps);
  }

  /** The mix is the same for every order of the channels if and only if no order
      can saturate on both sides; then it is the clamped exact sum. */
  lemma {:induction false} OrderIsIrrelevantExactlyWhen(ps: seq<int>)
    ensures OrderIsIrrelevant(ps) <==> Harmless(ps)
    ensures Harmless(ps) ==> Mix(ps) == Clamp(Sum(ps))
  {
    if Harmless(ps) {
      HarmlessMix(ps);
      forall qs: seq<int> | multiset(qs) == multiset(ps) ensures Mix(qs) == Mix(ps) { HarmlessInAnyOrder(ps, qs); }
    } else {
      OtherwiseOrderMatters(ps);
    }
  }
}
