/**
 * Received audio on its way into the event queue: 48 kHz passes through, 16 kHz
 * is stretched to three samples per sample (`OnData` in
 * inc/bres+client_webrtc_inl.hh:272-326).  Arithmetic is exact; the conversion
 * back to 16 bits drops the fraction.
 */
module Upsampler {
  import opened Mixer
  import opened Wrappers

  /** The `(short)` conversion: towards zero. */
  function Trunc(r: real): int {
    if r >= 0.0 then r.Floor else -((-r).Floor)
  }

  lemma {:induction false} TruncIsTowardsZero(r: real)
    ensures r >= 0.0 ==> 0.0 <= Trunc(r) as real <= r < Trunc(r) as real + 1.0
    ensures r <= 0.0 ==> Trunc(r) as real - 1.0 < r <= Trunc(r) as real <= 0.0
  {
  }

  function TruncThird(x: int): int {
    if x >= 0 then x / 3 else -((-x) / 3)
  }

  /** The value `j` thirds of the way from `o0` to `o1`. */
  function Third(o0: int, o1: int, j: int): int {
    TruncThird(3 * o0 + j * (o1 - o0))
  }

  lemma {:induction false} ThirdBetween(o0: int, o1: int, j: int)
    requires 0 <= j <= 2
    ensures o0 <= o1 ==> o0 <= Third(o0, o1, j) <= o1
    ensures o1 <= o0 ==> o1 <= Third(o0, o1, j) <= o0
  {
    assert j == 0 || j == 1 || j == 2;
  }

  function Cell(o0: Sample, o1: Sample, j: int): Sample
    requires 0 <= j <= 2
  {
    ThirdBetween(o0, o1, j);
    Third(o0, o1, j)
  }

  /** The event queued for a block: three cells never written, then the thirds of
      each step.  The sample that ends the last step has no cell. */
  function Stretched(s: Block): Block {
    seq(3 * |s|, (i: int) requires 0 <= i < 3 * |s| => if i < 3 then 0 else Cell(s[i / 3 - 1], s[i / 3], i % 3))
  }

  /** The event and the one cell behind it, which held `beyond`. */
  function Upsampled(s: Block, beyond: int): seq<int> {
    var event: seq<int> := Stretched(s);
    event + [if |s| < 2 then beyond else s[|s| - 1]]
  }

  lemma {:induction false} FloorThird(x: int)
    requires x >= 0
    ensures (x as real / 3.0).Floor == x / 3
  {
    var q, r := x / 3, x % 3;
    assert x as real / 3.0 == q as real + r as real / 3.0;
  }

  /** The program's detour through [-1, 1) is exact. */
  lemma {:induction false} NormalizedThird(o0: int, o1: int, j: int)
    ensures var n0 := o0 as real / 32768.0;
      var dn := (o1 as real / 32768.0 - n0) / 3.0;
      Trunc((n0 + dn * j as real) * 32768.0) == Third(o0, o1, j)
  {
    var x := 3 * o0 + j * (o1 - o0);
    var n0 := o0 as real / 32768.0;
    var dn := (o1 as real / 32768.0 - n0) / 3.0;
    assert dn * 32768.0 == (o1 - o0) as real / 3.0;
    assert (dn * j as real) * 32768.0 == j as real * ((o1 - o0) as real / 3.0);
    assert j as real * (o1 - o0) as real == (j * (o1 - o0)) as real;
    assert (n0 + dn * j as real) * 32768.0 == x as real / 3.0;
    if x >= 0 {
      FloorThird(x);
    } else {
      FloorThird(-x);
      assert -(x as real / 3.0) == (-x) as real / 3.0;
    }
  }

  lemma {:induction false} WholeSample(o: int)
    ensures Trunc((o as real / 32768.0) * 32768.0) == o
  {
  }

  /** One turn of the loop: four cells written. */
  method Stretch(pcm: array<int>, n: nat, o0: int, o1: int)
    requires 3 * n + 3 < pcm.Length
    modifies pcm
    ensures pcm[3 * n] == Third(o0, o1, 0) == o0 && pcm[3 * n + 1] == Third(o0, o1, 1)
    ensures pcm[3 * n + 2] == Third(o0, o1, 2) && pcm[3 * n + 3] == o1
    ensures forall i :: 0 <= i < pcm.Length && !(3 * n <= i <= 3 * n + 3) ==> pcm[i] == old(pcm[i])
  {
    var n0 := o0 as real / 32768.0;
    var n1 := o1 as real / 32768.0;
    var dn := (n1 - n0) / 3.0;
    WholeSample(o0);
    WholeSample(o1);
    NormalizedThird(o0, o1, 1);
    NormalizedThird(o0, o1, 2);
    pcm[n * 3] := Trunc(n0 * 32768.0);
    pcm[n * 3 + 1] := Trunc((n0 + dn * 1.0) * 32768.0);
    pcm[n * 3 + 2] := Trunc((n0 + dn * 2.0) * 32768.0);
    pcm[n * 3 + 3] := Trunc(n1 * 32768.0);
  }

  function Fresh(s: Block, i: nat, beyond: int): int {
    if i < 3 * |s| then 0 else beyond
  }

  /** Cell `i` before turn `n` of the loop. */
  function SoFar(s: Block, n: nat, i: nat, beyond: int): int
    requires 1 <= n && (n == 1 || n <= |s|) && i <= 3 * |s|
  {
    if n == 1 || i < 3 || i > 3 * n then Fresh(s, i, beyond)
    else if i == 3 * n then s[n - 1]
    else Third(s[i / 3 - 1], s[i / 3], i % 3)
  }

  lemma {:induction false} NextTurn(s: Block, n: nat, i: nat, beyond: int)
    requires 1 <= n < |s| && i <= 3 * |s|
    ensures SoFar(s, n + 1, i, beyond) ==
      if i < 3 * n || i > 3 * n + 3 then SoFar(s, n, i, beyond)
      else if i == 3 * n + 3 then s[n]
      else Third(s[n - 1], s[n], i - 3 * n)
  {
    if 3 * n <= i < 3 * n + 3 {
      assert i / 3 == n && i % 3 == i - 3 * n;
    }
  }

  ghost predicate Reached(s: Block, n: nat, cells: seq<int>, beyond: int)
    requires 1 <= n && (n == 1 || n <= |s|) && |cells| == 3 * |s| + 1
  {
    forall i :: 0 <= i < |cells| ==> cells[i] == SoFar(s, n, i, beyond)
  }

  lemma {:induction false} AfterTurn(s: Block, n: nat, was: seq<int>, now: seq<int>, beyond: int)
    requires 1 <= n < |s| && |was| == |now| == 3 * |s| + 1 && Reached(s, n, was, beyond)
    requires now[3 * n] == Third(s[n - 1], s[n], 0) && now[3 * n + 1] == Third(s[n - 1], s[n], 1)
    requires now[3 * n + 2] == Third(s[n - 1], s[n], 2) && now[3 * n + 3] == s[n]
    requires forall i :: 0 <= i < |was| && !(3 * n <= i <= 3 * n + 3) ==> now[i] == was[i]
    ensures Reached(s, n + 1, now, beyond)
  {
    forall i | 0 <= i < |now| ensures now[i] == SoFar(s, n + 1, i, beyond) {
      NextTurn(s, n, i, beyond);
    }
  }

  lemma {:induction false} LastTurn(s: Block, i: nat, beyond: int)
    requires i <= 3 * |s|
    ensures SoFar(s, if |s| < 2 then 1 else |s|, i, beyond) == Upsampled(s, beyond)[i]
  {
    if i < 3 * |s| { assert i / 3 < |s|; }
  }

  method Upsample(s: Block, beyond: int) returns (pcm: array<int>)
    ensures fresh(pcm) && pcm[..] == Upsampled(s, beyond)
  {
    pcm := new int[3 * |s| + 1](i => if i < 3 * |s| then 0 else beyond);
    var n := 1;
    while n < |s|
      invariant n == 1 || 1 < n <= |s|
      invariant Reached(s, n, pcm[..], beyond)
    {
      ghost var was := pcm[..];
      Stretch(pcm, n, s[n - 1], s[n]);
      AfterTurn(s, n, was, pcm[..], beyond);
      n := n + 1;
    }
    forall i | 0 <= i < pcm.Length ensures pcm[i] == Upsampled(s, beyond)[i] { LastTurn(s, i, beyond); }
  }

  /** What is queued for a call of `OnData`, if anything. */
  function Queued(audio: Option<Block>, bitsPerSample: int, sampleRate: int, frames: nat): Option<Block> {
    match audio
    case None => None
    case Some(s) =>
      if bitsPerSample != 16 then None
      else if sampleRate == 48000 && frames == 480 then Some(s)
      else if sampleRate == 16000 && frames == 160 then Some(Stretched(s))
      else None
  }

  /** `beyond` is what lies behind the string the loop fills. */
  method OnData(audio: Option<Block>, bitsPerSample: int, sampleRate: int, channels: nat, frames: nat, beyond: int) returns (pushed: Option<Block>)
    requires audio.Some? ==> |audio.value| == frames * channels
    ensures pushed == Queued(audio, bitsPerSample, sampleRate, frames)
    ensures pushed.Some? ==> |pushed.value| == 480 * channels
    ensures pushed.Some? <==>
      audio.Some? && bitsPerSample == 16 && ((sampleRate == 48000 && frames == 480) || (sampleRate == 16000 && frames == 160))
    ensures pushed.Some? && sampleRate == 48000 ==> pushed == audio
    ensures pushed.Some? && sampleRate == 16000 ==>
      forall n :: 1 <= n < |audio.value| ==> pushed.value[3 * n] == audio.value[n - 1]
  {
    if audio.None? || bitsPerSample != 16 {
      return None;
    }
    if sampleRate == 48000 && frames == 480 {
      return Some(audio.value);
    } else if sampleRate == 16000 && frames == 160 {
      var pcm := Upsample(audio.value, beyond);
      assert pcm[..3 * |audio.value|] == pcm[..][..3 * |audio.value|] == Stretched(audio.value);
      var event: Block := pcm[..3 * |audio.value|];
      EventHoldsAllButTheLast(audio.value);
      assert forall n :: 1 <= n < |audio.value| ==> HasCell(audio.value, n);
      return Some(event);
    }
    return None;
  }

  // ---- What the stretched signal looks like ----

  /** Sample `n - 1` is cell `3n` of the event. */
  predicate HasCell(s: Block, n: nat)
    requires 1 <= n <= |s|
  {
    3 * n < |Stretched(s)| && Stretched(s)[3 * n] == s[n - 1]
  }

  /** Every third cell of the event is an input sample, one place late; so the last
      sample has none, and all have one only when there are no samples at all. */
  lemma {:induction false} EventHoldsAllButTheLast(s: Block)
    ensures forall i :: 0 <= i < 3 && i < |Stretched(s)| ==> Stretched(s)[i] == 0
    ensures forall n :: 1 <= n < |s| ==> HasCell(s, n)
    ensures (forall n :: 1 <= n <= |s| ==> HasCell(s, n)) <==> s == []
  {
    forall n | 1 <= n < |s| ensures HasCell(s, n) {
      assert (3 * n) / 3 == n && (3 * n) % 3 == 0;
    }
    if s != [] { assert !HasCell(s, |s|); }
  }

  /** The last sample of a block reaches the event only through the two cells of
      its step. */
  lemma {:induction false} LastSampleShowsInTwoCells(s: Block, t: Block, i: nat)
    requires |s| == |t| > 0 && s[..|s| - 1] == t[..|s| - 1]
    requires i < 3 * |s| - 2
    ensures Stretched(s)[i] == Stretched(t)[i]
  {
    var n := i / 3;
    assert i >= 3 ==> s[n - 1] == s[..|s| - 1][n - 1] == t[..|s| - 1][n - 1] == t[n - 1];
    if n < |s| - 1 {
      assert s[n] == s[..|s| - 1][n] == t[..|s| - 1][n] == t[n];
    } else {
      assert i % 3 == 0;
    }
  }

  /** A block of the size the program gets: its last sample, 300, is not in the event. */
  lemma {:induction false} LoudLastSampleIsCutOff(s: Block, i: nat)
    requires |s| == 160 && s[159] == 300 && (forall k :: 0 <= k < 159 ==> s[k] == 0)
    requires i < |Stretched(s)|
    ensures Stretched(s)[i] <= 200
  {
    if i >= 3 && i / 3 < 159 { assert Stretched(s)[i] == Third(0, 0, i % 3); }
    if i / 3 == 159 { assert Stretched(s)[i] == Third(0, 300, i % 3); }
  }

  /** The loop writes behind the event exactly when it runs at all. */
  lemma {:induction false} WritesBehindTheEventExactlyWhen(s: Block)
    ensures (exists beyond :: Upsampled(s, beyond)[3 * |s|] != beyond) <==> |s| >= 2
  {
    if |s| >= 2 {
      var other := s[|s| - 1] as int + 1;
      assert Upsampled(s, other)[3 * |s|] != other;
    }
  }

  /** With the cell behind it, the buffer holds every sample of two or more, one
      place late. */
  lemma {:induction false} BufferHoldsEverySample(s: Block, beyond: int, n: nat)
    requires |s| >= 2 && 1 <= n <= |s|
    ensures Upsampled(s, beyond)[3 * n] == s[n - 1]
  {
    assert (3 * n) / 3 == n && (3 * n) % 3 == 0;
  }

  function Min(a: int, b: int): int { if a < b then a else b }
  function Max(a: int, b: int): int { if a < b then b else a }

  lemma {:induction false} CellIs(s: Block, n: nat, j: nat, beyond: int)
    requires 1 <= n < |s| && j <= 3
    ensures Upsampled(s, beyond)[3 * n + j] == Third(s[n - 1], s[n], j)
  {
    var i := 3 * n + j;
    if j < 3 {
      assert i / 3 == n && i % 3 == j;
    } else {
      assert i / 3 == n + 1 && i % 3 == 0;
      if n + 1 < |s| { SharedCellAgrees(s[n - 1], s[n], s[n + 1]); }
    }
  }

  /** The two cells between samples lie between them, less than one unit off the
      straight line. */
  lemma {:induction false} CellsBetween(s: Block, n: nat, j: int, beyond: int)
    requires 1 <= n < |s| && 0 <= j <= 2
    ensures var c := Upsampled(s, beyond)[3 * n + j];
      && Min(s[n - 1], s[n]) <= c <= Max(s[n - 1], s[n])
      && -3 < 3 * c - (3 * s[n - 1] + j * (s[n] as int - s[n - 1])) < 3
  {
    CellIs(s, n, j, beyond);
  }

  /** The cell that two turns of the loop write gets the same value from both. */
  lemma {:induction false} SharedCellAgrees(o0: int, o1: int, o2: int)
    ensures Third(o0, o1, 3) == Third(o1, o2, 0) == o1
  {
  }

  lemma {:induction false} TruncThirdRises(x: int, y: int)
    requires x <= y
    ensures TruncThird(x) <= TruncThird(y)
  {
  }

  lemma {:induction false} ThirdRises(o0: int, o1: int, j: int)
    requires o0 <= o1
    ensures Third(o0, o1, j) <= Third(o0, o1, j + 1)
  {
    TruncThirdRises(3 * o0 + j * (o1 - o0), 3 * o0 + (j + 1) * (o1 - o0));
  }

  lemma {:induction false} CellRises(s: Block, n: nat, j: nat, beyond: int)
    requires 1 <= n < |s| && j <= 2 && s[n - 1] <= s[n]
    ensures Upsampled(s, beyond)[3 * n + j] <= Upsampled(s, beyond)[3 * n + j + 1]
  {
    CellIs(s, n, j, beyond);
    CellIs(s, n, j + 1, beyond);
    ThirdRises(s[n - 1], s[n], j);
  }

  lemma {:induction false} NextCellNotLower(s: Block, i: nat, beyond: int)
    requires forall a, b :: 0 <= a <= b < |s| ==> s[a] <= s[b]
    requires 3 <= i < 3 * |s| && |s| >= 2
    ensures Upsampled(s, beyond)[i] <= Upsampled(s, beyond)[i + 1]
  {
    CellRises(s, i / 3, i % 3, beyond);
  }

  /** A rising signal stays rising, from the first cell written on. */
  lemma {:induction false} RisingStaysRising(s: Block, i: nat, k: nat, beyond: int)
    requires forall a, b :: 0 <= a <= b < |s| ==> s[a] <= s[b]
    requires 3 <= i <= k <= 3 * |s|
    ensures Upsampled(s, beyond)[i] <= Upsampled(s, beyond)[k]
    decreases k - i
  {
    if i < k && |s| >= 2 {
      NextCellNotLower(s, i, beyond);
      RisingStaysRising(s, i + 1, k, beyond);
    }
  }
}
