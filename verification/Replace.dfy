/** Substring replacement (src/websockets.cc:165-177). */
module Replace {
  import opened Wrappers

  predicate At(s: string, t: string, i: nat) {
    i + |t| <= |s| && forall c :: 0 <= c < |t| ==> s[i + c] == t[c]
  }

  function Search(s: string, t: string, from: nat): (r: Option<nat>)
    ensures r.Some? ==> from <= r.value && r.value + |t| <= |s|
    decreases |s| - from
  {
    if from + |t| > |s| then None
    else if At(s, t, from) then Some(from)
    else Search(s, t, from + 1)
  }

  /** `std::string::find`: the leftmost place of `t` in `s`, not before `from`. */
  function Find(s: string, t: string, from: nat): (r: Option<nat>)
    ensures r.Some? ==> from <= r.value && r.value + |t| <= |s|
  {
    Search(s, t, from)
  }

  lemma {:induction false} FindIsLeftmost(s: string, t: string, from: nat)
    ensures match Find(s, t, from)
      case Some(i) => At(s, t, i) && forall j :: from <= j < i ==> !At(s, t, j)
      case None => forall j :: from <= j ==> !At(s, t, j)
    decreases |s| - from
  {
    if from + |t| <= |s| && !At(s, t, from) {
      FindIsLeftmost(s, t, from + 1);
    }
  }

  lemma {:induction false} FindIs(s: string, t: string, from: nat, i: nat)
    requires from <= i && At(s, t, i) && forall j :: from <= j < i ==> !At(s, t, j)
    ensures Find(s, t, from) == Some(i)
  {
    FindIsLeftmost(s, t, from);
  }

  lemma {:induction false} FindNothing(s: string, t: string, from: nat)
    requires forall j :: from <= j ==> !At(s, t, j)
    ensures Find(s, t, from) == None
  {
    FindIsLeftmost(s, t, from);
  }

  lemma {:induction false} Mismatch(s: string, t: string, i: nat, c: nat)
    requires i + c < |s| && c < |t| && s[i + c] != t[c]
    ensures !At(s, t, i)
  {
  }

  // ---- What replacement means ----

  /** The replaced text, one leftmost match at a time. */
  function Replaced(s: string, t: string, d: string): string
    requires t != ""
    decreases |s|
  {
    match Find(s, t, 0)
    case None => s
    case Some(i) => s[..i] + d + Replaced(s[i + |t|..], t, d)
  }

  /** The text between the leftmost, non-overlapping matches. */
  function Split(s: string, t: string): (parts: seq<string>)
    requires t != ""
    ensures parts != []
    decreases |s|
  {
    match Find(s, t, 0)
    case None => [s]
    case Some(i) => [s[..i]] + Split(s[i + |t|..], t)
  }

  function Join(parts: seq<string>, d: string): string
    requires parts != []
  {
    if |parts| == 1 then parts[0] else parts[0] + d + Join(parts[1..], d)
  }

  /** Replacing is splitting at the matches and joining with the new text. */
  lemma {:induction false} ReplacedIsSplitAndJoined(s: string, t: string, d: string)
    requires t != ""
    ensures Replaced(s, t, d) == Join(Split(s, t), d)
    decreases |s|
  {
    if Find(s, t, 0).Some? {
      var i := Find(s, t, 0).value;
      ReplacedIsSplitAndJoined(s[i + |t|..], t, d);
      assert Split(s, t)[1..] == Split(s[i + |t|..], t);
    }
  }

  lemma {:induction false} AtInTail(s: string, t: string, k: nat, j: nat)
    requires k <= |s|
    ensures At(s[k..], t, j) <==> At(s, t, k + j)
  {
    forall c | 0 <= c < |t| && k + j + |t| <= |s| ensures s[k..][j + c] == s[k + j + c] && t[c] == t[c] {}
  }

  lemma {:induction false} FindInTail(s: string, t: string, k: nat)
    requires k <= |s|
    ensures Find(s[k..], t, 0) == match Find(s, t, k) case None => None case Some(i) => Some(i - k)
  {
    FindIsLeftmost(s, t, k);
    forall j: nat ensures At(s[k..], t, j) <==> At(s, t, k + j) {
      AtInTail(s, t, k, j);
    }
    if Find(s, t, k).Some? {
      FindIs(s[k..], t, 0, Find(s, t, k).value - k);
    } else {
      FindNothing(s[k..], t, 0);
    }
  }

  /** Text in which no match starts is kept, and what follows is replaced by itself. */
  lemma {:induction false} ReplacedAfter(p: string, rest: string, t: string, d: string)
    requires t != "" && forall j :: 0 <= j < |p| ==> !At(p + rest, t, j)
    ensures Replaced(p + rest, t, d) == p + Replaced(rest, t, d)
  {
    var s := p + rest;
    assert s[|p|..] == rest;
    FindInTail(s, t, |p|);
    FindIsLeftmost(s, t, |p|);
    match Find(rest, t, 0)
    case None =>
      FindNothing(s, t, 0);
    case Some(q) =>
      FindIs(s, t, 0, |p| + q);
      MatchAfter(p, rest, t, d, q);
  }

  lemma {:induction false} MatchAfter(p: string, rest: string, t: string, d: string, q: nat)
    requires t != "" && Find(rest, t, 0) == Some(q) && Find(p + rest, t, 0) == Some(|p| + q)
    ensures Replaced(p + rest, t, d) == p + Replaced(rest, t, d)
  {
    var tail := rest[q + |t|..];
    ReplacedAt(rest, t, d, q);
    ReplacedAt(p + rest, t, d, |p| + q);
    assert (p + rest)[..|p| + q] == p + rest[..q];
    assert (p + rest)[|p| + q + |t|..] == tail;
    Regroup(p, rest[..q], d, Replaced(tail, t, d));
  }

  /** No match can lie across the joint of two texts, because a character next to
      it is not in `t`. */
  predicate Apart(u: string, v: string, t: string) {
    (u != "" && u[|u| - 1] !in t) || (v != "" && v[0] !in t)
  }

  lemma {:induction false} MatchesStayInside(u: string, v: string, t: string, j: nat)
    requires Apart(u, v, t) && j < |u| && t != ""
    ensures At(u + v, t, j) <==> At(u, t, j)
  {
    if j + |t| > |u| {
      if u[|u| - 1] !in t { Mismatch(u + v, t, j, |u| - 1 - j); } else { Mismatch(u + v, t, j, |u| - j); }
    }
  }

  lemma {:induction false} FindInside(u: string, v: string, t: string)
    requires Apart(u, v, t) && t != "" && Find(u, t, 0).Some?
    ensures Find(u + v, t, 0) == Find(u, t, 0)
  {
    var i := Find(u, t, 0).value;
    FindIsLeftmost(u, t, 0);
    forall j: nat | j <= i ensures At(u + v, t, j) <==> At(u, t, j) { MatchesStayInside(u, v, t, j); }
    FindIs(u + v, t, 0, i);
  }

  lemma {:induction false} CutBefore(u: string, v: string, i: nat, k: nat)
    requires i <= k <= |u|
    ensures (u + v)[..i] == u[..i] && (u + v)[k..] == u[k..] + v
  {
  }

  lemma {:induction false} ApartStep(u: string, v: string, t: string, d: string, i: nat, tail: string)
    requires t != "" && Find(u, t, 0) == Some(i) && Find(u + v, t, 0) == Some(i) && tail == u[i + |t|..]
    requires Replaced(tail + v, t, d) == Replaced(tail, t, d) + Replaced(v, t, d)
    ensures Replaced(u + v, t, d) == Replaced(u, t, d) + Replaced(v, t, d)
  {
    ReplacedAt(u, t, d, i);
    ReplacedAt(u + v, t, d, i);
    CutBefore(u, v, i, i + |t|);
    Regroup3(u[..i], d, Replaced(tail, t, d), Replaced(v, t, d));
  }

  lemma {:induction false} NothingInFront(v: string, t: string, d: string)
    requires t != ""
    ensures Replaced("" + v, t, d) == Replaced("", t, d) + Replaced(v, t, d)
  {
    assert "" + v == v;
    FindNothingInShort("", t);
    assert "" + Replaced(v, t, d) == Replaced(v, t, d);
  }

  lemma {:induction false} NothingFound(u: string, v: string, t: string, d: string)
    requires t != "" && Apart(u, v, t) && Find(u, t, 0) == None
    ensures Replaced(u + v, t, d) == Replaced(u, t, d) + Replaced(v, t, d)
  {
    FindIsLeftmost(u, t, 0);
    forall j: nat | j < |u| ensures !At(u + v, t, j) { MatchesStayInside(u, v, t, j); }
    ReplacedAfter(u, v, t, d);
  }

  lemma {:induction false} TailIsApart(u: string, v: string, t: string, k: nat)
    requires Apart(u, v, t) && k < |u|
    ensures Apart(u[k..], v, t)
  {
  }

  /** Then the two are replaced each by itself. */
  lemma {:induction false} ReplacedApart(u: string, v: string, t: string, d: string)
    requires t != "" && Apart(u, v, t)
    ensures Replaced(u + v, t, d) == Replaced(u, t, d) + Replaced(v, t, d)
    decreases |u|
  {
    if Find(u, t, 0).Some? {
      var i := Find(u, t, 0).value;
      var k := i + |t|;
      var tail := u[k..];
      FindInside(u, v, t);
      if tail == "" {
        NothingInFront(v, t, d);
      } else {
        TailIsApart(u, v, t, k);
        ReplacedApart(tail, v, t, d);
      }
      ApartStep(u, v, t, d, i, tail);
    } else {
      NothingFound(u, v, t, d);
    }
  }

  lemma {:induction false} FindNothingInShort(s: string, t: string)
    requires |s| < |t|
    ensures Find(s, t, 0) == None
  {
  }

  lemma {:induction false} Regroup3(a: string, b: string, c: string, d: string)
    ensures a + b + (c + d) == (a + b + c) + d
  {
  }

  lemma {:induction false} ReplacedAt(s: string, t: string, d: string, i: nat)
    requires t != "" && Find(s, t, 0) == Some(i)
    ensures Replaced(s, t, d) == s[..i] + d + Replaced(s[i + |t|..], t, d)
  {
  }

  lemma {:induction false} ReplacedLength(s: string, t: string, d: string)
    requires t != ""
    ensures |d| >= |t| ==> |Replaced(s, t, d)| >= |s|
    ensures |d| <= |t| ==> |Replaced(s, t, d)| <= |s|
    decreases |s|
  {
    if Find(s, t, 0).Some? { ReplacedLength(s[Find(s, t, 0).value + |t|..], t, d); }
  }

  lemma {:induction false} SameMiddle(a: string, b: string, c: string, b': string, c': string)
    requires |b| == |b'|
    ensures a + b + c == a + b' + c' ==> b == b'
  {
    assert (a + b + c)[|a|..|a| + |b|] == b && (a + b' + c')[|a|..|a| + |b'|] == b';
  }

  lemma {:induction false} FirstMatchIsLost(s: string, t: string, d: string, i: nat)
    requires t != "" && d != t && Find(s, t, 0) == Some(i)
    ensures Replaced(s, t, d) != s
  {
    var rest := s[i + |t|..];
    ReplacedAt(s, t, d, i);
    ReplacedLength(rest, t, d);
    FindIsLeftmost(s, t, 0);
    CutAtMatch(s, t, i);
    if |d| == |t| { SameMiddle(s[..i], d, Replaced(rest, t, d), t, rest); }
  }

  /** A text survives if and only if it has no match, when the new text is another one. */
  lemma {:induction false} KeptExactlyWithoutMatch(s: string, t: string, d: string)
    requires t != "" && d != t
    ensures Replaced(s, t, d) == s <==> Find(s, t, 0) == None
  {
    if Find(s, t, 0).Some? { FirstMatchIsLost(s, t, d, Find(s, t, 0).value); }
  }

  function Spliced(s: string, t: string, d: string, p: nat): string
    requires p + |t| <= |s|
  {
    s[..p] + d + s[p + |t|..]
  }

  lemma {:induction false} SplicedParts(s: string, t: string, d: string, p: nat)
    requires p + |t| <= |s|
    ensures var next := Spliced(s, t, d, p);
      p + |d| <= |next| && next[..p + |d|] == s[..p] + d && next[p + |d|..] == s[p + |t|..]
  {
  }

  lemma {:induction false} FirstMatchFrom(s: string, t: string, d: string, k: nat, p: nat)
    requires t != "" && k <= |s| && Find(s, t, k) == Some(p)
    ensures Replaced(s[k..], t, d) == s[k..p] + d + Replaced(s[p + |t|..], t, d)
  {
    FindInTail(s, t, k);
    assert s[k..][..p - k] == s[k..p];
    assert s[k..][p - k + |t|..] == s[p + |t|..];
  }

  /** One turn of the loop moves the mark `k` past the inserted text. */
  lemma {:induction false} TurnKeepsMeaning(s: string, t: string, d: string, k: nat, p: nat)
    requires t != "" && k <= |s| && Find(s, t, k) == Some(p)
    ensures var next := Spliced(s, t, d, p);
      next[..p + |d|] + Replaced(next[p + |d|..], t, d) == s[..k] + Replaced(s[k..], t, d)
  {
    SplicedParts(s, t, d, p);
    FirstMatchFrom(s, t, d, k, p);
    assert s[..k] + s[k..p] == s[..p];
    Regroup(s[..k], s[k..p], d, Replaced(s[p + |t|..], t, d));
  }

  lemma {:induction false} NothingLeft(s: string, t: string, d: string, k: nat)
    requires t != "" && k <= |s| && Find(s, t, k) == None
    ensures s[..k] + Replaced(s[k..], t, d) == s
  {
    FindInTail(s, t, k);
  }

  lemma {:induction false} Regroup(a: string, b: string, c: string, d: string)
    ensures a + (b + c + d) == (a + b) + c + d
  {
  }

  /** The program's loop.  The text not scanned yet gets shorter at each turn,
      although the whole text may grow. */
  method ReplaceAll(src: string, tgt: string, dst: string) returns (s: string)
    requires tgt != ""
    ensures s == Replaced(src, tgt, dst) == Join(Split(src, tgt), dst)
  {
    s := src;
    var k: nat := 0;
    var pos := Find(s, tgt, k);
    assert s[..0] + Replaced(s[0..], tgt, dst) == Replaced(src, tgt, dst) by { assert s[0..] == s; }
    while pos.Some?
      invariant k <= |s| && pos == Find(s, tgt, k)
      invariant s[..k] + Replaced(s[k..], tgt, dst) == Replaced(src, tgt, dst)
      decreases |s| - k
    {
      var p := pos.value;
      TurnKeepsMeaning(s, tgt, dst, k, p);
      s := Spliced(s, tgt, dst, p);
      k := p + |dst|;
      pos := Find(s, tgt, k);
    }
    NothingLeft(s, tgt, dst, k);
    ReplacedIsSplitAndJoined(src, tgt, dst);
  }

  // ---- The split is the only one of its kind ----

  /** `parts` joined by `t` give `s`, and `t` occurs in no part, nor across the
      end of a part, before the place where the part ends. */
  ghost predicate SplitsLeftmost(parts: seq<string>, s: string, t: string) {
    && parts != []
    && Join(parts, t) == s
    && Find(parts[|parts| - 1], t, 0) == None
    && forall i :: 0 <= i < |parts| - 1 ==> Find(parts[i] + t, t, 0) == Some(|parts[i]|)
  }

  lemma {:induction false} FindBefore(p: string, t: string, rest: string)
    requires t != ""
    ensures Find(p + t, t, 0) == Some(|p|) <==> Find(p + t + rest, t, 0) == Some(|p|)
  {
    var s := p + t + rest;
    forall j: nat | j <= |p| ensures At(p + t, t, j) <==> At(s, t, j) {
    }
    FindIsLeftmost(p + t, t, 0);
    FindIsLeftmost(s, t, 0);
    if Find(p + t, t, 0) == Some(|p|) { FindIs(s, t, 0, |p|); }
    if Find(s, t, 0) == Some(|p|) { FindIs(p + t, t, 0, |p|); }
  }

  lemma {:induction false} CutAtMatch(s: string, t: string, i: nat)
    requires At(s, t, i)
    ensures s == s[..i] + t + s[i + |t|..]
  {
    assert s[i..i + |t|] == t;
  }

  lemma {:induction false} SplitCons(s: string, t: string, i: nat, rest: string)
    requires t != "" && Find(s, t, 0) == Some(i) && rest == s[i + |t|..]
    ensures Split(s, t) == [s[..i]] + Split(rest, t) && s == s[..i] + t + rest
  {
    FindIsLeftmost(s, t, 0);
    CutAtMatch(s, t, i);
  }

  lemma {:induction false} LeftmostCons(p: string, parts: seq<string>, rest: string, t: string)
    requires t != "" && SplitsLeftmost(parts, rest, t) && Find(p + t + rest, t, 0) == Some(|p|)
    ensures SplitsLeftmost([p] + parts, p + t + rest, t)
  {
    FindBefore(p, t, rest);
    assert ([p] + parts)[1..] == parts;
  }

  lemma {:induction false} SplitIsLeftmost(s: string, t: string)
    requires t != ""
    ensures SplitsLeftmost(Split(s, t), s, t)
    decreases |s|
  {
    if Find(s, t, 0).Some? {
      var i := Find(s, t, 0).value;
      var rest := s[i + |t|..];
      SplitIsLeftmost(rest, t);
      SplitCons(s, t, i, rest);
      LeftmostCons(s[..i], Split(rest, t), rest, t);
    }
  }

  lemma {:induction false} LeftmostTail(parts: seq<string>, s: string, t: string, rest: string)
    requires t != "" && SplitsLeftmost(parts, s, t) && |parts| > 1 && rest == Join(parts[1..], t)
    ensures SplitsLeftmost(parts[1..], rest, t)
    ensures s == parts[0] + t + rest && Find(s, t, 0) == Some(|parts[0]|)
  {
    FindBefore(parts[0], t, rest);
  }

  lemma {:induction false} SplitIsUnique(parts: seq<string>, s: string, t: string)
    requires t != "" && SplitsLeftmost(parts, s, t)
    ensures parts == Split(s, t)
    decreases |parts|
  {
    if |parts| > 1 {
      var i, rest := |parts[0]|, Join(parts[1..], t);
      LeftmostTail(parts, s, t, rest);
      assert s[..i] == parts[0] && s[i + |t|..] == rest;
      SplitCons(s, t, i, rest);
      SplitIsUnique(parts[1..], rest, t);
    }
  }

  // ---- Termination ----

  /** The text and the mark after `n` turns of the loop, from text `s` and mark `m`;
      None when it has ended before. */
  function Turns(s: string, tgt: string, dst: string, m: nat, n: nat): Option<(string, nat)>
    decreases n
  {
    if n == 0 then Some((s, m))
    else match Find(s, tgt, m)
      case None => None
      case Some(p) => Turns(Spliced(s, tgt, dst, p), tgt, dst, p + |dst|, n - 1)
  }

  lemma {:induction false} FirstTurn(s: string, tgt: string, dst: string, m: nat, n: nat, p: nat, next: string, at: nat)
    requires n > 0 && Find(s, tgt, m) == Some(p) && next == Spliced(s, tgt, dst, p) && at == p + |dst|
    ensures Turns(s, tgt, dst, m, n) == Turns(next, tgt, dst, at, n - 1)
  {
  }

  lemma {:induction false} TurnsShrink(s: string, tgt: string, dst: string, m: nat, n: nat)
    requires tgt != "" && m <= |s| && Turns(s, tgt, dst, m, n).Some?
    ensures n <= |s| - m
    decreases n
  {
    if n > 0 {
      var p := Find(s, tgt, m).value;
      TurnsShrink(Spliced(s, tgt, dst, p), tgt, dst, p + |dst|, n - 1);
    }
  }

  lemma {:induction false} EmptyTargetIsFoundAgain(s: string, dst: string, m: nat, n: nat)
    requires m <= |s|
    ensures Turns(s, "", dst, m, n).Some?
    decreases n
  {
    if n > 0 {
      FindIs(s, "", m, m);
      EmptyTargetIsFoundAgain(Spliced(s, "", dst, m), dst, m + |dst|, n - 1);
    }
  }

  /** What the text will be: final up to the mark, the rest replaced. */
  function Outlook(s: string, tgt: string, dst: string, m: nat): string
    requires tgt != "" && m <= |s|
  {
    s[..m] + Replaced(s[m..], tgt, dst)
  }

  lemma {:induction false} TurnKeepsOutlook(s: string, tgt: string, dst: string, m: nat, p: nat, next: string, at: nat)
    requires tgt != "" && m <= |s| && Find(s, tgt, m) == Some(p)
    requires next == Spliced(s, tgt, dst, p) && at == p + |dst|
    ensures at <= |next| && Outlook(next, tgt, dst, at) == Outlook(s, tgt, dst, m)
  {
    SplicedParts(s, tgt, dst, p);
    TurnKeepsMeaning(s, tgt, dst, m, p);
  }

  lemma {:induction false} OutlookAtTheEnd(s: string, tgt: string, dst: string, m: nat)
    requires tgt != "" && m <= |s| && Find(s, tgt, m) == None
    ensures Outlook(s, tgt, dst, m) == s
  {
    NothingLeft(s, tgt, dst, m);
  }

  lemma {:induction false} TurnsKeepOutlook(s: string, tgt: string, dst: string, m: nat, n: nat, end: string, e: nat)
    requires tgt != "" && m <= |s| && Turns(s, tgt, dst, m, n) == Some((end, e))
    ensures e <= |end| && Outlook(end, tgt, dst, e) == Outlook(s, tgt, dst, m)
    decreases n
  {
    if n > 0 {
      var p := Find(s, tgt, m).value;
      var next, at := Spliced(s, tgt, dst, p), p + |dst|;
      TurnKeepsOutlook(s, tgt, dst, m, p, next, at);
      FirstTurn(s, tgt, dst, m, n, p, next, at);
      TurnsKeepOutlook(next, tgt, dst, at, n - 1, end, e);
    }
  }

  /** When no match is left after `n` turns the text is the replaced one, as
      `ReplaceAll` computes it. */
  lemma {:induction false} TurnsEndWithTheResult(src: string, tgt: string, dst: string, n: nat, end: string, e: nat)
    requires tgt != "" && Turns(src, tgt, dst, 0, n) == Some((end, e)) && Find(end, tgt, e) == None
    ensures end == Replaced(src, tgt, dst)
  {
    TurnsKeepOutlook(src, tgt, dst, 0, n, end, e);
    OutlookAtTheEnd(end, tgt, dst, e);
    assert src[0..] == src;
  }

  /** The loop ends for every target but the empty one. */
  lemma {:induction false} EndsExactlyForNonEmptyTargets(src: string, tgt: string, dst: string)
    ensures (exists n: nat :: Turns(src, tgt, dst, 0, n).None?) <==> tgt != ""
  {
    if tgt != "" {
      var n := |src| + 1;
      if Turns(src, tgt, dst, 0, n).Some? { TurnsShrink(src, tgt, dst, 0, n); }
      assert Turns(src, tgt, dst, 0, n).None?;
    } else {
      forall n: nat ensures Turns(src, tgt, dst, 0, n).Some? {
        EmptyTargetIsFoundAgain(src, dst, 0, n);
      }
    }
  }
}
