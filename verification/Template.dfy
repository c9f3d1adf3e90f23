/**
 * Templates with `$$NAME$$` tags, filled in by chained replacement
 * (src/websockets.cc:82-93 and inc/bres+client_ext.h:10-31).
 */
module Template {
  import opened Counting
  import opened Replace
  import opened Wrappers

  datatype Piece = Text(text: string) | Tag(name: string)

  predicate Plain(s: string) { forall i :: 0 <= i < |s| ==> s[i] != '$' }

  function Mark(name: string): string { "$$" + name + "$$" }

  function Render(t: seq<Piece>): string {
    if t == [] then ""
    else (match t[0] case Text(text) => text case Tag(name) => Mark(name)) + Render(t[1..])
  }

  predicate IsName(name: string) { name != "" && Plain(name) }

  predicate WellFormed(t: seq<Piece>) {
    forall i :: 0 <= i < |t| ==> match t[i] case Text(text) => Plain(text) case Tag(name) => IsName(name)
  }

  /** The template with one tag filled in. */
  function Fill(t: seq<Piece>, name: string, value: string): (r: seq<Piece>)
    ensures |r| == |t|
    ensures forall i :: 0 <= i < |t| ==> r[i] == if t[i] == Tag(name) then Text(value) else t[i]
  {
    if t == [] then [] else [if t[0] == Tag(name) then Text(value) else t[0]] + Fill(t[1..], name, value)
  }

  lemma {:induction false} FillTail(t: seq<Piece>, name: string, value: string)
    requires t != []
    ensures Fill(t, name, value)[1..] == Fill(t[1..], name, value)
  {
  }

  // ---- When literal text looks like a tag ----

  /** The literal text before the first tag. */
  function Leading(t: seq<Piece>): string {
    if t == [] || t[0].Tag? then "" else t[0].text + Leading(t[1..])
  }

  predicate HasTag(t: seq<Piece>) {
    t != [] && (t[0].Tag? || HasTag(t[1..]))
  }

  /** Somewhere the text between two neighbouring tags, the first of them not
      `name`, is exactly `name`; with the dollar signs around it, it reads as a tag. */
  predicate Mimics(t: seq<Piece>, name: string) {
    t != [] && ((t[0].Tag? && t[0].name != name && HasTag(t[1..]) && Leading(t[1..]) == name) || Mimics(t[1..], name))
  }

  // ---- One replacement ----

  lemma {:induction false} NoMatchInPlain(x: string, rest: string, name: string, j: nat)
    requires Plain(x) && j < |x|
    ensures !At(x + rest, Mark(name), j)
  {
    Mismatch(x + rest, Mark(name), j, 0);
  }

  lemma {:induction false} PlainIsKept(x: string, name: string, value: string)
    requires Plain(x)
    ensures Replaced(x, Mark(name), value) == x
  {
    assert x + "" == x;
    forall j: nat | j < |x| ensures !At(x, Mark(name), j) { NoMatchInPlain(x, "", name, j); }
    FindNothing(x, Mark(name), 0);
  }

  /** The tag wanted, after literal text, is the leftmost match. */
  lemma {:induction false} OwnTag(x: string, rest: string, name: string, value: string)
    requires Plain(x)
    ensures Replaced(x + Mark(name) + rest, Mark(name), value) == x + value + Replaced(rest, Mark(name), value)
  {
    var s, m := x + Mark(name) + rest, Mark(name);
    assert s == x + (m + rest);
    forall j: nat | j < |x| ensures !At(s, m, j) { NoMatchInPlain(x, m + rest, name, j); }
    FindIs(s, m, 0, |x|);
    assert s[..|x|] == x && s[|x| + |m|..] == rest;
  }

  /** Rendered text starts with no dollar sign or with two. */
  predicate Doubled(s: string) {
    s != "" && s[0] == '$' ==> |s| > 1 && s[1] == '$'
  }

  /** Inside another tag no match starts, except that its closing signs may open one. */
  lemma {:induction false} ForeignTag(x: string, other: string, rest: string, name: string, j: nat)
    requires Plain(x) && IsName(other) && IsName(name) && other != name && Doubled(rest)
    requires j < |x + Mark(other)| && j != |x| + 2 + |other|
    ensures !At(x + Mark(other) + rest, Mark(name), j)
  {
    var s, m := x + Mark(other) + rest, Mark(name);
    var at := |x| + 2;
    if j < |x| {
      Mismatch(s, m, j, 0);
    } else if j == |x| {
      if |other| < |name| {
        Mismatch(s, m, j, 2 + |other|);
      } else if |name| < |other| {
        assert s[j + 2 + |name|] == other[|name|];
        Mismatch(s, m, j, 2 + |name|);
      } else {
        var c := FirstDifference(other, name);
        assert s[j + 2 + c] == other[c] && m[2 + c] == name[c];
        Mismatch(s, m, j, 2 + c);
      }
    } else if j == |x| + 1 {
      assert s[j + 1] == other[0];
      Mismatch(s, m, j, 1);
    } else if j < at + |other| {
      assert s[j] == other[j - at];
      Mismatch(s, m, j, 0);
    } else {
      assert j + 1 == |x + Mark(other)|;
      if rest != "" {
        assert s[j + 1] == rest[0];
        if rest[0] != '$' {
          Mismatch(s, m, j, 1);
        } else {
          assert s[j + 2] == rest[1];
          assert m[2] == name[0];
          Mismatch(s, m, j, 2);
        }
      }
    }
  }

  lemma {:induction false} FirstDifference(a: string, b: string) returns (c: nat)
    requires |a| == |b| && a != b
    ensures c < |a| && a[c] != b[c]
  {
    c :| c < |a| && a[c] != b[c];
  }

  /** Whether the closing signs of the tag before `rest` open a match. */
  predicate Reads(rest: string, name: string) {
    |name| + 2 <= |rest| && rest[..|name| + 2] == name + "$$"
  }

  lemma {:induction false} ClosingSigns(x: string, other: string, rest: string, name: string)
    ensures At(x + Mark(other) + rest, Mark(name), |x| + 2 + |other|) <==> Reads(rest, name)
  {
    var s, m, j := x + Mark(other) + rest, Mark(name), |x| + 2 + |other|;
    if |name| + 2 <= |rest| {
      assert s[j..j + |m|] == "$$" + rest[..|name| + 2];
      assert m == "$$" + (name + "$$");
      assert s[j..j + |m|][2..] == rest[..|name| + 2];
      assert m[2..] == name + "$$";
    }
  }

  lemma {:induction false} ForeignTagIsKept(x: string, other: string, rest: string, name: string, value: string)
    requires Plain(x) && IsName(other) && IsName(name) && other != name && Doubled(rest) && !Reads(rest, name)
    ensures Replaced(x + Mark(other) + rest, Mark(name), value) == x + Mark(other) + Replaced(rest, Mark(name), value)
  {
    forall j: nat | j < |x + Mark(other)| ensures !At(x + Mark(other) + rest, Mark(name), j) {
      if j == |x| + 2 + |other| {
        ClosingSigns(x, other, rest, name);
      } else {
        ForeignTag(x, other, rest, name, j);
      }
    }
    ReplacedAfter(x + Mark(other), rest, Mark(name), value);
  }

  lemma {:induction false} FirstCharIsKept(s: string, name: string, value: string)
    requires s != "" && s[0] != '$'
    ensures Replaced(s, Mark(name), value) != "" && Replaced(s, Mark(name), value)[0] == s[0]
  {
    Mismatch(s, Mark(name), 0, 0);
    ReplacedAfter(s[..1], s[1..], Mark(name), value);
    assert s == s[..1] + s[1..];
  }

  lemma {:induction false} FirstAfter(p: string, value: string, rest: string)
    requires Plain(value) && rest != "" && rest[0] != '$'
    ensures |p + value + rest| > |p| && (p + value + rest)[|p|] != '$'
  {
    assert (p + value + rest)[|p|] == (value + rest)[0];
  }

  lemma {:induction false} FalseMatchFound(x: string, other: string, rest: string, name: string)
    requires Plain(x) && IsName(other) && IsName(name) && other != name && Doubled(rest) && Reads(rest, name)
    ensures Find(x + Mark(other) + rest, Mark(name), 0) == Some(|x| + 2 + |other|)
  {
    var s, m, i := x + Mark(other) + rest, Mark(name), |x| + 2 + |other|;
    forall j: nat | j < i ensures !At(s, m, j) { ForeignTag(x, other, rest, name, j); }
    ClosingSigns(x, other, rest, name);
    FindIs(s, m, 0, i);
  }

  /** A false match eats the closing signs of the tag before it. */
  lemma {:induction false} FalseMatch(x: string, other: string, rest: string, name: string, value: string)
    requires Plain(x) && IsName(other) && IsName(name) && other != name && Doubled(rest) && Plain(value)
    requires Reads(rest, name) && |rest| > |name| + 2 && rest[|name| + 2] != '$'
    ensures var r := Replaced(x + Mark(other) + rest, Mark(name), value);
      |r| > |x| + 2 + |other| && r[|x| + 2 + |other|] != '$'
  {
    var s, m, i := x + Mark(other) + rest, Mark(name), |x| + 2 + |other|;
    FalseMatchFound(x, other, rest, name);
    ReplacedAt(s, m, value, i);
    var tail := s[i + |m|..];
    assert tail[0] == rest[|name| + 2];
    FirstCharIsKept(tail, name, value);
    FirstAfter(s[..i], value, Replaced(tail, m, value));
  }

  /** Rendered, a template is literal text, and then nothing or a tag. */
  lemma {:induction false} Shape(t: seq<Piece>) returns (c: string, r: string)
    requires WellFormed(t)
    ensures Plain(Leading(t))
    ensures if HasTag(t) then IsName(c) && Render(t) == Leading(t) + Mark(c) + r else Render(t) == Leading(t)
  {
    c, r := "", "";
    if t != [] {
      if t[0].Tag? {
        c, r := t[0].name, Render(t[1..]);
      } else {
        c, r := Shape(t[1..]);
        if HasTag(t) { assert Render(t) == t[0].text + (Leading(t[1..]) + Mark(c) + r); }
      }
    }
  }

  lemma {:induction false} RenderIsDoubled(t: seq<Piece>)
    requires WellFormed(t)
    ensures Doubled(Render(t))
  {
    var c, r := Shape(t);
    if Leading(t) != "" { assert Render(t)[0] == Leading(t)[0]; }
  }

  lemma {:induction false} ReadsLikeATag(t: seq<Piece>, name: string)
    requires WellFormed(t) && IsName(name)
    ensures Reads(Render(t), name) <==> HasTag(t) && Leading(t) == name
    ensures Reads(Render(t), name) ==> |Render(t)| > |name| + 2 && Render(t)[|name| + 2] != '$'
  {
    var c, r := Shape(t);
    var s, l, n := Render(t), Leading(t), |name|;
    var w := name + "$$";
    assert w[n] == '$';
    if HasTag(t) {
      if |l| < n {
        assert s[|l|] == '$' && w[|l|] == name[|l|];
        assert n + 2 <= |s| ==> s[..n + 2][|l|] == '$';
      } else if n < |l| {
        assert s[n] == l[n];
        assert n + 2 <= |s| ==> s[..n + 2][n] == l[n];
      } else {
        assert s[..n + 2] == l + "$$";
        assert (l + "$$")[..n] == l && w[..n] == name;
        assert s[n + 2] == c[0];
      }
    } else {
      assert n + 2 <= |s| ==> s[..n + 2][n] == l[n];
    }
  }

  lemma {:induction false} CancelPrefix(p: string, a: string, b: string)
    ensures p + a == p + b <==> a == b
  {
    assert (p + a)[|p|..] == a && (p + b)[|p|..] == b;
  }

  /** Replacing `name` behind the literal text `x` fills the template in. */
  predicate Fills(x: string, t: seq<Piece>, name: string, value: string) {
    Replaced(x + Render(t), Mark(name), value) == x + Render(Fill(t, name, value))
  }

  lemma {:induction false} TextFirst(x: string, t: seq<Piece>, name: string, value: string)
    requires t != [] && t[0].Text?
    ensures Fills(x, t, name, value) <==> Fills(x + t[0].text, t[1..], name, value)
  {
    FillTail(t, name, value);
    assert x + Render(t) == (x + t[0].text) + Render(t[1..]);
    assert x + Render(Fill(t, name, value)) == (x + t[0].text) + Render(Fill(t[1..], name, value));
  }

  lemma {:induction false} OwnTagFirst(x: string, t: seq<Piece>, name: string, value: string)
    requires Plain(x) && t != [] && t[0] == Tag(name)
    ensures Fills(x, t, name, value) <==> Fills("", t[1..], name, value)
  {
    var rest, filled := Render(t[1..]), Render(Fill(t[1..], name, value));
    FillTail(t, name, value);
    assert "" + rest == rest && "" + filled == filled;
    assert x + Render(t) == x + Mark(name) + rest;
    assert x + Render(Fill(t, name, value)) == x + value + filled;
    OwnTag(x, rest, name, value);
    CancelPrefix(x + value, Replaced(rest, Mark(name), value), filled);
  }

  lemma {:induction false} FillsWithNothingBefore(t: seq<Piece>, name: string, value: string)
    ensures Fills("", t, name, value) <==> Replaced(Render(t), Mark(name), value) == Render(Fill(t, name, value))
  {
    assert "" + Render(t) == Render(t);
    assert "" + Render(Fill(t, name, value)) == Render(Fill(t, name, value));
  }

  lemma {:induction false} FillsBehindTag(x: string, t: seq<Piece>, name: string, value: string)
    requires t != [] && t[0].Tag? && t[0].name != name
    ensures Fills(x, t, name, value) <==>
      Replaced(x + Mark(t[0].name) + Render(t[1..]), Mark(name), value) == x + Mark(t[0].name) + Render(Fill(t[1..], name, value))
  {
    FillTail(t, name, value);
    assert x + Render(t) == x + Mark(t[0].name) + Render(t[1..]);
    assert x + Render(Fill(t, name, value)) == x + Mark(t[0].name) + Render(Fill(t[1..], name, value));
  }

  lemma {:induction false} ForeignTagFirst(x: string, t: seq<Piece>, name: string, value: string)
    requires Plain(x) && WellFormed(t) && IsName(name) && Plain(value)
    requires t != [] && t[0].Tag? && t[0].name != name
    ensures Fills(x, t, name, value) <==>
      !(HasTag(t[1..]) && Leading(t[1..]) == name) && Fills("", t[1..], name, value)
  {
    RenderIsDoubled(t[1..]);
    ReadsLikeATag(t[1..], name);
    FillsBehindTag(x, t, name, value);
    FillsWithNothingBefore(t[1..], name, value);
    ForeignTagBefore(x, t[0].name, Render(t[1..]), Render(Fill(t[1..], name, value)), name, value);
  }

  lemma {:induction false} ForeignTagBefore(x: string, other: string, rest: string, filled: string, name: string, value: string)
    requires Plain(x) && IsName(other) && IsName(name) && other != name && Doubled(rest) && Plain(value)
    requires Reads(rest, name) ==> |rest| > |name| + 2 && rest[|name| + 2] != '$'
    ensures Replaced(x + Mark(other) + rest, Mark(name), value) == x + Mark(other) + filled
      <==> !Reads(rest, name) && Replaced(rest, Mark(name), value) == filled
  {
    if Reads(rest, name) {
      FalseMatch(x, other, rest, name, value);
      assert (x + Mark(other) + filled)[|x| + 2 + |other|] == '$';
    } else {
      ForeignTagIsKept(x, other, rest, name, value);
      CancelPrefix(x + Mark(other), Replaced(rest, Mark(name), value), filled);
    }
  }

  /** Replacing a tag gives the filled-in template if and only if no literal text
      between two neighbouring tags mimics that tag.  `x` is literal text in front. */
  lemma {:induction false} ReplacingFillsExactlyWithoutMimics(x: string, t: seq<Piece>, name: string, value: string)
    requires Plain(x) && WellFormed(t) && IsName(name) && Plain(value)
    ensures Replaced(x + Render(t), Mark(name), value) == x + Render(Fill(t, name, value)) <==> !Mimics(t, name)
    decreases |t|
  {
    if t == [] {
      assert x + "" == x;
      PlainIsKept(x, name, value);
    } else if t[0].Text? {
      ReplacingFillsExactlyWithoutMimics(x + t[0].text, t[1..], name, value);
      TextFirst(x, t, name, value);
    } else {
      ReplacingFillsExactlyWithoutMimics("", t[1..], name, value);
      if t[0].name == name {
        OwnTagFirst(x, t, name, value);
      } else {
        ForeignTagFirst(x, t, name, value);
      }
    }
  }

  /** The smallest surprise: a literal B between two tags is taken for the tag B. */
  lemma {:induction false} LiteralTakenForTag()
    ensures var t := [Tag("A"), Text("B"), Tag("C")];
      && Mimics(t, "B")
      && Fill(t, "B", "x") == t
      && Replaced(Render(t), Mark("B"), "x") != Render(t)
  {
    var t := [Tag("A"), Text("B"), Tag("C")];
    assert t[1..] == [Text("B"), Tag("C")] && t[1..][1..] == [Tag("C")] && t[1..][1..][1..] == [];
    assert Leading(t[1..]) == "B" + Leading(t[1..][1..]) == "B";
    assert HasTag(t[1..][1..]);
    assert Fill(t, "B", "x") == t;
    ReplacingFillsExactlyWithoutMimics("", t, "B", "x");
    assert "" + Render(t) == Render(t);
  }

  // ---- Chained replacements ----

  datatype Binding = Binding(name: string, value: string)

  /** The chained calls, first binding first. */
  function ReplacedChain(s: string, bs: seq<Binding>): string
    decreases |bs|
  {
    if bs == [] then s else ReplacedChain(Replaced(s, Mark(bs[0].name), bs[0].value), bs[1..])
  }

  function FillChain(t: seq<Piece>, bs: seq<Binding>): seq<Piece>
    decreases |bs|
  {
    if bs == [] then t else FillChain(Fill(t, bs[0].name, bs[0].value), bs[1..])
  }

  predicate Proper(b: Binding) {
    IsName(b.name) && Plain(b.value)
  }

  ghost predicate AllProper(bs: seq<Binding>) {
    forall i :: 0 <= i < |bs| ==> Proper(bs[i])
  }

  lemma {:induction false} ReplacedChainSnoc(s: string, bs: seq<Binding>, b: Binding)
    ensures ReplacedChain(s, bs + [b]) == Replaced(ReplacedChain(s, bs), Mark(b.name), b.value)
    decreases |bs|
  {
    if bs == [] {
      assert ([] + [b])[1..] == [];
    } else {
      assert (bs + [b])[1..] == bs[1..] + [b];
      ReplacedChainSnoc(Replaced(s, Mark(bs[0].name), bs[0].value), bs[1..], b);
    }
  }

  lemma {:induction false} FillChainSnoc(t: seq<Piece>, bs: seq<Binding>, b: Binding)
    ensures FillChain(t, bs + [b]) == Fill(FillChain(t, bs), b.name, b.value)
    decreases |bs|
  {
    if bs == [] {
      assert ([] + [b])[1..] == [];
    } else {
      assert (bs + [b])[1..] == bs[1..] + [b];
      FillChainSnoc(Fill(t, bs[0].name, bs[0].value), bs[1..], b);
    }
  }

  lemma {:induction false} FillChainKeepsForm(t: seq<Piece>, bs: seq<Binding>)
    requires WellFormed(t) && AllProper(bs)
    ensures WellFormed(FillChain(t, bs))
    decreases |bs|
  {
    if bs != [] {
      assert Proper(bs[0]);
      FillChainKeepsForm(Fill(t, bs[0].name, bs[0].value), bs[1..]);
    }
  }

  /** The chained calls give the template with its tags filled in. */
  ghost predicate Agrees(t: seq<Piece>, bs: seq<Binding>) {
    ReplacedChain(Render(t), bs) == Render(FillChain(t, bs))
  }

  ghost predicate AgreesAllAlong(t: seq<Piece>, bs: seq<Binding>) {
    forall k :: 0 <= k <= |bs| ==> Agrees(t, bs[..k])
  }

  /** No call finds, in the template as filled in so far, a mimic of its tag. */
  ghost predicate MeetsNoMimics(t: seq<Piece>, bs: seq<Binding>) {
    forall k :: 0 <= k < |bs| ==> !Mimics(FillChain(t, bs[..k]), bs[k].name)
  }

  lemma {:induction false} AllAlongSnoc(t: seq<Piece>, bs: seq<Binding>, b: Binding)
    ensures AgreesAllAlong(t, bs + [b]) <==> AgreesAllAlong(t, bs) && Agrees(t, bs + [b])
  {
    var more := bs + [b];
    forall k | 0 <= k <= |bs| ensures more[..k] == bs[..k] {}
    assert more[..|more|] == more;
  }

  lemma {:induction false} NoMimicsSnoc(t: seq<Piece>, bs: seq<Binding>, b: Binding)
    ensures MeetsNoMimics(t, bs + [b]) <==> MeetsNoMimics(t, bs) && !Mimics(FillChain(t, bs), b.name)
  {
    var more := bs + [b];
    forall k | 0 <= k < |bs| ensures more[..k] == bs[..k] && more[k] == bs[k] {}
    assert more[..|bs|] == bs && more[|bs|] == b;
  }

  /** One more call, on a text that agrees with the template so far. */
  lemma {:induction false} NextCallAgrees(t: seq<Piece>, bs: seq<Binding>, b: Binding)
    requires WellFormed(t) && AllProper(bs) && Proper(b) && Agrees(t, bs)
    ensures Agrees(t, bs + [b]) <==> !Mimics(FillChain(t, bs), b.name)
  {
    var u := FillChain(t, bs);
    FillChainKeepsForm(t, bs);
    ReplacedChainSnoc(Render(t), bs, b);
    FillChainSnoc(t, bs, b);
    ReplacingFillsExactlyWithoutMimics("", u, b.name, b.value);
    FillsWithNothingBefore(u, b.name, b.value);
  }

  /** Chained replacement fills in the template, at every stage, if and only if no
      call meets a mimic of its tag: a literal that was there, or one that the
      values filled in before have completed. */
  lemma {:induction false} ChainFillsExactlyWithoutMimics(t: seq<Piece>, bs: seq<Binding>)
    requires WellFormed(t) && AllProper(bs)
    ensures AgreesAllAlong(t, bs) <==> MeetsNoMimics(t, bs)
    decreases |bs|
  {
    if bs == [] {
      assert bs[..0] == [];
    } else {
      var n := |bs| - 1;
      var before, b := bs[..n], bs[n];
      assert bs == before + [b];
      assert Proper(b);
      ChainFillsExactlyWithoutMimics(t, before);
      AllAlongSnoc(t, before, b);
      NoMimicsSnoc(t, before, b);
      if AgreesAllAlong(t, before) {
        assert before[..n] == before;
        assert Agrees(t, before);
        NextCallAgrees(t, before, b);
      }
    }
  }

  lemma {:induction false} BehindText(x: string, rest: seq<Piece>, name: string)
    ensures Leading([Text(x)] + rest) == x + Leading(rest)
    ensures HasTag([Text(x)] + rest) <==> HasTag(rest)
    ensures Mimics([Text(x)] + rest, name) <==> Mimics(rest, name)
  {
    assert ([Text(x)] + rest)[1..] == rest;
  }

  lemma {:induction false} BehindTag(tag: string, rest: seq<Piece>, name: string)
    ensures Leading([Tag(tag)] + rest) == "" && HasTag([Tag(tag)] + rest)
    ensures Mimics([Tag(tag)] + rest, name) <==> (tag != name && HasTag(rest) && Leading(rest) == name) || Mimics(rest, name)
  {
    assert ([Tag(tag)] + rest)[1..] == rest;
  }

  function FromC(): seq<Piece> { [Tag("C")] + ([Text("")] + ([Tag("xvy")] + [])) }

  /** The template of the example, with `b` between the x and the y. */
  function Example(b: Piece): seq<Piece> {
    [Tag("A")] + ([Text("x")] + ([b] + ([Text("y")] + FromC())))
  }

  lemma {:induction false} MimicsFromC(name: string)
    requires name != ""
    ensures !Mimics(FromC(), name) && HasTag(FromC()) && Leading(FromC()) == ""
  {
    var last := [Tag("xvy")] + [];
    BehindTag("xvy", [], name);
    BehindText("", last, name);
    assert "" + "" == "";
    BehindTag("C", [Text("")] + last, name);
  }

  lemma {:induction false} NoMimicsYet(name: string)
    requires name != "" && name != "x" && name != "y"
    ensures !Mimics(Example(Tag("B")), name)
  {
    var y := [Text("y")] + FromC();
    MimicsFromC(name);
    BehindText("y", FromC(), name);
    assert "y" + "" == "y";
    BehindTag("B", y, name);
    BehindText("x", [Tag("B")] + y, name);
    assert "x" + "" == "x";
    BehindTag("A", [Text("x")] + ([Tag("B")] + y), name);
  }

  lemma {:induction false} MimicAfterB()
    ensures Mimics(Example(Text("v")), "xvy")
  {
    var y := [Text("y")] + FromC();
    MimicsFromC("xvy");
    BehindText("y", FromC(), "xvy");
    BehindText("v", y, "xvy");
    BehindText("x", [Text("v")] + y, "xvy");
    assert "x" + ("v" + ("y" + "")) == "xvy";
    BehindTag("A", [Text("x")] + ([Text("v")] + y), "xvy");
  }

  /** Two calls of which the first goes right and the second does not. */
  lemma {:induction false} SecondCallFails(t: seq<Piece>, b: Binding, c: Binding)
    requires WellFormed(t) && Proper(b) && Proper(c)
    requires !Mimics(t, b.name) && Mimics(Fill(t, b.name, b.value), c.name)
    ensures ReplacedChain(Render(t), [b, c]) != Render(FillChain(t, [b, c]))
  {
    assert Agrees(t, []);
    NextCallAgrees(t, [], b);
    assert [] + [b] == [b];
    FillChainSnoc(t, [], b);
    NextCallAgrees(t, [b], c);
    assert [b] + [c] == [b, c];
  }

  lemma {:induction false} ExampleFilled()
    ensures WellFormed(Example(Tag("B"))) && Fill(Example(Tag("B")), "B", "v") == Example(Text("v"))
  {
    assert |Example(Tag("B"))| == |Example(Text("v"))| == 7;
  }

  lemma {:induction false} ExampleIsProper()
    ensures Proper(Binding("B", "v")) && Proper(Binding("xvy", "z"))
  {
  }

  /** No tag has a mimic at first; but filling in B makes one of the last tag. */
  lemma {:induction false} FillingMakesAMimic()
    ensures var t := Example(Tag("B"));
      && !Mimics(t, "A") && !Mimics(t, "B") && !Mimics(t, "C") && !Mimics(t, "xvy")
      && var bs := [Binding("B", "v"), Binding("xvy", "z")];
         ReplacedChain(Render(t), bs) != Render(FillChain(t, bs))
  {
    var t, b, c := Example(Tag("B")), Binding("B", "v"), Binding("xvy", "z");
    NoMimicsYet("A");
    NoMimicsYet("B");
    NoMimicsYet("C");
    NoMimicsYet("xvy");
    MimicAfterB();
    ExampleFilled();
    ExampleIsProper();
    SecondCallFails(t, b, c);
  }

  // ---- A simple guard ----

  /** Between two neighbouring tags there is always a character no name has. */
  predicate Guarded(t: seq<Piece>, guard: char) {
    t != [] ==>
      && (t[0].Tag? ==> guard !in t[0].name && (HasTag(t[1..]) ==> guard in Leading(t[1..])))
      && Guarded(t[1..], guard)
  }

  lemma {:induction false} GuardedHasNoMimics(t: seq<Piece>, guard: char, name: string)
    requires Guarded(t, guard) && guard !in name
    ensures !Mimics(t, name)
  {
    if t != [] { GuardedHasNoMimics(t[1..], guard, name); }
  }

  lemma {:induction false} FillingKeepsLeading(t: seq<Piece>, name: string, value: string)
    ensures Leading(t) <= Leading(Fill(t, name, value))
    ensures HasTag(Fill(t, name, value)) ==> HasTag(t)
  {
    if t != [] {
      FillTail(t, name, value);
      FillingKeepsLeading(t[1..], name, value);
    }
  }

  lemma {:induction false} FillingKeepsGuards(t: seq<Piece>, guard: char, name: string, value: string)
    requires Guarded(t, guard)
    ensures Guarded(Fill(t, name, value), guard)
  {
    if t != [] {
      FillTail(t, name, value);
      FillingKeepsGuards(t[1..], guard, name, value);
      FillingKeepsLeading(t[1..], name, value);
    }
  }

  lemma {:induction false} ChainKeepsGuards(t: seq<Piece>, guard: char, bs: seq<Binding>)
    requires Guarded(t, guard)
    ensures Guarded(FillChain(t, bs), guard)
    decreases |bs|
  {
    if bs != [] {
      FillingKeepsGuards(t, guard, bs[0].name, bs[0].value);
      ChainKeepsGuards(Fill(t, bs[0].name, bs[0].value), guard, bs[1..]);
    }
  }

  predicate Usable(b: Binding, guard: char) {
    Proper(b) && guard !in b.name
  }

  lemma {:induction false} GuardedMeetsNoMimics(t: seq<Piece>, guard: char, bs: seq<Binding>)
    requires Guarded(t, guard)
    requires forall i :: 0 <= i < |bs| ==> Usable(bs[i], guard)
    ensures AllProper(bs) && MeetsNoMimics(t, bs)
  {
    forall k | 0 <= k < |bs| ensures !Mimics(FillChain(t, bs[..k]), bs[k].name) {
      ChainKeepsGuards(t, guard, bs[..k]);
      GuardedHasNoMimics(FillChain(t, bs[..k]), guard, bs[k].name);
    }
  }

  lemma {:induction false} ChainAgrees(t: seq<Piece>, bs: seq<Binding>)
    requires WellFormed(t) && AllProper(bs) && MeetsNoMimics(t, bs)
    ensures Agrees(t, bs)
  {
    ChainFillsExactlyWithoutMimics(t, bs);
    assert bs[..|bs|] == bs;
  }

  /** On a guarded template chained replacement fills in the tags, at any length. */
  lemma {:induction false} ChainFills(t: seq<Piece>, guard: char, bs: seq<Binding>)
    requires WellFormed(t) && Guarded(t, guard)
    requires forall i :: 0 <= i < |bs| ==> Usable(bs[i], guard)
    ensures ReplacedChain(Render(t), bs) == Render(FillChain(t, bs))
  {
    GuardedMeetsNoMimics(t, guard, bs);
    ChainAgrees(t, bs);
  }

  // ---- Any order ----

  /** What each piece becomes, without saying in which order. */
  ghost predicate FilledBy(p: Piece, q: Piece, bs: seq<Binding>) {
    if p.Tag? && exists i :: 0 <= i < |bs| && bs[i].name == p.name
    then exists i :: 0 <= i < |bs| && bs[i].name == p.name && q == Text(bs[i].value)
    else q == p
  }

  ghost predicate DistinctNames(bs: seq<Binding>) {
    forall i, j :: 0 <= i < j < |bs| ==> bs[i].name != bs[j].name
  }

  lemma {:induction false} ChainFillsEachPiece(t: seq<Piece>, bs: seq<Binding>, k: nat)
    requires k < |t| && DistinctNames(bs)
    ensures |FillChain(t, bs)| == |t| && FilledBy(t[k], FillChain(t, bs)[k], bs)
    decreases |bs|
  {
    if bs != [] {
      var u := Fill(t, bs[0].name, bs[0].value);
      ChainFillsEachPiece(u, bs[1..], k);
      forall i | 0 <= i < |bs[1..]| ensures bs[1..][i] == bs[i + 1] && bs[i + 1].name != bs[0].name {}
      if t[k].Tag? {
        if t[k].name == bs[0].name {
          assert FilledBy(t[k], FillChain(t, bs)[k], bs);
        } else if exists i :: 0 <= i < |bs[1..]| && bs[1..][i].name == t[k].name {
          var i :| 0 <= i < |bs[1..]| && bs[1..][i].name == t[k].name && FillChain(t, bs)[k] == Text(bs[1..][i].value);
          assert bs[i + 1].name == t[k].name;
        } else {
          forall i | 0 <= i < |bs| ensures bs[i].name != t[k].name {
            if i > 0 { assert bs[1..][i - 1] == bs[i]; }
          }
        }
      }
    }
  }

  lemma {:induction false} FilledTheSame(p: Piece, q: Piece, q': Piece, bs: seq<Binding>, cs: seq<Binding>)
    requires DistinctNames(bs) && multiset(bs) == multiset(cs)
    requires FilledBy(p, q, bs) && FilledBy(p, q', cs)
    ensures q == q'
  {
    forall i | 0 <= i < |cs| ensures cs[i] in bs { assert cs[i] in multiset(cs); }
    forall i | 0 <= i < |bs| ensures bs[i] in cs { assert bs[i] in multiset(bs); }
  }

  lemma {:induction false} FillChainIgnoresOrder(t: seq<Piece>, bs: seq<Binding>, cs: seq<Binding>)
    requires DistinctNames(bs) && DistinctNames(cs) && multiset(bs) == multiset(cs)
    ensures FillChain(t, bs) == FillChain(t, cs)
  {
    forall k | 0 <= k < |t| ensures |FillChain(t, bs)| == |t| == |FillChain(t, cs)| && FillChain(t, bs)[k] == FillChain(t, cs)[k] {
      ChainFillsEachPiece(t, bs, k);
      ChainFillsEachPiece(t, cs, k);
      FilledTheSame(t[k], FillChain(t, bs)[k], FillChain(t, cs)[k], bs, cs);
    }
    if t == [] { ChainOfNothing(bs); ChainOfNothing(cs); }
  }

  lemma {:induction false} ReorderedIsProper(bs: seq<Binding>, cs: seq<Binding>)
    requires AllProper(bs) && multiset(bs) == multiset(cs)
    ensures AllProper(cs)
  {
    forall i | 0 <= i < |cs| ensures Proper(cs[i]) {
      assert cs[i] in multiset(cs);
      assert cs[i] in multiset(bs);
    }
  }

  lemma {:induction false} ReorderedIsDistinct(bs: seq<Binding>, cs: seq<Binding>)
    requires DistinctNames(bs) && multiset(bs) == multiset(cs)
    ensures DistinctNames(cs)
  {
    forall i, j | 0 <= i < j < |cs| ensures cs[i].name != cs[j].name {
      assert cs[i] in multiset(bs) && cs[j] in multiset(bs) by { assert cs[i] in multiset(cs) && cs[j] in multiset(cs); }
      if cs[i] == cs[j] {
        AppearsTwice(cs, i, j);
        OnceAtMost(bs, cs[i]);
      }
    }
  }

  lemma {:induction false} OnceAtMost(bs: seq<Binding>, b: Binding)
    requires DistinctNames(bs)
    ensures multiset(bs)[b] <= 1
    decreases |bs|
  {
    if bs != [] {
      PopFront(bs);
      OnceAtMost(bs[1..], b);
      forall i | 0 <= i < |bs[1..]| ensures bs[1..][i] != bs[0] {
        assert bs[1..][i] == bs[i + 1];
      }
      assert bs[0] !in bs[1..];
    }
  }

  ghost predicate AgreesInAnyOrder(t: seq<Piece>, bs: seq<Binding>) {
    forall cs: seq<Binding> :: multiset(cs) == multiset(bs) ==> AgreesAllAlong(t, cs)
  }

  ghost predicate MeetsNoMimicsInAnyOrder(t: seq<Piece>, bs: seq<Binding>) {
    forall cs: seq<Binding> :: multiset(cs) == multiset(bs) ==> MeetsNoMimics(t, cs)
  }

  /** Every order fills the template in if and only if no order meets a mimic. */
  lemma {:induction false} AnyOrderFillsExactlyWithoutMimics(t: seq<Piece>, bs: seq<Binding>)
    requires WellFormed(t) && AllProper(bs)
    ensures AgreesInAnyOrder(t, bs) <==> MeetsNoMimicsInAnyOrder(t, bs)
  {
    forall cs: seq<Binding> | multiset(cs) == multiset(bs) ensures AgreesAllAlong(t, cs) <==> MeetsNoMimics(t, cs) {
      ReorderedIsProper(bs, cs);
      ChainFillsExactlyWithoutMimics(t, cs);
    }
  }

  /** Two orders that meet no mimics give the same text. */
  lemma {:induction false} OrdersAgree(t: seq<Piece>, bs: seq<Binding>, cs: seq<Binding>)
    requires WellFormed(t) && AllProper(bs) && DistinctNames(bs) && multiset(bs) == multiset(cs)
    requires MeetsNoMimics(t, bs) && MeetsNoMimics(t, cs)
    ensures ReplacedChain(Render(t), bs) == ReplacedChain(Render(t), cs)
  {
    ReorderedIsProper(bs, cs);
    ReorderedIsDistinct(bs, cs);
    ChainAgrees(t, bs);
    ChainAgrees(t, cs);
    FillChainIgnoresOrder(t, bs, cs);
  }

  /** On a guarded template the order of the replacements does not matter. */
  lemma {:induction false} AnyOrderGivesTheSame(t: seq<Piece>, guard: char, bs: seq<Binding>, cs: seq<Binding>)
    requires WellFormed(t) && Guarded(t, guard)
    requires forall i :: 0 <= i < |bs| ==> Usable(bs[i], guard)
    requires DistinctNames(bs) && multiset(bs) == multiset(cs)
    ensures ReplacedChain(Render(t), bs) == ReplacedChain(Render(t), cs)
  {
    forall i | 0 <= i < |cs| ensures Usable(cs[i], guard) {
      assert cs[i] in multiset(cs);
      assert cs[i] in multiset(bs);
    }
    GuardedMeetsNoMimics(t, guard, bs);
    GuardedMeetsNoMimics(t, guard, cs);
    OrdersAgree(t, bs, cs);
  }

  lemma {:induction false} ChainOfNothing(bs: seq<Binding>)
    ensures FillChain([], bs) == []
    decreases |bs|
  {
    if bs != [] { ChainOfNothing(bs[1..]); }
  }
}
