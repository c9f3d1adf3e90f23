/** Counting with multisets. */
module Counting {
  /** The numbers below n, each once. */
  function Upto(n: nat): seq<nat> {
    seq(n, (i: nat) => i)
  }

  lemma {:induction false} UptoOnce(n: nat, b: nat)
    ensures multiset(Upto(n))[b] == if b < n then 1 else 0
  {
    if n > 0 {
      UptoOnce(n - 1, b);
      assert Upto(n) == Upto(n - 1) + [n - 1];
    }
  }

  lemma {:induction false} UptoSnoc(n: nat)
    ensures Upto(n + 1) == Upto(n) + [n]
  {
  }

  lemma {:induction false} RemoveAt<T>(s: seq<T>, i: nat)
    requires i < |s|
    ensures multiset(s) == multiset(s[..i] + s[i + 1..]) + multiset{s[i]}
  {
    assert s == s[..i] + [s[i]] + s[i + 1..];
  }

  lemma {:induction false} PopFront<T>(s: seq<T>)
    requires s != []
    ensures multiset(s) == multiset{s[0]} + multiset(s[1..])
  {
    assert s == [s[0]] + s[1..];
  }

  lemma {:induction false} AppearsTwice<T>(s: seq<T>, i: nat, j: nat)
    requires i < j < |s| && s[i] == s[j]
    ensures multiset(s)[s[i]] >= 2
  {
    RemoveAt(s, i);
    assert (s[..i] + s[i + 1..])[j - 1] == s[j];
  }
}
