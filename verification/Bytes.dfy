/** Byte strings: taking off a front, and putting pieces together. */
module Bytes {
  /** Taking bytes off the front, one after the other, while there are any. */
  function Dropped(s: seq<char>, n: nat): (r: seq<char>)
    ensures |r| == if n < |s| then |s| - n else 0
  {
    if n == 0 || s == [] then s else Dropped(s[1..], n - 1)
  }

  lemma {:induction false} DroppedIs(s: seq<char>, n: nat)
    ensures Dropped(s, n) == if n < |s| then s[n..] else []
  {
    if n > 0 && s != [] { DroppedIs(s[1..], n - 1); }
  }

  lemma DroppedTwice(s: seq<char>, i: nat, n: nat)
    ensures Dropped(Dropped(s, i), n) == Dropped(s, i + n)
  {
    DroppedIs(s, i);
    DroppedIs(Dropped(s, i), n);
    DroppedIs(s, i + n);
  }

  /** What is left of `s` behind its first `n` bytes. */
  lemma Parts(s: seq<char>, n: nat)
    requires n <= |s|
    ensures n < |s| ==> Dropped(s, n)[0] == s[n]
    ensures n + 1 < |s| ==> Dropped(s, n)[1] == s[n + 1]
    ensures forall k: nat :: Dropped(Dropped(s, n), k) == Dropped(s, n + k)
  {
    DroppedIs(s, n);
    forall k: nat ensures Dropped(Dropped(s, n), k) == Dropped(s, n + k) { DroppedTwice(s, n, k); }
  }

  function Flat(p: seq<seq<char>>): (r: seq<char>) {
    if p == [] then [] else p[0] + Flat(p[1..])
  }

  lemma {:induction false} FlatConcat(p: seq<seq<char>>, q: seq<seq<char>>)
    ensures Flat(p + q) == Flat(p) + Flat(q)
  {
    if p == [] {
      assert p + q == q;
    } else {
      FlatConcat(p[1..], q);
      assert (p + q)[1..] == p[1..] + q;
    }
  }

  lemma FlatOne(b: seq<char>)
    ensures Flat([b]) == b
  {
    assert [b][1..] == [];
  }
}
