/** Insertion into a sequence, shared by the two places that sort. */
module Sequences {

  function Inserted<T>(s: seq<T>, x: T, i: nat): seq<T>
    requires i <= |s|
  {
    s[..i] + [x] + s[i..]
  }

  lemma InsertedMembers<T>(s: seq<T>, x: T, i: nat)
    requires i <= |s|
    ensures forall y :: y in Inserted(s, x, i) <==> y in s || y == x
  {
    var low, high := s[..i], s[i..];
    assert forall y :: y in low + [x] + high <==> y in low || y == x || y in high;
    assert s == low + high;
  }

  lemma InsertedAt<T>(s: seq<T>, x: T, i: nat, k: nat)
    requires i <= |s| && k <= |s|
    ensures Inserted(s, x, i)[k] == if k < i then s[k] else if k == i then x else s[k - 1]
  {
  }
}
