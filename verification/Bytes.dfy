/** Bytes and byte strings, shared by every model of a `Buffer`. */
module Bytes {

  type Byte = x: int | 0 <= x < 256

  /** The parts joined end to end. */
  function Flat<T>(parts: seq<seq<T>>): seq<T> {
    if parts == [] then [] else Flat(parts[..|parts| - 1]) + parts[|parts| - 1]
  }

  lemma {:induction false} FlatAppend<T>(a: seq<seq<T>>, b: seq<seq<T>>)
    ensures Flat(a + b) == Flat(a) + Flat(b)
  {
    if b == [] {
      assert a + b == a;
    } else {
      var init := b[..|b| - 1];
      FlatAppend(a, init);
      assert (a + b)[..|a + b| - 1] == a + init;
    }
  }

  lemma FlatOne<T>(p: seq<T>)
    ensures Flat([p]) == p
  {
    assert [p][..0] == [];
  }

  lemma FlatCons<T>(p: seq<T>, rest: seq<seq<T>>)
    ensures Flat([p] + rest) == p + Flat(rest)
  {
    FlatAppend([p], rest);
    FlatOne(p);
  }

  lemma Rejoin<T>(a: seq<T>, b: seq<T>, c: seq<T>)
    ensures (a + b) + c == a + (b + c)
  {
  }

  lemma DropAppend<T>(s: seq<T>, c: seq<T>, n: nat)
    requires n <= |s|
    ensures (s + c)[n..] == s[n..] + c
  {
  }

  lemma Unsnoc<T>(s: seq<T>)
    requires s != []
    ensures s == s[..|s| - 1] + [s[|s| - 1]]
  {
  }

  lemma TakeAppend<T>(s: seq<T>, c: seq<T>, n: nat)
    requires n <= |s|
    ensures (s + c)[..n] == s[..n]
  {
  }

  /** `s` begins with `head`. */
  predicate Begins<T(==)>(s: seq<T>, head: seq<T>) {
    |head| <= |s| && s[..|head|] == head
  }
}
