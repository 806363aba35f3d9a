/** Joining sequences. */
module Seqs {
  function Concat<T>(parts: seq<seq<T>>): seq<T> {
    if parts == [] then [] else Concat(parts[..|parts| - 1]) + parts[|parts| - 1]
  }

  lemma {:induction false} ConcatAppend<T>(a: seq<seq<T>>, b: seq<seq<T>>)
    ensures Concat(a + b) == Concat(a) + Concat(b)
  {
    if b == [] {
      assert a + b == a;
    } else {
      var front, last := b[..|b| - 1], b[|b| - 1];
      assert (a + b)[..|a + b| - 1] == a + front && (a + b)[|a + b| - 1] == last;
      assert Concat(a + b) == Concat(a + front) + last && Concat(b) == Concat(front) + last;
      hide Concat;
      ConcatAppend(a, front);
      assert Concat(a) + Concat(front) + last == Concat(a) + (Concat(front) + last);
    }
  }

  lemma ConcatOne<T>(part: seq<T>)
    ensures Concat([part]) == part
  {
    assert [part][..0] == [];
  }

  lemma ConcatSnoc<T>(parts: seq<seq<T>>, part: seq<T>)
    ensures Concat(parts + [part]) == Concat(parts) + part
  {
    assert (parts + [part])[..|parts|] == parts;
  }

  lemma Regroup<T>(a: seq<T>, b: seq<T>, t: seq<T>, c: seq<T>, d: seq<T>)
    requires b + t == c + d
    ensures (a + b) + t == (a + c) + d
  {
    assert (a + b) + t == a + (b + t);
    assert (a + c) + d == a + (c + d);
  }

  lemma FrontBack<T>(s: seq<T>, n: nat, a: seq<T>, b: seq<T>)
    requires n <= |s| && a + b == s[n..]
    ensures s[..n] + a + b == s
  {
    assert s[..n] + a + b == s[..n] + (a + b);
  }
}
