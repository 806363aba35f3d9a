/** The symbol table of SimpleDescriptorDatabase: conflicts and lookups that look at neighbours
    only (descriptor_database.cc). */
module SymbolIndex {
  import opened Wrappers
  import opened Symbols

  ghost predicate Sorted(keys: seq<string>) {
    forall i, j :: 0 <= i < j < |keys| ==> Below(keys[i], keys[j])
  }

  ghost predicate AllLegal(keys: seq<string>) { forall i :: 0 <= i < |keys| ==> Legal(keys[i]) }

  /** The map invariant: no symbol is equal to or a parent of another. */
  ghost predicate NoParents(keys: seq<string>) {
    forall i, j :: 0 <= i < |keys| && 0 <= j < |keys| && i != j ==> !IsSubSymbol(keys[i], keys[j])
  }

  /** The table already has the name, a parent of it or a child of it. */
  ghost predicate Conflicts(keys: seq<string>, name: string) {
    exists i :: 0 <= i < |keys| && (IsSubSymbol(keys[i], name) || IsSubSymbol(name, keys[i]))
  }

  /** How many keys sort at or below the name: the position of upper_bound. */
  ghost predicate SplitsAt(keys: seq<string>, name: string, n: int) {
    && 0 <= n <= |keys|
    && (forall i :: 0 <= i < n ==> AtMost(keys[i], name))
    && (forall i :: n <= i < |keys| ==> Below(name, keys[i]))
  }

  /** upper_bound on the sorted keys. */
  method UpperBound(keys: seq<string>, name: string) returns (n: nat)
    requires Sorted(keys)
    ensures SplitsAt(keys, name, n)
  {
    n := 0;
    while n < |keys| && !Below(name, keys[n])
      invariant n <= |keys| && forall i :: 0 <= i < n ==> AtMost(keys[i], name)
    {
      n := n + 1;
    }
    forall i | n <= i < |keys| ensures Below(name, keys[i]) {
      if i > n {
        BelowTransitive(name, keys[n], keys[i]);
      }
    }
  }

  /** The last key at or below the name, or the first key if there is none; |keys| if the table
      is empty. */
  method FindLastLessOrEqual(keys: seq<string>, name: string) returns (at: nat)
    requires Sorted(keys)
    ensures exists n :: SplitsAt(keys, name, n) && at == if n > 0 then n - 1 else 0
    ensures at == |keys| <==> keys == []
  {
    var n := UpperBound(keys, name);
    return if n > 0 then n - 1 else 0;
  }

  /** The neighbour that a lookup inspects. */
  ghost predicate Inspects(keys: seq<string>, name: string, at: int) {
    0 <= at < |keys| && exists n :: SplitsAt(keys, name, n) && at == if n > 0 then n - 1 else 0
  }

  /** If any key is the name or a parent of it, the inspected key is. */
  lemma ParentIsInspected(keys: seq<string>, name: string, at: int, k: int)
    requires Sorted(keys) && AllLegal(keys) && NoParents(keys) && Inspects(keys, name, at)
    requires 0 <= k < |keys| && IsSubSymbol(keys[k], name)
    ensures k == at
  {
    ParentIsAtMost(keys[k], name);
    BelowTrichotomy(keys[k], name);
    if k < at {
      BelowTrichotomy(keys[k], keys[at]);
      BetweenIsSubSymbol(keys[k], keys[at], name);
    }
  }

  /** Lookup, for every string: the inspected key decides whether any key equals the name or is
      a parent of it. */
  lemma LookupIsExact(keys: seq<string>, name: string, at: int)
    requires Sorted(keys) && AllLegal(keys) && NoParents(keys) && Inspects(keys, name, at)
    ensures IsSubSymbol(keys[at], name) <==> exists k :: 0 <= k < |keys| && IsSubSymbol(keys[k], name)
    ensures forall k :: 0 <= k < |keys| && IsSubSymbol(keys[k], name) ==> k == at
  {
    forall k | 0 <= k < |keys| && IsSubSymbol(keys[k], name) ensures k == at {
      ParentIsInspected(keys, name, at, k);
    }
  }

  /** The two neighbours that AddSymbol looks at do not conflict with the name. */
  predicate NeighboursAgree(keys: seq<string>, name: string, at: int) {
    |keys| == 0 ||
    (0 <= at < |keys| && !IsSubSymbol(keys[at], name) && (at + 1 < |keys| ==> !IsSubSymbol(name, keys[at + 1])))
  }

  /** The case that the two-neighbour check gets wrong: the name sorts below every key, so the
      first key is compared in the wrong direction only, and the second is no child of the name. */
  ghost predicate SkipsFirst(keys: seq<string>, name: string) {
    |keys| > 0 && Below(name, keys[0]) && IsSubSymbol(name, keys[0]) && (|keys| > 1 ==> !IsSubSymbol(name, keys[1]))
  }

  /** The next key above the name is a child of it if any key is. */
  lemma ChildIsNext(keys: seq<string>, name: string, n: int, k: int)
    requires Sorted(keys) && AllLegal(keys) && SplitsAt(keys, name, n) && 0 <= k < |keys|
    requires IsSubSymbol(name, keys[k]) && keys[k] != name
    ensures n <= k && IsSubSymbol(name, keys[n])
  {
    ParentIsAtMost(name, keys[k]);
    BelowTrichotomy(name, keys[k]);
    BelowTrichotomy(keys[n], keys[k]);
    BelowTrichotomy(name, keys[n]);
    BetweenIsSubSymbol(name, keys[n], keys[k]);
  }

  /** Exactly when AddSymbol accepts a legal name: there is no conflict anywhere, or the name is
      in the case above. */
  lemma NeighboursDecide(keys: seq<string>, name: string, at: int)
    requires Sorted(keys) && AllLegal(keys) && NoParents(keys)
    requires keys == [] || Inspects(keys, name, at)
    ensures NeighboursAgree(keys, name, at) <==> !Conflicts(keys, name) || SkipsFirst(keys, name)
  {
    if keys != [] {
      var n :| SplitsAt(keys, name, n) && at == if n > 0 then n - 1 else 0;
      LookupIsExact(keys, name, at);
      BelowTrichotomy(name, keys[0]);
      if n == 0 {
        AllBelowCase(keys, name);
      } else {
        SomeAtMostCase(keys, name, n);
      }
    }
  }

  lemma AllBelowCase(keys: seq<string>, name: string)
    requires Sorted(keys) && AllLegal(keys) && keys != [] && SplitsAt(keys, name, 0)
    ensures !IsSubSymbol(keys[0], name)
    ensures Conflicts(keys, name) <==> IsSubSymbol(name, keys[0])
    ensures |keys| > 1 && IsSubSymbol(name, keys[1]) ==> IsSubSymbol(name, keys[0])
  {
    forall i | 0 <= i < |keys| ensures !IsSubSymbol(keys[i], name) {
      ParentIsNotAbove(keys[i], name);
    }
    forall i | 0 <= i < |keys| && IsSubSymbol(name, keys[i]) ensures IsSubSymbol(name, keys[0]) {
      BelowTrichotomy(name, keys[i]);
      ChildIsNext(keys, name, 0, i);
    }
  }

  lemma ParentIsNotAbove(p: string, name: string)
    requires Below(name, p)
    ensures !IsSubSymbol(p, name)
  {
    BelowTrichotomy(name, p);
    if p <= name {
      ParentIsAtMost(p, name);
    }
  }

  lemma SomeAtMostCase(keys: seq<string>, name: string, n: int)
    requires Sorted(keys) && AllLegal(keys) && NoParents(keys) && SplitsAt(keys, name, n) && n > 0
    ensures Conflicts(keys, name) <==>
            IsSubSymbol(keys[n - 1], name) || (n < |keys| && IsSubSymbol(name, keys[n]))
    ensures !SkipsFirst(keys, name)
  {
    BelowTrichotomy(name, keys[0]);
    forall i | 0 <= i < |keys| && IsSubSymbol(keys[i], name) ensures i == n - 1 {
      ParentIsInspected(keys, name, n - 1, i);
    }
    forall i | 0 <= i < |keys| && IsSubSymbol(name, keys[i]) && keys[i] != name
      ensures n < |keys| && IsSubSymbol(name, keys[n])
    {
      ChildIsNext(keys, name, n, i);
    }
  }

  /** Whenever the table is empty or some key is not above the name, the check is exact. */
  lemma AddIsExactUnlessBelowAll(keys: seq<string>, name: string, at: int)
    requires Sorted(keys) && AllLegal(keys) && NoParents(keys)
    requires keys == [] || Inspects(keys, name, at)
    requires keys == [] || exists i :: 0 <= i < |keys| && AtMost(keys[i], name)
    ensures NeighboursAgree(keys, name, at) <==> !Conflicts(keys, name)
  {
    NeighboursDecide(keys, name, at);
    if keys != [] {
      var i :| 0 <= i < |keys| && AtMost(keys[i], name);
      BelowTrichotomy(keys[0], keys[i]);
      AtMostTransitive(keys[0], keys[i], name);
    }
  }

  function Inserted<T>(s: seq<T>, n: int, x: T): seq<T>
    requires 0 <= n <= |s|
  {
    s[..n] + [x] + s[n..]
  }

  lemma InsertKeepsSorted(keys: seq<string>, name: string, n: int)
    requires Sorted(keys) && SplitsAt(keys, name, n) && name !in keys
    ensures Sorted(Inserted(keys, n, name))
  {
    var g := Inserted(keys, n, name);
    forall i, j | 0 <= i < j < |g| ensures Below(g[i], g[j]) {
      if i < n && j == n {
        BelowTrichotomy(keys[i], name);
      } else if i == n {
        assert g[j] == keys[j - 1];
      }
    }
  }

  /** An accepted name keeps the map invariant exactly when it conflicted with nothing. */
  lemma InsertKeepsNoParents(keys: seq<string>, name: string, n: int)
    requires NoParents(keys) && 0 <= n <= |keys|
    ensures NoParents(Inserted(keys, n, name)) <==> !Conflicts(keys, name)
  {
    hide IsSubSymbol;
    var g := Inserted(keys, n, name);
    InsertedAt(keys, n, name);
    hide Inserted;
    if Conflicts(keys, name) {
      var i :| 0 <= i < |keys| && (IsSubSymbol(keys[i], name) || IsSubSymbol(name, keys[i]));
      assert g[Shifted(i, n)] == keys[i] && g[n] == name;
    } else {
      forall i, j | 0 <= i < |g| && 0 <= j < |g| && i != j ensures !IsSubSymbol(g[i], g[j]) {
        var a, b := if i < n then i else i - 1, if j < n then j else j - 1;
        if i != n {
          assert g[Shifted(a, n)] == keys[a];
        }
        if j != n {
          assert g[Shifted(b, n)] == keys[b];
        }
      }
    }
  }

  /** Where the element at `i` is after an insertion at `n`. */
  function Shifted(i: int, n: int): int { if i < n then i else i + 1 }

  lemma InsertedAt<T>(s: seq<T>, n: int, x: T)
    requires 0 <= n <= |s|
    ensures |Inserted(s, n, x)| == |s| + 1 && Inserted(s, n, x)[n] == x
    ensures forall i :: 0 <= i < |s| ==> Inserted(s, n, x)[Shifted(i, n)] == s[i]
  {}

  /** The invariant can break, and a lookup then misses a parent: after "a.b", the name "a" is
      accepted, and "a.c" is not found although its parent "a" is in the table. */
  lemma SkippedChildBreaksLookup()
    ensures var keys := ["a.b"];
            && SkipsFirst(keys, "a") && Conflicts(keys, "a") && Inspects(keys, "a", 0) && NeighboursAgree(keys, "a", 0)
            && var after := Inserted(keys, 0, "a");
               Sorted(after) && !NoParents(after) && IsSubSymbol("a", "a.c") && Inspects(after, "a.c", 1) &&
               !IsSubSymbol(after[1], "a.c")
  {
    var keys, after := ["a.b"], ["a", "a.b"];
    assert Inserted(keys, 0, "a") == after;
    BelowAfterPrefix("a", "", ".b");
    assert "a" + "" == "a" && "a" + ".b" == "a.b" && "a" + ".c" == "a.c";
    assert SplitsAt(keys, "a", 0);
    BelowAfterPrefix("a.", "b", "c");
    assert "a." + "b" == "a.b" && "a." + "c" == "a.c";
    BelowTrichotomy("a.b", "a.c");
    ParentIsAtMost("a", "a.c");
    assert SplitsAt(after, "a.c", 2);
    assert IsSubSymbol(after[0], after[1]);
  }

  datatype Entry<V> = Entry(name: string, value: V)

  function Names<V>(entries: seq<Entry<V>>): seq<string> {
    seq(|entries|, i requires 0 <= i < |entries| => entries[i].name)
  }

  lemma InsertedNames<V>(entries: seq<Entry<V>>, n: int, e: Entry<V>)
    requires 0 <= n <= |entries|
    ensures Names(Inserted(entries, n, e)) == Inserted(Names(entries), n, e.name)
  {}

  /** A name that is in the table is the inspected key. */
  lemma OwnNameIsInspected(keys: seq<string>, name: string, at: int)
    requires Sorted(keys) && (keys == [] || Inspects(keys, name, at)) && name in keys
    ensures keys[at] == name
  {
    var i :| 0 <= i < |keys| && keys[i] == name;
    BelowTrichotomy(name, name);
    if i < at {
      BelowTrichotomy(keys[i], keys[at]);
    }
  }

  /** What the neighbours' verdict means for the table. */
  lemma Decided(keys: seq<string>, name: string, at: int, n: int)
    requires Sorted(keys) && AllLegal(keys) && Legal(name) && SplitsAt(keys, name, n)
    requires (keys == [] || Inspects(keys, name, at))
    ensures NeighboursAgree(keys, name, at) ==> Sorted(Inserted(keys, n, name)) && AllLegal(Inserted(keys, n, name))
    ensures NoParents(keys) ==> (NeighboursAgree(keys, name, at) <==> !Conflicts(keys, name) || SkipsFirst(keys, name))
    ensures NoParents(keys) ==> (NoParents(Inserted(keys, n, name)) <==> !Conflicts(keys, name))
    ensures SkipsFirst(keys, name) ==> Conflicts(keys, name)
  {
    if NeighboursAgree(keys, name, at) {
      if name in keys {
        OwnNameIsInspected(keys, name, at);
      } else {
        InsertKeepsSorted(keys, name, n);
      }
    }
    if NoParents(keys) {
      NeighboursDecide(keys, name, at);
      InsertKeepsNoParents(keys, name, n);
    }
  }

  /** by_symbol_, a sorted map. */
  class DescriptorIndex<V> {
    var bySymbol: seq<Entry<V>>

    ghost predicate Valid()
      reads this
    {
      Sorted(Names(bySymbol)) && AllLegal(Names(bySymbol))
    }

    constructor ()
      ensures Valid() && bySymbol == []
    {
      bySymbol := [];
    }

    /** Accepted names are filed in their place; a refused one changes nothing. */
    method AddSymbol(name: string, value: V) returns (ok: bool)
      requires Valid()
      modifies this
      ensures Valid()
      ensures ok ==> Legal(name) && exists n :: SplitsAt(Names(old(bySymbol)), name, n)
                                     && bySymbol == old(bySymbol)[..n] + [Entry(name, value)] + old(bySymbol)[n..]
      ensures !ok ==> bySymbol == old(bySymbol)
      ensures old(NoParents(Names(bySymbol))) ==>
                (ok <==>
                    Legal(name) && (!Conflicts(Names(old(bySymbol)), name) || SkipsFirst(Names(old(bySymbol)), name)))
      ensures old(NoParents(Names(bySymbol))) ==>
                (NoParents(Names(bySymbol)) <==> !(Legal(name) && SkipsFirst(Names(old(bySymbol)), name)))
    {
      var legal := ValidateSymbolName(name);
      if !legal {
        return false;
      }
      var keys := Names(bySymbol);
      var at := FindLastLessOrEqual(keys, name);
      var n := UpperBound(keys, name);
      ok := |keys| == 0;
      if !ok {
        if IsSubSymbol(keys[at], name) {
          Decided(keys, name, at, n);
          return false;
        }
        if at + 1 < |keys| && IsSubSymbol(name, keys[at + 1]) {
          Decided(keys, name, at, n);
          return false;
        }
      }
      Decided(keys, name, at, n);
      InsertedNames(bySymbol, n, Entry(name, value));
      bySymbol := Inserted(bySymbol, n, Entry(name, value));
      return true;
    }

    /** The answer is None where the source returns a default value. */
    method FindSymbol(name: string) returns (r: Option<V>)
      requires Valid()
      ensures NoParents(Names(bySymbol)) ==>
                forall e :: e in bySymbol && IsSubSymbol(e.name, name) ==> r == Some(e.value)
      ensures r == None || exists e :: e in bySymbol && IsSubSymbol(e.name, name) && r == Some(e.value)
    {
      var keys := Names(bySymbol);
      var at := FindLastLessOrEqual(keys, name);
      if at < |keys| {
        if NoParents(keys) {
          LookupIsExact(keys, name, at);
          forall e | e in bySymbol && IsSubSymbol(e.name, name) ensures e == bySymbol[at] {
            var k :| 0 <= k < |bySymbol| && bySymbol[k] == e;
            assert keys[k] == e.name;
          }
        }
        if IsSubSymbol(keys[at], name) {
          return Some(bySymbol[at].value);
        }
      }
      return None;
    }
  }
}
