/** Order and nesting of dotted symbol names (descriptor_database.cc). */
module Symbols {
  /** The lexicographic order of std::string. */
  predicate Below(a: string, b: string) {
    b != [] && (a == [] || a[0] < b[0] || (a[0] == b[0] && Below(a[1..], b[1..])))
  }

  predicate AtMost(a: string, b: string) { !Below(b, a) }

  lemma {:induction false} BelowTrichotomy(a: string, b: string)
    ensures !(Below(a, b) && Below(b, a))
    ensures Below(a, b) || Below(b, a) || a == b
    ensures a == b ==> !Below(a, b)
  {
    if a != [] && b != [] && a[0] == b[0] {
      BelowTrichotomy(a[1..], b[1..]);
      assert a == [a[0]] + a[1..] && b == [b[0]] + b[1..];
    }
  }

  /** The first difference decides; a proper beginning comes first. */
  lemma {:induction false} BelowMeaning(a: string, b: string)
    ensures Below(a, b) <==>
              a < b || exists k :: 0 <= k < |a| && k < |b| && a[..k] == b[..k] && a[k] < b[k]
  {
    if a != [] && b != [] && a[0] == b[0] {
      var x, y := a[1..], b[1..];
      BelowMeaning(x, y);
      assert a == [a[0]] + x && b == [b[0]] + y;
      if k :| 0 <= k < |x| && k < |y| && x[..k] == y[..k] && x[k] < y[k] {
        assert a[..k + 1] == [a[0]] + x[..k] && b[..k + 1] == [b[0]] + y[..k];
        assert a[k + 1] < b[k + 1];
      }
      if k :| 0 <= k < |a| && k < |b| && a[..k] == b[..k] && a[k] < b[k] {
        assert x[..k - 1] == a[..k][1..] && y[..k - 1] == b[..k][1..];
        assert x[k - 1] < y[k - 1];
      }
    } else if a != [] && b != [] && a[0] < b[0] {
      assert a[..0] == b[..0];
    }
  }

  lemma {:induction false} BelowTransitive(a: string, b: string, c: string)
    ensures Below(a, b) && Below(b, c) ==> Below(a, c)
  {
    if a != [] && b != [] && c != [] {
      BelowTransitive(a[1..], b[1..], c[1..]);
    }
  }

  lemma AtMostTransitive(a: string, b: string, c: string)
    ensures AtMost(a, b) && AtMost(b, c) ==> AtMost(a, c)
    ensures AtMost(a, b) && Below(b, c) ==> Below(a, c)
    ensures Below(a, b) && AtMost(b, c) ==> Below(a, c)
  {
    BelowTrichotomy(a, b);
    BelowTrichotomy(b, c);
    BelowTrichotomy(a, c);
    BelowTransitive(a, b, c);
    BelowTransitive(c, a, b);
    BelowTransitive(b, c, a);
  }

  /** A common beginning does not matter. */
  lemma {:induction false} BelowAfterPrefix(p: string, a: string, b: string)
    ensures Below(p + a, p + b) <==> Below(a, b)
  {
    if p == [] {
      assert p + a == a && p + b == b;
    } else {
      assert (p + a)[1..] == p[1..] + a && (p + b)[1..] == p[1..] + b;
      BelowAfterPrefix(p[1..], a, b);
    }
  }

  /** A difference within the beginnings decides. */
  lemma {:induction false} BelowByPrefix(a: string, b: string, x: string, y: string)
    requires |a| == |b| && a != b
    ensures Below(a + x, b + y) <==> Below(a, b)
  {
    if a[0] == b[0] {
      assert a == [a[0]] + a[1..] && b == [b[0]] + b[1..];
      assert (a + x)[1..] == a[1..] + x && (b + y)[1..] == b[1..] + y;
      BelowByPrefix(a[1..], b[1..], x, y);
    }
  }

  /** Two strings that differ early: with an extension of the first the order is the same. */
  lemma DifferEarly(p: string, k: string, x: string, n: nat)
    requires p <= x && n <= |p| && n <= |k| && p[..n] != k[..n]
    ensures Below(k, p) || Below(x, k)
  {
    var tail := x[|p|..];
    assert x == p + tail && p == p[..n] + p[n..] && k == k[..n] + k[n..] && x == p[..n] + (p[n..] + tail);
    BelowByPrefix(k[..n], p[..n], k[n..], p[n..]);
    BelowByPrefix(p[..n], k[..n], p[n..] + tail, k[n..]);
    BelowTrichotomy(p[..n], k[..n]);
  }

  lemma ProperPrefixIsBelow(k: string, p: string)
    requires k < p
    ensures Below(k, p)
  {
    assert k == k + [] && p == k + p[|k|..];
    BelowAfterPrefix(k, [], p[|k|..]);
  }

  /** Whatever sorts between a string and an extension of it extends it too. */
  lemma BetweenExtends(p: string, k: string, x: string)
    requires p <= x && AtMost(p, k) && AtMost(k, x)
    ensures p <= k
  {
    if k < p {
      ProperPrefixIsBelow(k, p);
    } else if !(p <= k) {
      DifferEarly(p, k, x, if |p| <= |k| then |p| else |k|);
    }
  }

  predicate LegalChar(c: char) {
    c == '.' || c == '_' || '0' <= c <= '9' || 'A' <= c <= 'Z' || 'a' <= c <= 'z'
  }

  ghost predicate Legal(name: string) { forall i :: 0 <= i < |name| ==> LegalChar(name[i]) }

  method ValidateSymbolName(name: string) returns (ok: bool)
    ensures ok <==> Legal(name)
    ensures ok <==> forall c :: c in name ==>
                      c == '.' || c == '_' || '0' <= c <= '9' || 'A' <= c <= 'Z' || 'a' <= c <= 'z'
  {
    for i := 0 to |name|
      invariant forall k :: 0 <= k < i ==> LegalChar(name[k])
    {
      var c := name[i];
      if c != '.' && c != '_' && (c < '0' || c > '9') && (c < 'A' || c > 'Z') && (c < 'a' || c > 'z') {
        assert c in name;
        return false;
      }
    }
    return true;
  }

  /** IsSubSymbol, with its arguments in the order of the code: the first equals the second or is
      a dotted parent of it. */
  predicate IsSubSymbol(sub: string, super_: string) {
    sub == super_ || (sub < super_ && super_[|sub|] == '.')
  }

  /** A name and whatever follows it behind a dot. */
  lemma SubSymbolMeaning(p: string, x: string)
    ensures IsSubSymbol(p, x) <==> p == x || exists rest: string :: x == p + "." + rest
  {
    if IsSubSymbol(p, x) && p != x {
      var rest := x[|p| + 1..];
      assert x == p + "." + rest;
    }
    if rest: string :| x == p + "." + rest {
      assert x[|p|] == '.' && p <= x;
    }
  }

  lemma ParentIsAtMost(p: string, x: string)
    requires p <= x
    ensures AtMost(p, x)
  {
    BelowAfterPrefix(p, x[|p|..], []);
    assert x == p + x[|p|..] && p == p + [];
  }

  /** '.' sorts before every other legal character: a legal name that sorts between a name and
      one of its descendants is itself that name or a descendant. */
  lemma BetweenIsSubSymbol(p: string, k: string, x: string)
    requires IsSubSymbol(p, x) && Legal(k) && AtMost(p, k) && AtMost(k, x)
    ensures IsSubSymbol(p, k)
  {
    BetweenExtends(p, k, x);
    if k != p {
      var kt, xt := k[|p|..], x[|p|..];
      assert k == p + kt && x == p + xt;
      BelowAfterPrefix(p, xt, kt);
      BelowTrichotomy(p, k);
      if x == p {
        ParentIsAtMost(p, k);
      }
      assert LegalChar(k[|p|]);
    }
  }
}
