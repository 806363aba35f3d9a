/** SymbolCompare of EncodedDescriptorDatabase: an order on full dotted names that seldom has to
    build them (descriptor_database.cc). */
module SymbolOrder {
  import opened Symbols

  /** An entry of the symbol set, or a plain name that is looked up. */
  datatype Key = Entry(package: string, symbol: string) | Name(str: string) {
    function AsString(): string {
      match this
      case Entry(package, symbol) => if package == "" then symbol else package + "." + symbol
      case Name(str) => str
    }

    /** GetParts: the package and the symbol, or everything and nothing. */
    function First(): string {
      match this
      case Entry(package, symbol) => if package == "" then symbol else package
      case Name(str) => str
    }

    function Second(): string {
      match this
      case Entry(package, symbol) => if package == "" then "" else symbol
      case Name(_) => ""
    }

    /** Written as a package and a symbol. */
    predicate Split() { Entry? && package != "" }
  }

  function Min(a: nat, b: nat): nat { if a < b then a else b }

  predicate Less(l: Key, r: Key) {
    var n := Min(|l.First()|, |r.First()|);
    var a, b := l.First()[..n], r.First()[..n];
    if a != b then Below(a, b)
    else if |l.First()| == |r.First()| then Below(l.Second(), r.Second())
    else Below(l.AsString(), r.AsString())
  }

  lemma FirstStartsName(k: Key)
    ensures k.First() <= k.AsString()
    ensures k.Split() ==> k.AsString() == k.First() + ("." + k.Second())
    ensures !k.Split() ==> k.AsString() == k.First() && k.Second() == ""
  {
    if k.Split() {
      assert k.package + "." + k.symbol == k.package + ("." + k.symbol);
    }
  }

  /** The one case that the shortcut gets wrong: a plain name against a package of that name with
      an empty symbol in it. */
  predicate EmptySymbolCase(l: Key, r: Key) {
    !l.Split() && r.Split() && l.First() == r.First() && r.Second() == ""
  }

  /** The shortcut orders any two keys as their full names, exactly except in that case. */
  lemma ShortcutIsExact(l: Key, r: Key)
    ensures (Less(l, r) <==> Below(l.AsString(), r.AsString())) <==> !EmptySymbolCase(l, r)
  {
    hide Below, Key.AsString, Key.First, Key.Second, Key.Split;
    var n := Min(|l.First()|, |r.First()|);
    var a, b := l.First()[..n], r.First()[..n];
    if a != b {
      FirstDecides(l, r, n);
    } else if |l.First()| == |r.First()| {
      assert l.First() == r.First();
      SameFirst(l, r);
    } else {
      assert l.First() != r.First();
    }
  }

  /** Where the first parts differ early, nothing behind them matters. */
  lemma FirstDecides(l: Key, r: Key, n: nat)
    requires n <= |l.First()| && n <= |r.First()| && l.First()[..n] != r.First()[..n]
    ensures Below(l.AsString(), r.AsString()) == Below(l.First()[..n], r.First()[..n]) && l.First() != r.First()
  {
    FirstStartsName(l);
    FirstStartsName(r);
    hide Below, Key.AsString, Key.First, Key.Second;
    var a, b := l.First()[..n], r.First()[..n];
    var x, y := l.AsString()[n..], r.AsString()[n..];
    assert l.AsString() == a + x && r.AsString() == b + y;
    BelowByPrefix(a, b, x, y);
  }

  lemma SameFirst(l: Key, r: Key)
    requires l.First() == r.First()
    ensures (Below(l.Second(), r.Second()) <==> Below(l.AsString(), r.AsString())) <==> !EmptySymbolCase(l, r)
  {
    FirstStartsName(l);
    FirstStartsName(r);
    var p := l.First();
    var x, y := if l.Split() then "." + l.Second() else "", if r.Split() then "." + r.Second() else "";
    assert l.AsString() == p + x && r.AsString() == p + y;
    BelowAfterPrefix(p, x, y);
    BelowAfterPrefix(".", l.Second(), r.Second());
  }

  predicate HasSymbol(k: Key) { k.Entry? ==> k.symbol != "" }

  /** With non-empty symbol names, Less is a strict weak order: keys are equivalent exactly when
      their full names are the same. */
  lemma LessIsStrictWeakOrder(a: Key, b: Key, c: Key)
    requires HasSymbol(a) && HasSymbol(b) && HasSymbol(c)
    ensures !Less(a, a)
    ensures Less(a, b) && Less(b, c) ==> Less(a, c)
    ensures !Less(a, b) && !Less(b, a) <==> a.AsString() == b.AsString()
  {
    ShortcutIsExact(a, a);
    ShortcutIsExact(a, b);
    ShortcutIsExact(b, a);
    ShortcutIsExact(b, c);
    ShortcutIsExact(a, c);
    BelowTrichotomy(a.AsString(), b.AsString());
    BelowTrichotomy(a.AsString(), a.AsString());
    BelowTransitive(a.AsString(), b.AsString(), c.AsString());
  }

  predicate Equivalent(a: Key, b: Key) { !Less(a, b) && !Less(b, a) }

  /** An entry of a package is looked up under the package, a dot and its symbol; one without a package
      under its symbol alone. */
  lemma EntryIsItsName(package: string, symbol: string, name: string)
    requires symbol != ""
    ensures Equivalent(Entry(package, symbol), Name(name)) <==>
            name == if package == "" then symbol else package + "." + symbol
  {
    LessIsStrictWeakOrder(Entry(package, symbol), Name(name), Name(name));
  }

  /** Names that are looked up are ordered as strings. */
  lemma NamesAreOrdered(a: string, b: string)
    ensures Less(Name(a), Name(b)) <==> Below(a, b)
  {
    ShortcutIsExact(Name(a), Name(b));
  }
}
