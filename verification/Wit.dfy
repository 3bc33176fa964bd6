/** WIT interface specifications: printing and parsing
    `namespace:package/interface,interface@version`, hashing, and which versions
    resolve to one another. */
module Wit {
  import opened Text

  datatype Version = Version(major: nat, minor: nat, patch: nat, pre: string, build: string)

  /** How versions print and parse. */
  datatype Semver = Semver(show: Version -> string, parse: string -> Option<Version>)

  /** The version, if there is one, is read back from its printed form: true of
      every version that semantic versioning can write. */
  predicate ReadsBack(v: Semver, version: Option<Version>) {
    version.Some? ==> v.parse(v.show(version.value)) == version
  }

  datatype WitInterface = WitInterface(
    namespace: string, package: string, interfaces: set<string>,
    version: Option<Version>, config: map<string, string>, name: Option<string>)

  /** `order` lists the members of `s`, each once; a hash set yields one such
      order, no one knows which. */
  ghost predicate Enumerates<T>(order: seq<T>, s: set<T>) {
    && (forall x | x in order :: x in s)
    && (forall x | x in s :: x in order)
    && (forall i, j | 0 <= i < j < |order| :: order[i] != order[j])
  }

  // ------------------------------------------------------ printing and parsing

  function Unversioned(w: WitInterface, order: seq<string>): string {
    w.namespace + ":" + w.package
    + (if w.name.Some? then " [" + w.name.value + "]" else "")
    + if w.interfaces != {} then "/" + Join(order, ',') else ""
  }

  function Print(v: Semver, w: WitInterface, order: seq<string>): string {
    Unversioned(w, order) + if w.version.Some? then "@" + v.show(w.version.value) else ""
  }

  function Pieces(s: string): set<string> {
    set p | p in Split(s, ',') && Trim(p) != "" :: Trim(p)
  }

  function ParsePackage(s: string): (string, string) {
    var cut := SplitOnce(s, ':');
    if cut.Some? then cut.value else ("", s)
  }

  function ParseUnversioned(s: string): (string, string, set<string>) {
    var cut := SplitOnce(s, '/');
    var (namespace, package) := ParsePackage(if cut.Some? then cut.value.0 else s);
    (namespace, package, if cut.Some? then Pieces(cut.value.1) else {})
  }

  function Parse(v: Semver, s: string): WitInterface {
    var cut := SplitOnce(s, '@');
    var (namespace, package, interfaces) := ParseUnversioned(if cut.Some? then cut.value.0 else s);
    WitInterface(namespace, package, interfaces, if cut.Some? then v.parse(cut.value.1) else None, map[], None)
  }

  /** An interface name that survives the list it is printed in. */
  predicate PlainInterface(p: string) {
    p != "" && Trimmed(p) && ',' !in p && '@' !in p
  }

  /** What the printed form can carry. */
  predicate Printable(w: WitInterface) {
    && w.name.None? && w.config == map[]
    && ':' !in w.namespace && '/' !in w.namespace && '@' !in w.namespace
    && '/' !in w.package && '@' !in w.package
    && forall p | p in w.interfaces :: PlainInterface(p)
  }

  lemma PiecesArePlain(s: string)
    requires '@' !in s
    ensures forall p | p in Pieces(s) :: PlainInterface(p)
  {
    SplitPieces(s, ',');
    forall p | p in Pieces(s) ensures PlainInterface(p) {
      var q :| q in Split(s, ',') && Trim(q) != "" && p == Trim(q);
      TrimWorks(q);
    }
  }

  /** Everything parsing yields can be printed. */
  lemma ParsedIsPrintable(v: Semver, s: string)
    ensures Printable(Parse(v, s))
  {
    SplitOnceWorks(s, '@');
    var cut := SplitOnce(s, '@');
    UnversionedIsPrintable(if cut.Some? then cut.value.0 else s);
  }

  lemma UnversionedIsPrintable(s: string)
    requires '@' !in s
    ensures var (namespace, package, interfaces) := ParseUnversioned(s);
            && ':' !in namespace && '/' !in namespace && '@' !in namespace
            && '/' !in package && '@' !in package
            && forall p | p in interfaces :: PlainInterface(p)
  {
    SplitOnceWorks(s, '/');
    var cut := SplitOnce(s, '/');
    if cut.Some? {
      PiecesArePlain(cut.value.1);
    }
    var np := if cut.Some? then cut.value.0 else s;
    SplitOnceWorks(np, ':');
  }

  lemma PiecesOfJoin(order: seq<string>, s: set<string>)
    requires Enumerates(order, s) && s != {} && forall p | p in s :: PlainInterface(p)
    ensures Pieces(Join(order, ',')) == s
  {
    var x :| x in s;
    SplitJoin(order, ',');
    forall p | p in order ensures Trim(p) == p && p != "" {
      TrimWorks(p);
    }
    forall p ensures p in Pieces(Join(order, ',')) <==> p in s {
      if p in s {
        assert p in Split(Join(order, ','), ',') && Trim(p) == p;
      }
    }
  }

  lemma {:induction false} JoinHolds(parts: seq<string>, c: char, x: char)
    requires x != c && forall p | p in parts :: x !in p
    ensures x !in Join(parts, c)
  {
    if |parts| > 1 {
      JoinHolds(parts[1..], c, x);
    }
  }

  lemma PackageParses(namespace: string, package: string)
    requires ':' !in namespace
    ensures ParsePackage(namespace + ":" + package) == (namespace, package)
  {
    SplitOnceAt(namespace, ':', package);
  }

  lemma UnversionedParses(w: WitInterface, order: seq<string>)
    requires Printable(w) && Enumerates(order, w.interfaces)
    ensures ParseUnversioned(Unversioned(w, order)) == (w.namespace, w.package, w.interfaces) && '@' !in Unversioned(w, order)
  {
    var np := w.namespace + ":" + w.package;
    assert '/' !in np && '@' !in np;
    PackageParses(w.namespace, w.package);
    if w.interfaces != {} {
      var list := Join(order, ',');
      SplitOnceAt(np, '/', list);
      assert Unversioned(w, order) == np + ['/'] + list;
      PiecesOfJoin(order, w.interfaces);
      JoinHolds(order, ',', '@');
    } else {
      assert Unversioned(w, order) == np;
      SplitOnceWorks(np, '/');
    }
  }

  lemma PrintableParsesBack(v: Semver, w: WitInterface, order: seq<string>)
    requires Printable(w) && Enumerates(order, w.interfaces)
    ensures Parse(v, Print(v, w, order)) == w <==> ReadsBack(v, w.version)
  {
    var main := Unversioned(w, order);
    UnversionedParses(w, order);
    if w.version.Some? {
      SplitOnceAt(main, '@', v.show(w.version.value));
      assert Print(v, w, order) == main + ['@'] + v.show(w.version.value);
    } else {
      assert Print(v, w, order) == main;
      SplitOnceWorks(main, '@');
    }
  }

  /** Parsing the printed form gives an interface back, whatever order its set
      is printed in, if and only if it has no name and no config, its parts are
      free of the separators that follow them, and its version is read back. */
  lemma RoundTripIff(v: Semver, w: WitInterface, order: seq<string>)
    requires Enumerates(order, w.interfaces)
    ensures Parse(v, Print(v, w, order)) == w <==> Printable(w) && ReadsBack(v, w.version)
  {
    if Printable(w) {
      PrintableParsesBack(v, w, order);
    } else {
      ParsedIsPrintable(v, Print(v, w, order));
    }
  }

  /** So one parse settles any text whose version is read back: printing it and
      parsing again changes nothing. */
  lemma ParsingIsSettled(v: Semver, s: string, order: seq<string>)
    requires Enumerates(order, Parse(v, s).interfaces)
    ensures Parse(v, Print(v, Parse(v, s), order)) == Parse(v, s) <==> ReadsBack(v, Parse(v, s).version)
  {
    ParsedIsPrintable(v, s);
    RoundTripIff(v, Parse(v, s), order);
  }

  /** A name, which parsing does not read, is printed after the package. */
  lemma NameIsShown(v: Semver, w: WitInterface, order: seq<string>)
    requires w.name.Some?
    ensures w.namespace + ":" + w.package + " [" + w.name.value + "]" <= Print(v, w, order)
  {
    var shown := w.namespace + ":" + w.package + (" [" + w.name.value + "]");
    assert shown == w.namespace + ":" + w.package + " [" + w.name.value + "]";
    assert shown <= Unversioned(w, order);
    assert Unversioned(w, order) <= Print(v, w, order);
  }

  // ------------------------------------------------------------- hashing

  function Fold<T, W>(op: (W, W) -> W, zero: W, h: T -> W, order: seq<T>): W {
    if order == [] then zero else op(Fold(op, zero, h, order[..|order| - 1]), h(order[|order| - 1]))
  }

  /** It does not matter which of two values is folded in first. */
  ghost predicate Commutes<W(!new)>(op: (W, W) -> W) {
    forall a, b, c :: op(op(a, b), c) == op(op(a, c), b)
  }

  lemma FoldStep<T, W>(op: (W, W) -> W, zero: W, h: T -> W, order: seq<T>, x: T)
    ensures Fold(op, zero, h, order + [x]) == op(Fold(op, zero, h, order), h(x))
  {
    assert (order + [x])[..|order|] == order;
  }

  lemma {:induction false} FoldTakeOut<T, W(!new)>(op: (W, W) -> W, zero: W, h: T -> W, a: seq<T>, x: T, b: seq<T>)
    requires Commutes(op)
    ensures Fold(op, zero, h, a + [x] + b) == op(Fold(op, zero, h, a + b), h(x))
    decreases |b|
  {
    if b == [] {
      assert a + [x] + b == a + [x] && a + b == a;
      FoldStep(op, zero, h, a, x);
    } else {
      var n := |b| - 1;
      FoldTakeOut(op, zero, h, a, x, b[..n]);
      assert a + [x] + b == a + [x] + b[..n] + [b[n]] && a + b == a + b[..n] + [b[n]];
      FoldStep(op, zero, h, a + [x] + b[..n], b[n]);
      FoldStep(op, zero, h, a + b[..n], b[n]);
    }
  }

  /** Such a fold does not depend on the order a set is enumerated in. */
  lemma {:induction false} FoldIgnoresOrder<T, W(!new)>(op: (W, W) -> W, zero: W, h: T -> W, p: seq<T>, q: seq<T>, s: set<T>)
    requires Commutes(op) && Enumerates(p, s) && Enumerates(q, s)
    ensures Fold(op, zero, h, p) == Fold(op, zero, h, q)
    decreases |p|
  {
    if p == [] {
      EnumerationLength(p, s);
      EnumerationLength(q, s);
    } else {
      var n := |p| - 1;
      var x := p[n];
      assert x in q;
      var i :| 0 <= i < |q| && q[i] == x;
      var a, b := q[..i], q[i + 1..];
      assert q == a + [x] + b && p == p[..n] + [x] + [] && p[..n] + [] == p[..n];
      FoldTakeOut(op, zero, h, a, x, b);
      RemoveFromOrder(p[..n], x, [], p, s);
      RemoveFromOrder(a, x, b, q, s);
      FoldIgnoresOrder(op, zero, h, p[..n], a + b, s - {x});
    }
  }

  lemma {:induction false} EnumerationLength<T>(order: seq<T>, s: set<T>)
    requires Enumerates(order, s)
    ensures |order| == |s|
  {
    if order == [] {
      assert s == {};
    } else {
      var n := |order| - 1;
      assert order == order[..n] + [order[n]] + [] && order[..n] + [] == order[..n];
      RemoveFromOrder(order[..n], order[n], [], order, s);
      EnumerationLength(order[..n], s - {order[n]});
    }
  }

  lemma RemoveFromOrder<T>(a: seq<T>, x: T, b: seq<T>, q: seq<T>, s: set<T>)
    requires q == a + [x] + b && Enumerates(q, s)
    ensures Enumerates(a + b, s - {x})
  {
    var r := a + b;
    assert q[|a|] == x;
    forall i | 0 <= i < |r| ensures r[i] == q[if i < |a| then i else i + 1] {
    }
    forall y ensures y in r <==> y in s - {x} {
      if y in r {
        var i :| 0 <= i < |r| && r[i] == y;
        assert q[if i < |a| then i else i + 1] == y;
      }
      if y in s - {x} {
        assert y in q;
        var i :| 0 <= i < |q| && q[i] == y;
        assert r[if i < |a| then i else i - 1] == y;
      }
    }
  }

  function Xor(): (bv64, bv64) -> bv64 {
    (a, b) => a ^ b
  }

  function XorFold<T>(h: T -> bv64, order: seq<T>): bv64 {
    Fold(Xor(), 0, h, order)
  }

  lemma XorCommutes()
    ensures Commutes(Xor())
  {
  }

  /** One value fed to the caller's hasher. */
  datatype Fed = Text(text: string) | MaybeText(maybe: Option<string>) | Word(word: bv64) | MaybeVersion(version: Option<Version>)

  /** What `hash` feeds, given the orders its set and its map iterate in. */
  function Feed(h: string -> bv64, hp: ((string, string)) -> bv64, w: WitInterface, names: seq<string>, pairs: seq<(string, string)>): seq<Fed> {
    [Text(w.namespace), Text(w.package), MaybeText(w.name), Word(XorFold(h, names)), MaybeVersion(w.version), Word(XorFold(hp, pairs))]
  }

  /** The accumulating loop that `hash` runs over its set and over its map. */
  method Accumulate<T>(h: T -> bv64, order: seq<T>) returns (word: bv64)
    ensures word == XorFold(h, order)
  {
    word := 0;
    for i := 0 to |order|
      invariant word == XorFold(h, order[..i])
    {
      assert order[..i + 1][..i] == order[..i];
      word := word ^ h(order[i]);
    }
    assert order[..|order|] == order;
  }

  method Hash(h: string -> bv64, hp: ((string, string)) -> bv64, w: WitInterface, names: seq<string>, pairs: seq<(string, string)>) returns (fed: seq<Fed>)
    requires Enumerates(names, w.interfaces) && Enumerates(pairs, w.config.Items)
    ensures fed == Feed(h, hp, w, names, pairs)
  {
    fed := [Text(w.namespace), Text(w.package), MaybeText(w.name)];
    var interfacesHash := Accumulate(h, names);
    fed := fed + [Word(interfacesHash), MaybeVersion(w.version)];
    var configHash := Accumulate(hp, pairs);
    fed := fed + [Word(configHash)];
  }

  /** Equal interfaces feed the hasher the same values, whatever orders their
      sets and maps iterate in. */
  lemma EqualInterfacesHashAlike(
      h: string -> bv64, hp: ((string, string)) -> bv64, w: WitInterface,
      names: seq<string>, pairs: seq<(string, string)>, names': seq<string>, pairs': seq<(string, string)>)
    requires Enumerates(names, w.interfaces) && Enumerates(names', w.interfaces)
    requires Enumerates(pairs, w.config.Items) && Enumerates(pairs', w.config.Items)
    ensures Feed(h, hp, w, names, pairs) == Feed(h, hp, w, names', pairs')
  {
    XorCommutes();
    FoldIgnoresOrder(Xor(), 0, h, names, names', w.interfaces);
    FoldIgnoresOrder(Xor(), 0, hp, pairs, pairs', w.config.Items);
  }

  // ------------------------------------------------------------- versions

  /** The prefix compatible versions share; none for a prerelease or 0.0.x. */
  function Canonical(v: Version): Option<(nat, nat)> {
    if v.pre != "" then None
    else if v.major == 0 && v.minor == 0 then None
    else if v.major == 0 then Some((0, v.minor))
    else Some((v.major, 0))
  }

  predicate Compatible(a: Option<Version>, b: Option<Version>) {
    if a.Some? && b.Some? then
      || (a.value.major == b.value.major && a.value.minor == b.value.minor && a.value.patch == b.value.patch && a.value.pre == b.value.pre)
      || (Canonical(a.value).Some? && Canonical(a.value) == Canonical(b.value))
    else true
  }

  /** Two versions resolve to one another exactly when they differ in their build
      alone; or neither is a prerelease, and they agree on the first of major and
      minor that is not zero. */
  lemma CompatibleIff(a: Version, b: Version)
    ensures Compatible(Some(a), Some(b)) <==>
            || a.(build := b.build) == b
            || (a.pre == "" && b.pre == "" && a.major == b.major && (a.major > 0 || (a.minor == b.minor && a.minor > 0)))
    ensures Compatible(None, Some(a)) && Compatible(Some(a), None) && Compatible(None, None)
  {
  }

  ghost predicate Bridges(a: Option<Version>, b: Option<Version>, c: Option<Version>) {
    Compatible(a, b) && Compatible(b, c) ==> Compatible(a, c)
  }

  /** Compatibility carries over through a version, and through an unversioned
      side it does not. */
  lemma CompatibleThroughIff(b: Option<Version>)
    ensures (forall a, c :: Bridges(a, b, c)) <==> b.Some?
  {
    if b.None? {
      var a, c := Some(Version(1, 0, 0, "", "")), Some(Version(2, 0, 0, "", ""));
      assert !Bridges(a, b, c);
    } else {
      forall a: Option<Version>, c: Option<Version> ensures Bridges(a, b, c) {
        if a.Some? && c.Some? && Compatible(a, b) && Compatible(b, c) {
          assert Canonical(a.value) == Canonical(b.value) == Canonical(c.value);
        }
      }
    }
  }
}
