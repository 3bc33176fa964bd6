/** How a running total is stored: `total@sequence` in decimal. */
module OrderTotals {
  import opened Text

  datatype Total = Total(running: nat, lastSequence: nat)

  predicate IsU64(n: nat) {
    n <= U64_MAX
  }

  function ParseTotal(text: string): (r: Option<Total>)
    ensures r.Some? ==> IsU64(r.value.running) && IsU64(r.value.lastSequence)
  {
    var parts := SplitOnce(Trim(text), '@');
    if parts.None? then None
    else
      var running, last := ParseU64(Trim(parts.value.0)), ParseU64(Trim(parts.value.1));
      if running.None? || last.None? then None else Some(Total(running.value, last.value))
  }

  function EncodeTotal(t: Total): string {
    Decimal(t.running) + "@" + Decimal(t.lastSequence)
  }

  lemma SplitsAtSign(a: string, b: string)
    requires a != "" && b != "" && Trimmed(a) && Trimmed(b) && '@' !in a
    ensures SplitOnce(Trim(a + "@" + b), '@') == Some((a, b))
  {
    var s := a + ['@'] + b;
    assert s[0] == a[0] && s[|s| - 1] == b[|b| - 1];
    TrimWorks(s);
    SplitOnceAt(a, '@', b);
  }

  lemma ParsesTo(text: string, a: string, b: string, x: nat, y: nat)
    requires SplitOnce(Trim(text), '@') == Some((a, b))
    requires Trim(a) == a && Trim(b) == b
    requires ParseU64(a) == Some(x) && ParseU64(b) == Some(y)
    ensures ParseTotal(text) == Some(Total(x, y))
  {
  }

  /** What is stored always reads back, so a stored total is never mistaken for
      an absent one and restarted from zero. */
  lemma TotalRoundTrip(t: Total)
    requires IsU64(t.running) && IsU64(t.lastSequence)
    ensures ParseTotal(EncodeTotal(t)) == Some(t)
  {
    ParseDecimal(t.running);
    ParseDecimal(t.lastSequence);
    var a, b := Decimal(t.running), Decimal(t.lastSequence);
    TrimWorks(a);
    TrimWorks(b);
    assert !IsDigit('@');
    SplitsAtSign(a, b);
    ParsesTo(EncodeTotal(t), a, b, t.running, t.lastSequence);
  }

  // ------------------------------------------------------ which texts parse

  predicate Blank(s: string) {
    forall c | c in s :: IsWhitespace(c)
  }

  /** `s` writes the 64-bit value `n`: digits, leading zeros allowed, with or
      without a plus sign. */
  ghost predicate Numeral(s: string, n: nat) {
    IsU64(n) && exists digits :: Digits(digits, n) && (s == digits || s == "+" + digits)
  }

  predicate Digits(s: string, n: nat) {
    s != "" && AllDigits(s) && DigitsValue(s) == n
  }

  lemma NumeralIff(s: string, n: nat)
    ensures ParseU64(s) == Some(n) <==> Numeral(s, n)
  {
    if ParseU64(s) == Some(n) {
      var digits := if |s| > 1 && s[0] == '+' then s[1..] else s;
      assert Digits(digits, n);
      assert s == digits || s == "+" + digits;
    }
    if Numeral(s, n) {
      var digits :| Digits(digits, n) && (s == digits || s == "+" + digits);
      assert IsDigit(digits[0]);
      if s == "+" + digits {
        assert s[1..] == digits;
      }
    }
  }

  lemma NumeralIsPlain(s: string, n: nat)
    requires Numeral(s, n)
    ensures s != "" && Trimmed(s) && '@' !in s
  {
    var digits :| Digits(digits, n) && (s == digits || s == "+" + digits);
    assert IsDigit(digits[0]) && IsDigit(digits[|digits| - 1]);
    assert s[|s| - 1] == digits[|digits| - 1];
    assert !IsDigit('@');
  }

  lemma {:induction false} TrimStartParts(s: string) returns (pre: string)
    ensures s == pre + TrimStart(s) && Blank(pre)
  {
    pre := "";
    if s != "" && IsWhitespace(s[0]) {
      pre := TrimStartParts(s[1..]);
      assert s == [s[0]] + s[1..];
      pre := [s[0]] + pre;
    }
  }

  lemma {:induction false} TrimEndParts(s: string) returns (post: string)
    ensures s == TrimEnd(s) + post && Blank(post)
  {
    post := "";
    if s != "" && IsWhitespace(s[|s| - 1]) {
      post := TrimEndParts(s[..|s| - 1]);
      assert s == s[..|s| - 1] + [s[|s| - 1]];
      post := post + [s[|s| - 1]];
    }
  }

  lemma TrimParts(s: string) returns (pre: string, post: string)
    ensures s == pre + Trim(s) + post && Blank(pre) && Blank(post)
  {
    pre := TrimStartParts(s);
    post := TrimEndParts(TrimStart(s));
  }

  lemma {:induction false} TrimStartPadded(pre: string, s: string)
    requires Blank(pre) && s != "" && !IsWhitespace(s[0])
    ensures TrimStart(pre + s) == s
  {
    if pre == "" {
      assert pre + s == s;
    } else {
      assert IsWhitespace(pre[0]);
      assert (pre + s)[1..] == pre[1..] + s;
      TrimStartPadded(pre[1..], s);
    }
  }

  lemma {:induction false} TrimEndPadded(s: string, post: string)
    requires Blank(post) && s != "" && !IsWhitespace(s[|s| - 1])
    ensures TrimEnd(s + post) == s
  {
    if post == "" {
      assert s + post == s;
    } else {
      assert IsWhitespace(post[|post| - 1]);
      assert (s + post)[..|s + post| - 1] == s + post[..|post| - 1];
      TrimEndPadded(s, post[..|post| - 1]);
    }
  }

  lemma TrimPadded(pre: string, s: string, post: string)
    requires Blank(pre) && Blank(post) && s != "" && Trimmed(s)
    ensures Trim(pre + s + post) == s
  {
    assert pre + s + post == pre + (s + post);
    TrimStartPadded(pre, s + post);
    TrimEndPadded(s, post);
  }

  /** `a` and `b` around a sign, with white space around each. */
  datatype Layout = Layout(before: string, a: string, left: string, right: string, b: string, after: string) {
    predicate Valid() {
      Blank(before) && Blank(left) && Blank(right) && Blank(after)
    }

    function Show(): string {
      before + (a + left + "@" + right + b) + after
    }
  }

  ghost predicate Writes(text: string, l: Layout, t: Total) {
    l.Valid() && text == l.Show() && Numeral(l.a, t.running) && Numeral(l.b, t.lastSequence)
  }

  lemma WrittenParses(text: string, l: Layout, t: Total)
    requires Writes(text, l, t)
    ensures ParseTotal(text) == Some(t)
  {
    NumeralIsPlain(l.a, t.running);
    NumeralIsPlain(l.b, t.lastSequence);
    var x, y := l.a + l.left, l.right + l.b;
    var middle := x + "@" + y;
    assert middle == l.a + l.left + "@" + l.right + l.b;
    assert middle[0] == l.a[0] && middle[|middle| - 1] == l.b[|l.b| - 1];
    TrimPadded(l.before, middle, l.after);
    assert !IsWhitespace('@');
    assert '@' !in x;
    SplitOnceAt(x, '@', y);
    assert "" + l.a + l.left == x && l.right + l.b + "" == y;
    TrimPadded("", l.a, l.left);
    TrimPadded(l.right, l.b, "");
    NumeralIff(l.a, t.running);
    NumeralIff(l.b, t.lastSequence);
  }

  lemma ParsedIsWritten(text: string, t: Total) returns (l: Layout)
    requires ParseTotal(text) == Some(t)
    ensures Writes(text, l, t)
  {
    var before, after := TrimParts(text);
    SplitOnceWorks(Trim(text), '@');
    var (x, y) := SplitOnce(Trim(text), '@').value;
    var p, left := TrimParts(x);
    var right, q := TrimParts(y);
    NumeralIff(Trim(x), t.running);
    NumeralIff(Trim(y), t.lastSequence);
    l := Layout(before + p, Trim(x), left, right, Trim(y), q + after);
    Regroup(before, p, Trim(x), left, right, Trim(y), q, after);
    BlankBoth(before, p);
    BlankBoth(q, after);
  }

  lemma BlankBoth(a: string, b: string)
    requires Blank(a) && Blank(b)
    ensures Blank(a + b)
  {
  }

  lemma Regroup(before: string, p: string, a: string, left: string, right: string, b: string, q: string, after: string)
    ensures before + ((p + a + left) + "@" + (right + b + q)) + after
            == Layout(before + p, a, left, right, b, q + after).Show()
  {
    var middle := a + left + "@" + right + b;
    assert (p + a + left) + "@" + (right + b + q) == p + middle + q;
    assert before + (p + middle + q) + after == (before + p) + middle + (q + after);
  }

  /** A text parses to a total exactly when it writes it so; any other text is
      taken for no total at all. */
  lemma ParsesIff(text: string, t: Total)
    ensures ParseTotal(text) == Some(t) <==> exists l :: Writes(text, l, t)
  {
    if ParseTotal(text) == Some(t) {
      var l := ParsedIsWritten(text, t);
    }
    if l :| Writes(text, l, t) {
      WrittenParses(text, l, t);
    }
  }

  function SaturatingAdd(a: nat, b: nat): (r: nat)
    ensures r <= U64_MAX
  {
    if a + b <= U64_MAX then a + b else U64_MAX
  }
}
