/** String operations the artifact code relies on, modelled after Python's
    `str.strip()`, `str.join`, the `in` operator, `str.replace` and decimal
    rendering of integers. */
module Text {

  /** Python's `str.isspace()` for a single character: the ASCII controls
      TAB..CR and FS..US, the space, NEL, NO-BREAK SPACE and the Unicode
      space separators and line/paragraph separators. */
  predicate IsSpace(c: char) {
    ('\t' <= c <= '\r') || ('\U{1C}' <= c <= '\U{1F}') || c == ' '
    || c == '\U{85}' || c == '\U{A0}' || c == '\U{1680}'
    || ('\U{2000}' <= c <= '\U{200A}') || c == '\U{2028}' || c == '\U{2029}'
    || c == '\U{202F}' || c == '\U{205F}' || c == '\U{3000}'
  }

  /** No whitespace at either end (the shape of anything `strip()` returns). */
  predicate Trimmed(s: string) {
    s == [] || (!IsSpace(s[0]) && !IsSpace(s[|s| - 1]))
  }

  /** Python's `s.lstrip()`. */
  function StripStart(s: string): string
    decreases |s|
  {
    if s != [] && IsSpace(s[0]) then StripStart(s[1..]) else s
  }

  /** Python's `s.rstrip()`. */
  function StripEnd(s: string): string
    decreases |s|
  {
    if s != [] && IsSpace(s[|s| - 1]) then StripEnd(s[..|s| - 1]) else s
  }

  /** Python's `s.strip()`. */
  function Strip(s: string): string {
    StripEnd(StripStart(s))
  }

  /** What StripStart drops is all whitespace, and what it keeps is a suffix
      that does not start with whitespace. */
  lemma {:induction false} StripStartSpec(s: string)
    ensures var r := StripStart(s);
      |r| <= |s| && r == s[|s| - |r|..]
      && (forall k :: 0 <= k < |s| - |r| ==> IsSpace(s[k]))
      && (r == [] || !IsSpace(r[0]))
    decreases |s|
  {
    if s != [] && IsSpace(s[0]) {
      StripStartSpec(s[1..]);
    }
  }

  /** What StripEnd drops is all whitespace, and what it keeps is a prefix
      that does not end with whitespace. */
  lemma {:induction false} StripEndSpec(s: string)
    ensures var r := StripEnd(s);
      |r| <= |s| && r == s[..|r|]
      && (forall k :: |r| <= k < |s| ==> IsSpace(s[k]))
      && (r == [] || !IsSpace(r[|r| - 1]))
    decreases |s|
  {
    if s != [] && IsSpace(s[|s| - 1]) {
      StripEndSpec(s[..|s| - 1]);
    }
  }

  /** `r` is the slice `s[i..i + |r|]` and only whitespace lies outside it. */
  predicate SliceBetweenSpaces(s: string, r: string, i: int) {
    0 <= i <= |s| - |r| && r == s[i..i + |r|]
    && (forall k :: 0 <= k < i ==> IsSpace(s[k]))
    && (forall k :: i + |r| <= k < |s| ==> IsSpace(s[k]))
  }

  /** The result of `strip()` is a slice of its input, only whitespace lies
      outside the slice, and the slice itself is trimmed. */
  lemma StripSpec(s: string)
    ensures Trimmed(Strip(s))
    ensures exists i :: SliceBetweenSpaces(s, Strip(s), i)
  {
    var t := StripStart(s);
    var r := StripEnd(t);
    StripStartSpec(s);
    StripEndSpec(t);
    assert r != [] ==> r[0] == t[0];
    var i := |s| - |t|;
    assert SliceBetweenSpaces(s, r, i);
  }

  /** Whether `s` is blank, i.e. `not s.strip()` in Python. */
  predicate Blank(s: string) {
    forall k :: 0 <= k < |s| ==> IsSpace(s[k])
  }

  lemma StripEmptyIffBlank(s: string)
    ensures Strip(s) == [] <==> Blank(s)
  {
    var r := Strip(s);
    StripSpec(s);
    var i :| SliceBetweenSpaces(s, r, i);
    if r != [] {
      assert s[i] == r[0] && !IsSpace(s[i]);
    }
  }

  /** A string already trimmed is left alone by `strip()`. */
  lemma StripTrimmed(s: string)
    requires Trimmed(s)
    ensures Strip(s) == s
  {
    StripEndSpec(s);
  }

  lemma StripIdempotent(s: string)
    ensures Strip(Strip(s)) == Strip(s)
  {
    StripSpec(s);
    StripTrimmed(Strip(s));
  }

  /** Stripping a trimmed, non-empty text with one newline after it removes
      exactly that newline. */
  lemma StripTrailingNewline(s: string)
    requires s != [] && Trimmed(s)
    ensures Strip(s + "\n") == s
  {
    var t := s + "\n";
    assert t[0] == s[0];
    assert StripStart(t) == t;
    assert t[..|t| - 1] == s;
    assert IsSpace(t[|t| - 1]);
    assert StripEnd(t) == StripEnd(s);
    StripTrimmed(s);
    assert StripEnd(s) == s;
  }

  /** Python's `sep.join(xs)`. */
  function Join(xs: seq<string>, sep: string): string
    decreases |xs|
  {
    if |xs| == 0 then ""
    else if |xs| == 1 then xs[0]
    else xs[0] + sep + Join(xs[1..], sep)
  }

  lemma {:induction false} JoinSnoc(xs: seq<string>, y: string, sep: string)
    ensures Join(xs + [y], sep) == if xs == [] then y else Join(xs, sep) + sep + y
    decreases |xs|
  {
    if |xs| > 1 {
      assert (xs + [y])[1..] == xs[1..] + [y];
      JoinSnoc(xs[1..], y, sep);
    } else if |xs| == 1 {
      assert (xs + [y])[1..] == [y];
    }
  }

  lemma {:induction false} JoinAppend(xs: seq<string>, ys: seq<string>, sep: string)
    requires xs != [] && ys != []
    ensures Join(xs + ys, sep) == Join(xs, sep) + sep + Join(ys, sep)
    decreases |xs|
  {
    if |xs| == 1 {
      assert (xs + ys)[1..] == ys;
    } else {
      assert (xs + ys)[1..] == xs[1..] + ys;
      JoinAppend(xs[1..], ys, sep);
    }
  }

  lemma JoinFour(a: string, b: string, c: string, d: string, sep: string)
    ensures Join([a, b, c, d], sep) == a + sep + b + sep + c + sep + d
  {
    assert [a, b, c, d][1..] == [b, c, d];
    assert [b, c, d][1..] == [c, d];
    assert [c, d][1..] == [d];
    assert Join([c, d], sep) == c + sep + d;
    assert Join([b, c, d], sep) == b + sep + (c + sep + d);
    assert Join([a, b, c, d], sep) == a + sep + (b + sep + (c + sep + d));
  }

  lemma {:induction false} JoinEndsWithLast(xs: seq<string>, sep: string)
    requires |xs| > 0
    ensures |Join(xs, sep)| >= |xs[|xs| - 1]|
    ensures Join(xs, sep)[|Join(xs, sep)| - |xs[|xs| - 1]|..] == xs[|xs| - 1]
    decreases |xs|
  {
    if |xs| > 1 {
      JoinEndsWithLast(xs[1..], sep);
    }
  }

  /** Whether `pat` occurs in `s` starting at index `i`. */
  predicate OccursAt(s: string, pat: string, i: int) {
    0 <= i && i + |pat| <= |s| && s[i..i + |pat|] == pat
  }

  /** Python's `pat in s`, computed by a left-to-right scan. */
  function Contains(s: string, pat: string): bool
    decreases |s|
  {
    if |pat| > |s| then false
    else if s[..|pat|] == pat then true
    else Contains(s[1..], pat)
  }

  /** The scan agrees with the definition of substring occurrence, both ways. */
  lemma {:induction false} ContainsIff(s: string, pat: string)
    ensures Contains(s, pat) <==> exists i :: OccursAt(s, pat, i)
    decreases |s|
  {
    if |pat| > |s| {
    } else if s[..|pat|] == pat {
      assert OccursAt(s, pat, 0);
    } else {
      ContainsIff(s[1..], pat);
      if Contains(s[1..], pat) {
        var i :| OccursAt(s[1..], pat, i);
        assert s[i + 1..i + 1 + |pat|] == s[1..][i..i + |pat|];
        assert OccursAt(s, pat, i + 1);
      }
      if i :| OccursAt(s, pat, i) {
        assert i != 0;
        assert s[1..][i - 1..i - 1 + |pat|] == s[i..i + |pat|];
        assert OccursAt(s[1..], pat, i - 1);
      }
    }
  }

  lemma ContainsAt(s: string, pat: string, i: int)
    requires OccursAt(s, pat, i)
    ensures Contains(s, pat)
  {
    ContainsIff(s, pat);
  }

  /** The pieces of `s` between the non-overlapping occurrences of `pat`
      found by a left-to-right scan (Python's `s.split(pat)`): joining them
      with `pat` gives back `s`. */
  function Split(s: string, pat: string): (parts: seq<string>)
    requires |pat| > 0
    ensures |parts| >= 1
    ensures |parts[0]| <= |s| && parts[0] == s[..|parts[0]|]
    decreases |s|
  {
    if |s| < |pat| then [s]
    else if s[..|pat|] == pat then [""] + Split(s[|pat|..], pat)
    else
      var p := Split(s[1..], pat);
      [[s[0]] + p[0]] + p[1..]
  }

  /** Python's `s.replace(pat, rep)`: the same left-to-right scan as Split,
      writing `rep` for every occurrence found. */
  function Replace(s: string, pat: string, rep: string): string
    requires |pat| > 0
    decreases |s|
  {
    if |s| < |pat| then s
    else if s[..|pat|] == pat then rep + Replace(s[|pat|..], pat, rep)
    else [s[0]] + Replace(s[1..], pat, rep)
  }

  /** Splitting loses nothing: the pieces joined by the pattern are `s`. */
  lemma {:induction false} JoinSplit(s: string, pat: string)
    requires |pat| > 0
    ensures Join(Split(s, pat), pat) == s
    decreases |s|
  {
    if |s| < |pat| {
    } else if s[..|pat|] == pat {
      var rest := Split(s[|pat|..], pat);
      assert Split(s, pat) == [""] + rest;
      JoinSplit(s[|pat|..], pat);
      assert ([""] + rest)[1..] == rest;
      assert s == pat + s[|pat|..];
    } else {
      var p := Split(s[1..], pat);
      assert Split(s, pat) == [[s[0]] + p[0]] + p[1..];
      JoinSplit(s[1..], pat);
      JoinPrepend([s[0]], p, pat);
      assert s == [s[0]] + s[1..];
    }
  }

  /** Gluing a prefix onto the first piece glues it onto the whole join. */
  lemma JoinPrepend(c: string, p: seq<string>, sep: string)
    requires |p| > 0
    ensures Join([c + p[0]] + p[1..], sep) == c + Join(p, sep)
  {
    var l := [c + p[0]] + p[1..];
    assert l[1..] == p[1..];
    if |p| > 1 {
      assert Join(l, sep) == (c + p[0]) + sep + Join(p[1..], sep);
    }
  }

  /** Replacing is joining the pieces with the replacement instead. */
  lemma {:induction false} ReplaceIsJoinSplit(s: string, pat: string, rep: string)
    requires |pat| > 0
    ensures Replace(s, pat, rep) == Join(Split(s, pat), rep)
    decreases |s|
  {
    if |s| < |pat| {
    } else if s[..|pat|] == pat {
      var rest := Split(s[|pat|..], pat);
      assert Split(s, pat) == [""] + rest;
      ReplaceIsJoinSplit(s[|pat|..], pat, rep);
      assert ([""] + rest)[1..] == rest;
      assert Replace(s, pat, rep) == rep + Join(rest, rep);
      assert Join([""] + rest, rep) == "" + rep + Join(rest, rep);
    } else {
      var p := Split(s[1..], pat);
      assert Split(s, pat) == [[s[0]] + p[0]] + p[1..];
      ReplaceIsJoinSplit(s[1..], pat, rep);
      JoinPrepend([s[0]], p, rep);
    }
  }

  /** No piece contains the pattern: every occurrence was cut out. */
  lemma {:induction false} SplitPiecesFree(s: string, pat: string)
    requires |pat| > 0
    ensures forall k :: 0 <= k < |Split(s, pat)| ==> !Contains(Split(s, pat)[k], pat)
    decreases |s|
  {
    var parts := Split(s, pat);
    if |s| < |pat| {
      assert !Contains(s, pat);
    } else if s[..|pat|] == pat {
      SplitPiecesFree(s[|pat|..], pat);
      assert !Contains("", pat);
      forall k | 0 < k < |parts| ensures !Contains(parts[k], pat) {
        assert parts[k] == Split(s[|pat|..], pat)[k - 1];
      }
    } else {
      var p := Split(s[1..], pat);
      SplitPiecesFree(s[1..], pat);
      var first := [s[0]] + p[0];
      assert first == s[..|first|];
      if |pat| <= |first| {
        assert first[..|pat|] == s[..|pat|];
        assert first[1..] == p[0];
      }
      assert !Contains(first, pat);
      forall k | 0 < k < |parts| ensures !Contains(parts[k], pat) {
        assert parts[k] == p[k];
      }
    }
  }

  /** A string that holds the pattern splits into at least two pieces. */
  lemma SplitOfContaining(s: string, pat: string)
    requires |pat| > 0 && Contains(s, pat)
    ensures |Split(s, pat)| >= 2
  {
    var parts := Split(s, pat);
    JoinSplit(s, pat);
    SplitPiecesFree(s, pat);
  }

  /** Without an occurrence, replacing changes nothing. */
  lemma {:induction false} ReplaceAbsent(s: string, pat: string, rep: string)
    requires |pat| > 0 && !Contains(s, pat)
    ensures Replace(s, pat, rep) == s
    decreases |s|
  {
    if |s| >= |pat| {
      ReplaceAbsent(s[1..], pat, rep);
      assert s == [s[0]] + s[1..];
    }
  }

  /** A join of two or more pieces contains the separator. */
  lemma JoinContainsSeparator(xs: seq<string>, sep: string)
    requires |xs| >= 2
    ensures Contains(Join(xs, sep), sep)
  {
    var j := Join(xs, sep);
    assert j == xs[0] + sep + Join(xs[1..], sep);
    assert j[|xs[0]|..|xs[0]| + |sep|] == sep;
    ContainsAt(j, sep, |xs[0]|);
  }

  // Decimal rendering.

  predicate IsDigit(c: char) {
    '0' <= c <= '9'
  }

  predicate AllDigits(s: string) {
    forall k :: 0 <= k < |s| ==> IsDigit(s[k])
  }

  function DigitChar(d: nat): char
    requires d < 10
  {
    ('0' as int + d) as char
  }

  function DigitValue(c: char): nat
    requires IsDigit(c)
  {
    (c as int - '0' as int) as nat
  }

  function Pow10(w: nat): nat {
    if w == 0 then 1 else 10 * Pow10(w - 1)
  }

  /** Python's `str(n)` for a natural number: decimal digits without leading
      zeros, as many as the value needs. */
  function Decimal(n: nat): string
    decreases n
  {
    if n < 10 then [DigitChar(n)] else Decimal(n / 10) + [DigitChar(n % 10)]
  }

  /** The rendering is a non-empty run of digits with no leading zero unless
      it is the single digit `0`. */
  lemma {:induction false} DecimalDigits(n: nat)
    ensures |Decimal(n)| >= 1 && AllDigits(Decimal(n))
    ensures |Decimal(n)| > 1 ==> Decimal(n)[0] != '0'
    decreases n
  {
    if n >= 10 {
      DecimalDigits(n / 10);
      var d := Decimal(n / 10);
      assert Decimal(n) == d + [DigitChar(n % 10)];
      assert n / 10 >= 1;
      assert |d| == 1 ==> d[0] != '0';
    }
  }

  lemma {:induction false} DecimalLength(n: nat, w: nat)
    requires n < Pow10(w)
    ensures |Decimal(n)| <= if w == 0 then 1 else w
    decreases n
  {
    if n >= 10 {
      DecimalLength(n / 10, w - 1);
    }
  }

  function Zeros(k: nat): (r: string)
    ensures |r| == k && forall i :: 0 <= i < k ==> r[i] == '0'
  {
    if k == 0 then "" else Zeros(k - 1) + "0"
  }

  /** Python's `format(n, "0w")`: the decimal digits, with zeros added on the
      left up to a minimum width `w` (never truncated). */
  function ZeroPad(n: nat, w: nat): string {
    var d := Decimal(n);
    if |d| < w then Zeros(w - |d|) + d else d
  }

  /** Reads a string of decimal digits as a number (the empty string is 0). */
  function ParseDigits(s: string): nat
    requires AllDigits(s)
    decreases |s|
  {
    if s == [] then 0 else 10 * ParseDigits(s[..|s| - 1]) + DigitValue(s[|s| - 1])
  }

  lemma DigitRoundTrip(d: nat)
    requires d < 10
    ensures DigitValue(DigitChar(d)) == d
  {
  }

  lemma {:induction false} ParseDecimal(n: nat)
    ensures AllDigits(Decimal(n))
    ensures ParseDigits(Decimal(n)) == n
    decreases n
  {
    DecimalDigits(n);
    if n >= 10 {
      var d := Decimal(n);
      assert d[..|d| - 1] == Decimal(n / 10);
      ParseDecimal(n / 10);
      DigitRoundTrip(n % 10);
    } else {
      DigitRoundTrip(n);
    }
  }

  lemma {:induction false} ParseLeadingZeros(k: nat, s: string)
    requires AllDigits(s)
    ensures AllDigits(Zeros(k) + s) && ParseDigits(Zeros(k) + s) == ParseDigits(s)
    decreases |s|, k
  {
    var z := Zeros(k) + s;
    if s == [] {
      assert z == Zeros(k);
      if k > 0 {
        assert z[..|z| - 1] == Zeros(k - 1) + [];
        ParseLeadingZeros(k - 1, []);
      }
    } else {
      var s' := s[..|s| - 1];
      assert z[..|z| - 1] == Zeros(k) + s';
      ParseLeadingZeros(k, s');
    }
  }

  /** The padded rendering is all digits, at least `w` long, exactly `w` long
      when the value fits, with no padding zero in front when it is longer,
      and reads back as the value. */
  lemma ZeroPadProperties(n: nat, w: nat)
    ensures AllDigits(ZeroPad(n, w)) && |ZeroPad(n, w)| >= w
    ensures 0 < w && n < Pow10(w) ==> |ZeroPad(n, w)| == w
    ensures 0 < w && |ZeroPad(n, w)| > w ==> ZeroPad(n, w)[0] != '0'
    ensures ParseDigits(ZeroPad(n, w)) == n
  {
    var d := Decimal(n);
    DecimalDigits(n);
    ParseDecimal(n);
    if |d| < w {
      ParseLeadingZeros(w - |d|, d);
    }
    if 0 < w && n < Pow10(w) {
      DecimalLength(n, w);
    }
  }

  /** A string of digits reads as less than ten to the power of its length. */
  lemma {:induction false} ParseDigitsBound(s: string)
    requires AllDigits(s)
    ensures ParseDigits(s) < Pow10(|s|)
    decreases |s|
  {
    if s != [] {
      ParseDigitsBound(s[..|s| - 1]);
    }
  }

  /** Reading from the front: the first digit weighs `10^(|s| - 1)`. */
  lemma {:induction false} ParseDigitsFront(s: string)
    requires AllDigits(s) && s != []
    ensures ParseDigits(s) == DigitValue(s[0]) * Pow10(|s| - 1) + ParseDigits(s[1..])
    decreases |s|
  {
    if |s| == 1 {
      assert s[1..] == [];
    } else {
      var init, tail := s[..|s| - 1], s[1..];
      ParseDigitsFront(init);
      assert init[1..] == tail[..|tail| - 1];
      assert tail[|tail| - 1] == s[|s| - 1];
      ShiftDigit(DigitValue(s[0]), Pow10(|s| - 2), ParseDigits(init[1..]), DigitValue(s[|s| - 1]));
    }
  }

  lemma ShiftDigit(d: nat, p: nat, r: nat, last: nat)
    ensures 10 * (d * p + r) + last == d * (10 * p) + (10 * r + last)
  {
  }

  // String order.

  /** `x` sorts before `y` at position `k`: they agree before `k`, and there
      `x` has ended while `y` goes on, or `x` has the smaller character. */
  predicate LexLessAt(x: string, y: string, k: nat) {
    k <= |x| && k < |y| && x[..k] == y[..k] && (k == |x| || x[k] < y[k])
  }

  /** Python's `<` on strings: the first differing character decides, and a
      proper prefix comes first. */
  predicate LexLess(x: string, y: string) {
    exists k: nat | k <= |x| :: LexLessAt(x, y, k)
  }

  /** Python's `<=` on strings. */
  predicate LexAtMost(x: string, y: string) {
    x == y || LexLess(x, y)
  }

  /** Two digit strings of one length order as the numbers they read as. */
  lemma {:induction false} DigitsOrder(x: string, y: string)
    requires |x| == |y| && AllDigits(x) && AllDigits(y)
    requires ParseDigits(x) < ParseDigits(y)
    ensures LexLess(x, y)
    decreases |x|
  {
    if x == [] {
      assert false;
    }
    ParseDigitsFront(x);
    ParseDigitsFront(y);
    ParseDigitsBound(x[1..]);
    ParseDigitsBound(y[1..]);
    LeadingDigit(DigitValue(x[0]), DigitValue(y[0]), Pow10(|x| - 1), ParseDigits(x[1..]), ParseDigits(y[1..]));
    if x[0] == y[0] {
      DigitsOrder(x[1..], y[1..]);
      var k: nat :| k <= |x[1..]| && LexLessAt(x[1..], y[1..], k);
      assert x[..k + 1] == [x[0]] + x[1..][..k] && y[..k + 1] == [y[0]] + y[1..][..k];
      assert LexLessAt(x, y, k + 1);
    } else {
      assert LexLessAt(x, y, 0);
    }
  }

  /** In `d * p + r` with `r < p`, the leading digit `d` decides first. */
  lemma LeadingDigit(dx: nat, dy: nat, p: nat, rx: nat, ry: nat)
    requires rx < p && ry < p && dx * p + rx < dy * p + ry
    ensures dx <= dy && (dx == dy ==> rx < ry)
  {
    ProductStep(dx, dy, p);
  }

  lemma ProductStep(dx: nat, dy: nat, p: nat)
    ensures dx > dy ==> dx * p >= dy * p + p
  {
    if dx > dy {
      MulSplit(dx, dy, p);
      MulAtLeast(dx - dy, p);
    }
  }

  lemma MulSplit(dx: nat, dy: nat, p: nat)
    requires dx > dy
    ensures dx * p == (dx - dy) * p + dy * p
  {
  }

  lemma MulAtLeast(k: nat, p: nat)
    requires k >= 1
    ensures k * p >= p
  {
  }

  /** Equal-length prefixes that differ decide the order whatever follows. */
  lemma LexPrefixLess(p: string, p': string, q: string, q': string)
    requires |p| == |p'| && LexLess(p, p')
    ensures LexLess(p + q, p' + q')
  {
    var k: nat :| k <= |p| && LexLessAt(p, p', k);
    assert (p + q)[..k] == p[..k] && (p' + q')[..k] == p'[..k];
    assert LexLessAt(p + q, p' + q', k);
  }

  /** A common prefix keeps the order of what follows it. */
  lemma LexSamePrefix(p: string, q: string, q': string)
    requires LexAtMost(q, q')
    ensures LexAtMost(p + q, p + q')
    ensures LexLess(q, q') ==> LexLess(p + q, p + q')
  {
    if LexLess(q, q') {
      var k: nat :| k <= |q| && LexLessAt(q, q', k);
      assert (p + q)[..|p| + k] == p + q[..k] && (p + q')[..|p| + k] == p + q'[..k];
      assert LexLessAt(p + q, p + q', |p| + k);
    }
  }
}
