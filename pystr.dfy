/** The pieces of Python's `str` behaviour the converter relies on: strip, rstrip with a
    character set, find, split and join on one separator, the prefix slice s[:end] with a
    possibly negative end, and decimal conversion as done by str(int), '%d' and int(str). */
module PyStr {

  /** The characters str.isspace() accepts; str.strip() with no argument removes these. */
  const Whitespace: set<char> := {
    '\t', '\n', '\U{B}', '\U{C}', '\r', '\U{1C}', '\U{1D}', '\U{1E}', '\U{1F}', ' ',
    '\U{85}', '\U{A0}', '\U{1680}',
    '\U{2000}', '\U{2001}', '\U{2002}', '\U{2003}', '\U{2004}', '\U{2005}',
    '\U{2006}', '\U{2007}', '\U{2008}', '\U{2009}', '\U{200A}',
    '\U{2028}', '\U{2029}', '\U{202F}', '\U{205F}', '\U{3000}'
  }

  // ---------------------------------------------------------------- strip

  /** How many leading characters of s belong to cs. */
  function LeadingIn(s: string, cs: set<char>): (k: nat)
    ensures k <= |s|
    ensures forall j | 0 <= j < k :: s[j] in cs
    ensures k < |s| ==> s[k] !in cs
  {
    if s != [] && s[0] in cs then 1 + LeadingIn(s[1..], cs) else 0
  }

  /** How many trailing characters of s belong to cs. */
  function TrailingIn(s: string, cs: set<char>): (k: nat)
    ensures k <= |s|
    ensures forall j | |s| - k <= j < |s| :: s[j] in cs
    ensures k < |s| ==> s[|s| - 1 - k] !in cs
  {
    if s != [] && s[|s| - 1] in cs then 1 + TrailingIn(s[..|s| - 1], cs) else 0
  }

  /** s.lstrip(chars), the argument read as a set of characters. */
  function LStripChars(s: string, cs: set<char>): string
  {
    s[LeadingIn(s, cs)..]
  }

  /** s.rstrip(chars), the argument read as a set of characters, not as a suffix. */
  function RStripChars(s: string, cs: set<char>): string
  {
    s[..|s| - TrailingIn(s, cs)]
  }

  /** s.strip() */
  function Strip(s: string): (r: string)
    ensures r == [] || (r[0] !in Whitespace && r[|r| - 1] !in Whitespace)
  {
    LStripChars(RStripChars(s, Whitespace), Whitespace)
  }

  /** What strip removes is whitespace, and what it keeps is one contiguous piece of s. */
  lemma StripKeepsMiddle(s: string)
    ensures var i := LeadingIn(RStripChars(s, Whitespace), Whitespace);
            var j := |s| - TrailingIn(s, Whitespace);
            && 0 <= i <= j <= |s|
            && Strip(s) == s[i..j]
            && (forall k | 0 <= k < i :: s[k] in Whitespace)
            && (forall k | j <= k < |s| :: s[k] in Whitespace)
  {
    var t := RStripChars(s, Whitespace);
    var i := LeadingIn(t, Whitespace);
    assert t == s[..|s| - TrailingIn(s, Whitespace)];
    assert forall k | 0 <= k < i :: t[k] == s[k];
  }

  lemma StripIdempotent(s: string)
    ensures Strip(Strip(s)) == Strip(s)
  {
    var r := Strip(s);
    assert TrailingIn(r, Whitespace) == 0;
    assert RStripChars(r, Whitespace) == r;
    assert LeadingIn(r, Whitespace) == 0;
  }

  // ---------------------------------------------------------------- find

  predicate OccursAt(s: string, sub: string, k: int)
  {
    0 <= k && k + |sub| <= |s| && s[k..k + |sub|] == sub
  }

  function StrFindFrom(s: string, sub: string, i: nat): (r: int)
    ensures r == -1 || (i <= r && OccursAt(s, sub, r))
    ensures forall k | i <= k && (r == -1 || k < r) :: !OccursAt(s, sub, k)
    decreases |s| - i
  {
    if i + |sub| > |s| then -1
    else if s[i..i + |sub|] == sub then i
    else StrFindFrom(s, sub, i + 1)
  }

  /** s.find(sub): the lowest index where sub occurs, or -1 when it does not occur. */
  function StrFind(s: string, sub: string): (r: int)
    ensures r == -1 || OccursAt(s, sub, r)
    ensures r == -1 <==> forall k :: !OccursAt(s, sub, k)
    ensures forall k | 0 <= k < r :: !OccursAt(s, sub, k)
  {
    StrFindFrom(s, sub, 0)
  }

  /** A string that has sub as a factor is found to contain it. */
  lemma StrFindFactor(a: string, sub: string, b: string)
    ensures StrFind(a + sub + b, sub) != -1
  {
    var s := a + sub + b;
    assert s[|a|..|a| + |sub|] == sub;
    assert OccursAt(s, sub, |a|);
  }

  // ---------------------------------------------------------------- split and join

  /** sep.join(parts) for a one-character separator. */
  function Join(parts: seq<string>, sep: char): string
  {
    if |parts| == 0 then ""
    else if |parts| == 1 then parts[0]
    else parts[0] + [sep] + Join(parts[1..], sep)
  }

  /** s.split(sep) for a one-character separator: the fields between separators. */
  function Split(s: string, sep: char): (r: seq<string>)
    ensures |r| >= 1
    ensures forall k | 0 <= k < |r| :: sep !in r[k]
    ensures Join(r, sep) == s
    ensures |r| == 1 <==> sep !in s
  {
    if s == [] then [""]
    else
      var rest := Split(s[1..], sep);
      if s[0] == sep then
        assert s == [sep] + s[1..];
        [""] + rest
      else
        assert s == [s[0]] + s[1..];
        assert sep in s[1..] ==> sep in s;
        [[s[0]] + rest[0]] + rest[1..]
  }

  /** A character other than the separator joins the first field. */
  lemma SplitCons(c: char, t: string, sep: char)
    requires c != sep
    ensures Split([c] + t, sep) == [[c] + Split(t, sep)[0]] + Split(t, sep)[1..]
  {
    assert ([c] + t)[1..] == t;
  }

  /** A first field free of the separator is split off unchanged. */
  lemma {:induction false} SplitPrefix(x: string, t: string, sep: char)
    requires sep !in x
    ensures Split(x + t, sep) == [x + Split(t, sep)[0]] + Split(t, sep)[1..]
    decreases |x|
  {
    if x == [] {
      SplitPrefixNil(t, sep);
    } else {
      SplitPrefix(x[1..], t, sep);
      SplitPrefixStep(x, t, sep);
    }
  }

  lemma SplitPrefixNil(t: string, sep: char)
    ensures Split([] + t, sep) == [[] + Split(t, sep)[0]] + Split(t, sep)[1..]
  {
    var r := Split(t, sep);
    assert [] + t == t && [] + r[0] == r[0];
    assert r == [r[0]] + r[1..];
  }

  lemma HeadTail(x: string, t: string)
    requires x != []
    ensures x + t == [x[0]] + (x[1..] + t)
  {
    assert x == [x[0]] + x[1..];
  }

  lemma SplitPrefixStep(x: string, t: string, sep: char)
    requires x != [] && x[0] != sep
    requires Split(x[1..] + t, sep) == [x[1..] + Split(t, sep)[0]] + Split(t, sep)[1..]
    ensures Split(x + t, sep) == [x + Split(t, sep)[0]] + Split(t, sep)[1..]
  {
    var r := Split(t, sep);
    var y := x[1..];
    var q := Split(y + t, sep);
    HeadTail(x, t);
    HeadTail(x, r[0]);
    SplitCons(x[0], y + t, sep);
  }

  /** Splitting undoes joining when no part contains the separator. */
  lemma {:induction false} SplitJoin(parts: seq<string>, sep: char)
    requires |parts| >= 1
    requires forall k | 0 <= k < |parts| :: sep !in parts[k]
    ensures Split(Join(parts, sep), sep) == parts
  {
    if |parts| == 1 {
      assert Join(parts, sep) == parts[0];
      SplitPrefix(parts[0], "", sep);
      assert parts[0] + "" == parts[0];
    } else {
      var rest := Join(parts[1..], sep);
      SplitJoin(parts[1..], sep);
      assert Split([sep] + rest, sep) == [""] + parts[1..];
      assert Join(parts, sep) == parts[0] + ([sep] + rest);
      SplitPrefix(parts[0], [sep] + rest, sep);
      assert parts[0] + "" == parts[0];
    }
  }

  /** A leading separator splits off an empty first field. */
  lemma SplitSeparatorFirst(t: string, sep: char)
    ensures Split([sep] + t, sep) == [""] + Split(t, sep)
  {
    assert ([sep] + t)[1..] == t;
  }

  /** A string free of the separator splits into itself alone. */
  lemma SplitNoSeparator(s: string, sep: char)
    requires sep !in s
    ensures Split(s, sep) == [s]
  {
    var r := Split(s, sep);
    assert |r| == 1 && Join(r, sep) == r[0];
  }

  /** The last field of a split is what follows the last separator (path.split(os.sep)[-1]). */
  lemma {:induction false} SplitLastField(d: string, f: string, sep: char)
    requires sep !in f
    ensures var r := Split(d + [sep] + f, sep); |r| >= 2 && r[|r| - 1] == f
    decreases |d|
  {
    if d == [] {
      SplitSeparatorFirst(f, sep);
      SplitNoSeparator(f, sep);
      assert d + [sep] + f == [sep] + f;
    } else {
      SplitLastField(d[1..], f, sep);
      SplitLastFieldStep(d, f, sep);
    }
  }

  lemma SplitLastFieldStep(d: string, f: string, sep: char)
    requires d != []
    requires var r := Split(d[1..] + [sep] + f, sep); |r| >= 2 && r[|r| - 1] == f
    ensures var r := Split(d + [sep] + f, sep); |r| >= 2 && r[|r| - 1] == f
  {
    var u := d[1..] + [sep] + f;
    HeadTail(d, [sep] + f);
    assert d + [sep] + f == [d[0]] + u;
    var r := Split(u, sep);
    if d[0] != sep {
      SplitCons(d[0], u, sep);
      var r' := [[d[0]] + r[0]] + r[1..];
      assert |r'| == |r| && r'[|r'| - 1] == r[|r| - 1];
    } else {
      SplitSeparatorFirst(u, sep);
      assert ([""] + r)[|r|] == r[|r| - 1];
    }
  }

  /** rstrip(chars) removes exactly a trailing run of characters from the set. */
  lemma RStripCharsSuffix(a: string, b: string, cs: set<char>)
    requires forall k | 0 <= k < |b| :: b[k] in cs
    requires a == [] || a[|a| - 1] !in cs
    ensures RStripChars(a + b, cs) == a
  {
    var s := a + b;
    assert forall j | |a| <= j < |s| :: s[j] == b[j - |a|];
    assert a != [] ==> s[|a| - 1] == a[|a| - 1];
    assert TrailingIn(s, cs) == |b|;
    assert s[..|s| - |b|] == a;
  }

  // ---------------------------------------------------------------- slicing

  /** s[:end]: a negative end counts back from the end of s; both ends clamp. */
  function SliceTo(s: string, end: int): string
  {
    if end >= 0 then s[..if end <= |s| then end else |s|]
    else s[..if |s| + end >= 0 then |s| + end else 0]
  }

  // ---------------------------------------------------------------- decimal numbers

  /** An ASCII decimal digit; other Unicode decimal digits are not modelled. */
  predicate IsDigit(c: char)
  {
    '0' <= c <= '9'
  }

  predicate AllDigits(s: string)
  {
    forall k | 0 <= k < |s| :: IsDigit(s[k])
  }

  function DigitValue(c: char): (d: nat)
    requires IsDigit(c)
    ensures d < 10
  {
    c as int - '0' as int
  }

  function DigitChar(d: nat): (c: char)
    requires d < 10
    ensures IsDigit(c) && DigitValue(c) == d
  {
    ('0' as int + d) as char
  }

  /** str(n) for a non-negative n; also what '%d' % n produces. */
  function NatToStr(n: nat): (r: string)
    ensures |r| >= 1 && AllDigits(r)
  {
    if n < 10 then [DigitChar(n)] else NatToStr(n / 10) + [DigitChar(n % 10)]
  }

  /** int(s) for a string of decimal digits (leading zeros allowed). */
  function DecimalValue(s: string): nat
    requires AllDigits(s)
  {
    if s == [] then 0 else 10 * DecimalValue(s[..|s| - 1]) + DigitValue(s[|s| - 1])
  }

  /** int(str(n)) == n */
  lemma {:induction false} DecimalRoundTrip(n: nat)
    ensures DecimalValue(NatToStr(n)) == n
  {
    if n >= 10 {
      var s := NatToStr(n);
      assert s[..|s| - 1] == NatToStr(n / 10);
      DecimalRoundTrip(n / 10);
    }
  }

  /** Different numbers print differently. */
  lemma NatToStrInjective(m: nat, n: nat)
    requires NatToStr(m) == NatToStr(n)
    ensures m == n
  {
    DecimalRoundTrip(m);
    DecimalRoundTrip(n);
  }

  /** The two-digit, zero-padded form strftime gives for %m and %d. */
  function Pad2(n: nat): (r: string)
    requires n < 100
    ensures |r| == 2 && AllDigits(r)
  {
    [DigitChar(n / 10), DigitChar(n % 10)]
  }

  /** The four-digit, zero-padded form of a year below 10000. */
  function Pad4(n: nat): (r: string)
    requires n < 10000
    ensures |r| == 4 && AllDigits(r)
  {
    Pad2(n / 100) + Pad2(n % 100)
  }

  lemma Pad2Value(n: nat)
    requires n < 100
    ensures DecimalValue(Pad2(n)) == n
  {
    var s := Pad2(n);
    assert s[..1][..0] == [];
    assert s[..1] == [DigitChar(n / 10)];
    assert DecimalValue(s[..1]) == n / 10;
    assert DecimalValue(s) == 10 * (n / 10) + n % 10;
  }

  lemma Pad4Value(n: nat)
    requires n < 10000
    ensures DecimalValue(Pad4(n)) == n
  {
    var s := Pad4(n);
    var hi, lo := n / 100, n % 100;
    assert s[..3] == Pad2(hi) + [DigitChar(lo / 10)];
    assert s[..3][..2] == Pad2(hi);
    Pad2Value(hi);
  }

  lemma DivMod10(a: nat, b: nat)
    requires b < 10
    ensures (10 * a + b) / 10 == a && (10 * a + b) % 10 == b
  {
  }

  /** Appending a digit to a positive number appends its character to str(). */
  lemma NatToStrAppendDigit(n: nat, d: nat)
    requires n >= 1 && d < 10
    ensures NatToStr(10 * n + d) == NatToStr(n) + [DigitChar(d)]
  {
    DivMod10(n, d);
  }

  lemma DivMod100(a: nat, b: nat)
    requires b < 100
    ensures (100 * a + b) / 100 == a && (100 * a + b) % 100 == b
  {
  }

  /** Reading two or four digits and printing the value back gives the same digits. */
  lemma Pad2OfDigits(s: string)
    requires |s| == 2 && AllDigits(s)
    ensures DecimalValue(s) < 100 && Pad2(DecimalValue(s)) == s
  {
    assert s[..1][..0] == [];
    assert s[..1] == [s[0]];
    var a, b := DigitValue(s[0]), DigitValue(s[1]);
    assert DecimalValue(s[..1]) == a;
    assert DecimalValue(s) == 10 * a + b;
    DivMod10(a, b);
    assert DigitChar(a) == s[0] && DigitChar(b) == s[1];
  }

  /** One more digit multiplies the value by ten and adds the digit. */
  lemma DecimalSnoc(a: string, c: char)
    requires AllDigits(a) && IsDigit(c)
    ensures AllDigits(a + [c]) && DecimalValue(a + [c]) == 10 * DecimalValue(a) + DigitValue(c)
  {
    assert (a + [c])[..|a|] == a;
  }

  /** Two more digits multiply the value by a hundred and add theirs. */
  lemma DecimalTwoMore(a: string, b: string)
    requires AllDigits(a) && |b| == 2 && AllDigits(b)
    ensures AllDigits(a + b) && DecimalValue(a + b) == 100 * DecimalValue(a) + DecimalValue(b)
  {
    var d0, d1 := DigitValue(b[0]), DigitValue(b[1]);
    var a1 := a + [b[0]];
    DecimalSnoc(a, b[0]);
    DecimalSnoc(a1, b[1]);
    assert a + b == a1 + [b[1]];
    assert b[..1] == [b[0]] && b[..1][..0] == [];
    assert DecimalValue(b[..1]) == d0;
    assert DecimalValue(b) == 10 * d0 + d1;
  }

  lemma Pad4OfDigits(s: string)
    requires |s| == 4 && AllDigits(s)
    ensures DecimalValue(s) < 10000 && Pad4(DecimalValue(s)) == s
  {
    var hi, lo := s[..2], s[2..];
    Pad2OfDigits(hi);
    Pad2OfDigits(lo);
    assert s == hi + lo;
    DecimalTwoMore(hi, lo);
    DivMod100(DecimalValue(hi), DecimalValue(lo));
  }
}
