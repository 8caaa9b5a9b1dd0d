/**
 * The few operations on Python `str` values that the services use: prefix and suffix
 * tests, `strip()`, `split(sep)`, `lower()` and `int()`.
 */
module Text {
  import opened Wrappers

  predicate StartsWith(s: string, prefix: string) {
    |prefix| <= |s| && s[..|prefix|] == prefix
  }

  predicate EndsWith(s: string, suffix: string) {
    |suffix| <= |s| && s[|s| - |suffix|..] == suffix
  }

  /** A prefix of `s` is a prefix of anything that extends `s`. */
  lemma AppendKeepsPrefix(s: string, t: string, prefix: string)
    requires StartsWith(s, prefix)
    ensures StartsWith(s + t, prefix)
  {
    assert (s + t)[..|prefix|] == s[..|prefix|];
  }

  /** Being a prefix is transitive. */
  lemma PrefixOfPrefix(s: string, t: string, prefix: string)
    requires StartsWith(s, t) && StartsWith(t, prefix)
    ensures StartsWith(s, prefix)
  {
    assert s[..|prefix|] == s[..|t|][..|prefix|];
  }

  /** Text appended after a final `/` ends with that `/` and the text. */
  lemma AppendAfterSlash(slashed: string, path: string)
    requires EndsWith(slashed, "/")
    ensures EndsWith(slashed + path, "/" + path)
  {
    var u := slashed + path;
    assert u[|u| - |path| - 1] == slashed[|slashed| - 1];
    assert u[|u| - |path| - 1..] == "/" + path;
  }

  /**
   * Appending `/` and a path cannot make a string start with a prefix ending in `//` that it
   * did not start with, when it does not end in `/` and the path starts outside the prefix.
   */
  lemma NoPrefixAfterSlashPath(s: string, path: string, prefix: string)
    requires |prefix| >= 2 && prefix[|prefix| - 1] == '/' && prefix[|prefix| - 2] == '/'
    requires |path| > 0 && path[0] !in prefix
    requires !StartsWith(s, prefix) && !EndsWith(s, "/")
    ensures !StartsWith(s + "/" + path, prefix)
  {
    var u := s + "/" + path;
    if |prefix| <= |u| {
      if |s| >= |prefix| {
        assert u[..|prefix|] == s[..|prefix|];
      } else if |s| == |prefix| - 1 {
        assert s[|s| - 1..] == [s[|s| - 1]];
        assert u[..|prefix|][|prefix| - 2] == s[|s| - 1];
      } else {
        assert u[..|prefix|][|s| + 1] == path[0];
      }
    }
  }

  /** The characters for which Python's `str.isspace()` holds. */
  predicate IsSpace(c: char) {
    c == ' ' || '\t' <= c <= '\r' || '\U{1c}' <= c <= '\U{1f}' || c == '\U{85}' || c == '\U{a0}'
    || c == '\U{1680}' || '\U{2000}' <= c <= '\U{200a}' || c == '\U{2028}' || c == '\U{2029}'
    || c == '\U{202f}' || c == '\U{205f}' || c == '\U{3000}'
  }

  /** `s.lstrip()`: drops the leading whitespace and nothing else. */
  function StripLeft(s: string): (r: string)
    ensures |r| <= |s| && r == s[|s| - |r|..]
    ensures r == [] || !IsSpace(r[0])
    ensures forall i :: 0 <= i < |s| - |r| ==> IsSpace(s[i])
  {
    if |s| > 0 && IsSpace(s[0]) then StripLeft(s[1..]) else s
  }

  /** `s.rstrip()`: drops the trailing whitespace and nothing else. */
  function StripRight(s: string): (r: string)
    ensures |r| <= |s| && r == s[..|r|]
    ensures r == [] || !IsSpace(r[|r| - 1])
    ensures forall i :: |r| <= i < |s| ==> IsSpace(s[i])
  {
    if |s| > 0 && IsSpace(s[|s| - 1]) then StripRight(s[..|s| - 1]) else s
  }

  /** `s.strip()`: drops the leading and the trailing whitespace. */
  function Strip(s: string): string {
    StripRight(StripLeft(s))
  }

  /** Every character of `t` is whitespace. */
  predicate AllSpace(t: string) {
    forall k :: 0 <= k < |t| ==> IsSpace(t[k])
  }

  /** What `Strip` keeps: a contiguous slice of `s` with only whitespace before and after it. */
  lemma StripMeaning(s: string)
    ensures exists i, j :: 0 <= i <= j <= |s| && Strip(s) == s[i..j] && AllSpace(s[..i]) && AllSpace(s[j..])
  {
    var l := StripLeft(s);
    var r := StripRight(l);
    var i := |s| - |l|;
    var j := i + |r|;
    StripLeftDrops(s);
    StripRightDrops(l);
    assert l == s[i..];
    assert r == s[i..][..|r|] == s[i..j];
    assert l[|r|..] == s[i..][|r|..] == s[j..];
    assert Strip(s) == s[i..j] && AllSpace(s[..i]) && AllSpace(s[j..]);
  }

  lemma StripLeftDrops(s: string)
    ensures AllSpace(s[..|s| - |StripLeft(s)|])
  {
    var n := |s| - |StripLeft(s)|;
    forall k | 0 <= k < n ensures IsSpace(s[..n][k]) {
      assert s[..n][k] == s[k];
    }
  }

  lemma StripRightDrops(s: string)
    ensures AllSpace(s[|StripRight(s)|..])
  {
    var n := |StripRight(s)|;
    forall k | 0 <= k < |s| - n ensures IsSpace(s[n..][k]) {
      assert s[n..][k] == s[n + k];
    }
  }

  /** What `Strip` returns neither starts nor ends with whitespace. */
  lemma StripEnds(s: string)
    ensures Strip(s) == [] || (!IsSpace(Strip(s)[0]) && !IsSpace(Strip(s)[|Strip(s)| - 1]))
  {
    var l := StripLeft(s);
    var r := StripRight(l);
    if r != [] {
      assert r[0] == l[0];
    }
  }

  /** Stripping is the identity on a string that neither starts nor ends with whitespace. */
  lemma StripUnchanged(s: string)
    requires s == [] || (!IsSpace(s[0]) && !IsSpace(s[|s| - 1]))
    ensures Strip(s) == s
  {
    var l := StripLeft(s);
    assert |l| == |s| by {
      if |s| > 0 {
        assert !IsSpace(s[0]);
      }
    }
    assert l == s;
  }

  /** One whitespace character before a word that neither starts nor ends with whitespace is stripped away. */
  lemma StripAfterSpace(c: char, x: string)
    requires IsSpace(c) && |x| > 0 && !IsSpace(x[0]) && !IsSpace(x[|x| - 1])
    ensures Strip([c] + x) == x
  {
    assert ([c] + x)[1..] == x;
    StripUnchanged(x);
  }

  /** Python's `sep.join(parts)` for a one-character separator. */
  function Join(parts: seq<string>, sep: char): string
    requires |parts| >= 1
  {
    if |parts| == 1 then parts[0] else parts[0] + [sep] + Join(parts[1..], sep)
  }

  /** Python's `s.split(sep)` for a one-character separator: never empty. */
  function Split(s: string, sep: char): (parts: seq<string>)
    ensures |parts| >= 1
  {
    if |s| == 0 then [""]
    else
      var rest := Split(s[1..], sep);
      if s[0] == sep then [""] + rest
      else [[s[0]] + rest[0]] + rest[1..]
  }

  /** No part of `Split(s, sep)` holds the separator. */
  lemma {:induction false} SplitPartsWithoutSeparator(s: string, sep: char)
    ensures forall k :: 0 <= k < |Split(s, sep)| ==> sep !in Split(s, sep)[k]
  {
    if |s| > 0 {
      SplitPartsWithoutSeparator(s[1..], sep);
      var rest := Split(s[1..], sep);
      if s[0] != sep {
        assert sep !in [s[0]] + rest[0];
        assert forall k :: 1 <= k < |rest| ==> rest[1..][k - 1] == rest[k];
      }
    }
  }

  /** Joining the parts of a split with the separator gives back the string. */
  lemma {:induction false} JoinSplit(s: string, sep: char)
    ensures Join(Split(s, sep), sep) == s
  {
    if |s| > 0 {
      JoinSplit(s[1..], sep);
      var rest := Split(s[1..], sep);
      assert s == [s[0]] + s[1..];
      if s[0] == sep {
        var parts := [""] + rest;
        assert Split(s, sep) == parts;
        assert parts[1..] == rest;
        assert Join(parts, sep) == "" + [sep] + Join(rest, sep);
        assert "" + [sep] + Join(rest, sep) == [s[0]] + s[1..];
      } else {
        var parts := [[s[0]] + rest[0]] + rest[1..];
        assert Split(s, sep) == parts;
        assert parts[1..] == rest[1..];
        if |rest| > 1 {
          assert Join(rest, sep) == rest[0] + [sep] + Join(rest[1..], sep);
          assert Join(parts, sep) == [s[0]] + rest[0] + [sep] + Join(rest[1..], sep);
        }
        assert Join(parts, sep) == [s[0]] + Join(rest, sep);
        assert [s[0]] + Join(rest, sep) == [s[0]] + s[1..];
      }
    }
  }

  /** A string without the separator splits into itself. */
  lemma {:induction false} SplitWithoutSeparator(s: string, sep: char)
    requires sep !in s
    ensures Split(s, sep) == [s]
  {
    if |s| > 0 {
      SplitWithoutSeparator(s[1..], sep);
      assert s == [s[0]] + s[1..];
    }
  }

  /** Splitting distributes over a separator occurrence. */
  lemma {:induction false} SplitAppend(x: string, y: string, sep: char)
    ensures Split(x + [sep] + y, sep) == Split(x, sep) + Split(y, sep)
  {
    if |x| == 0 {
      assert x + [sep] + y == [sep] + y;
    } else {
      var s := x + [sep] + y;
      assert s[0] == x[0] && s[1..] == x[1..] + [sep] + y;
      SplitAppend(x[1..], y, sep);
      var a, b := Split(x[1..], sep), Split(y, sep);
      if x[0] == sep {
        assert [""] + (a + b) == ([""] + a) + b;
      } else {
        ExtendFirstPart([x[0]], a, b);
      }
    }
  }

  /** Extending the first of the parts `a` before appending `b` is extending the first of `a + b`. */
  lemma ExtendFirstPart(p: string, a: seq<string>, b: seq<string>)
    requires |a| >= 1
    ensures [p + (a + b)[0]] + (a + b)[1..] == ([p + a[0]] + a[1..]) + b
  {
    assert (a + b)[0] == a[0] && (a + b)[1..] == a[1..] + b;
  }

  /** The other round trip: splitting the join of separator-free parts gives the parts back. */
  lemma {:induction false} SplitJoin(parts: seq<string>, sep: char)
    requires |parts| >= 1
    requires forall i :: 0 <= i < |parts| ==> sep !in parts[i]
    ensures Split(Join(parts, sep), sep) == parts
  {
    SplitWithoutSeparator(parts[0], sep);
    if |parts| > 1 {
      SplitJoin(parts[1..], sep);
      SplitAppend(parts[0], Join(parts[1..], sep), sep);
      assert parts == [parts[0]] + parts[1..];
    }
  }

  /** Where part `k` starts inside `Join(parts, sep)`. */
  function Offset(parts: seq<string>, k: nat): nat
    requires k < |parts|
  {
    if k == 0 then 0 else |parts[0]| + 1 + Offset(parts[1..], k - 1)
  }

  /** `s[i..j]` is bounded on each side by a separator or an end of `s`. */
  predicate Bounded(s: string, sep: char, i: int, j: int) {
    0 <= i <= j <= |s| && (i == 0 || s[i - 1] == sep) && (j == |s| || s[j] == sep)
  }

  /** `s[i..j]` is a separator-free stretch of `s` bounded on each side by a separator or an end. */
  predicate IsField(s: string, sep: char, i: int, j: int) {
    Bounded(s, sep, i, j) && sep !in s[i..j]
  }

  /** Part `k` of a join sits between separators (or the ends) at `Offset(parts, k)`. */
  lemma {:induction false} JoinFieldAt(parts: seq<string>, sep: char, k: nat)
    requires k < |parts|
    ensures var o := Offset(parts, k);
      Bounded(Join(parts, sep), sep, o, o + |parts[k]|) && Join(parts, sep)[o..o + |parts[k]|] == parts[k]
  {
    if k > 0 {
      JoinFieldAt(parts[1..], sep, k - 1);
      assert parts[1..][k - 1] == parts[k];
      BoundedAfter(parts[0] + [sep], Join(parts[1..], sep), sep, Offset(parts[1..], k - 1), |parts[k]|);
    }
  }

  /** A bounded stretch stays bounded when a prefix ending in the separator is put in front. */
  lemma BoundedAfter(head: string, tail: string, sep: char, o: int, n: int)
    requires |head| > 0 && head[|head| - 1] == sep && n >= 0 && Bounded(tail, sep, o, o + n)
    ensures Bounded(head + tail, sep, |head| + o, |head| + o + n)
    ensures (head + tail)[|head| + o..|head| + o + n] == tail[o..o + n]
  {
    var t := head + tail;
    assert t[|head| + o - 1] == if o == 0 then sep else tail[o - 1];
    assert |head| + o + n < |t| ==> t[|head| + o + n] == tail[o + n];
  }

  /** A part of `Split(s, sep)` is exactly a field of `s`. */
  lemma SplitFieldIff(s: string, sep: char, field: string)
    ensures field in Split(s, sep) <==> exists i, j :: IsField(s, sep, i, j) && s[i..j] == field
  {
    if field in Split(s, sep) {
      PartIsField(s, sep, field);
    }
    if exists i, j :: IsField(s, sep, i, j) && s[i..j] == field {
      var i, j :| IsField(s, sep, i, j) && s[i..j] == field;
      FieldIsPart(s, sep, i, j);
    }
  }

  lemma PartIsField(s: string, sep: char, field: string)
    requires field in Split(s, sep)
    ensures exists i, j :: IsField(s, sep, i, j) && s[i..j] == field
  {
    var parts := Split(s, sep);
    var k :| 0 <= k < |parts| && parts[k] == field;
    JoinSplit(s, sep);
    JoinFieldAt(parts, sep, k);
    SplitPartsWithoutSeparator(s, sep);
    var i := Offset(parts, k);
    assert Bounded(s, sep, i, i + |field|) && s[i..i + |field|] == field;
    assert sep !in parts[k];
    assert IsField(s, sep, i, i + |field|);
  }

  lemma FieldIsPart(s: string, sep: char, i: int, j: int)
    requires IsField(s, sep, i, j)
    ensures s[i..j] in Split(s, sep)
  {
    FirstPart(s[i..], sep, j - i);
    assert s[i..][..j - i] == s[i..j];
    if i > 0 {
      assert s == s[..i - 1] + [sep] + s[i..];
      SplitAppend(s[..i - 1], s[i..], sep);
    } else {
      assert s == s[i..];
    }
  }

  /** A separator-free prefix that ends at a separator or at the end is the first part. */
  lemma FirstPart(t: string, sep: char, j: nat)
    requires j <= |t| && sep !in t[..j]
    requires j == |t| || t[j] == sep
    ensures Split(t, sep)[0] == t[..j]
  {
    SplitWithoutSeparator(t[..j], sep);
    if j < |t| {
      assert t == t[..j] + [sep] + t[j + 1..];
      SplitAppend(t[..j], t[j + 1..], sep);
    } else {
      assert t == t[..j];
    }
  }

  /** The ASCII part of Python's `str.lower()`. */
  function LowerChar(c: char): char {
    if 'A' <= c <= 'Z' then (c as int + 32) as char else c
  }

  /** `s.lower()`, character by character. */
  function Lower(s: string): (r: string)
    ensures |r| == |s| && forall i :: 0 <= i < |s| ==> r[i] == LowerChar(s[i])
  {
    if s == [] then [] else [LowerChar(s[0])] + Lower(s[1..])
  }

  /** Two characters that are equal, or the upper- and lower-case forms of one ASCII letter. */
  predicate SameLetterIgnoringCase(c: char, d: char) {
    c == d
    || ('A' <= c <= 'Z' && d as int == c as int + 32)
    || ('a' <= c <= 'z' && d as int == c as int - 32)
  }

  /** Case-insensitive equality, defined without `Lower`. */
  predicate EqualIgnoringCase(a: string, b: string) {
    |a| == |b| && forall i :: 0 <= i < |a| ==> SameLetterIgnoringCase(a[i], b[i])
  }

  predicate IsLowerCase(w: string) {
    forall i :: 0 <= i < |w| ==> !('A' <= w[i] <= 'Z')
  }

  /** Lowering `v` yields the lower-case word `w` exactly when `v` is `w` in some letter case. */
  lemma LowerMatches(v: string, w: string)
    requires IsLowerCase(w)
    ensures Lower(v) == w <==> EqualIgnoringCase(v, w)
  {
    if EqualIgnoringCase(v, w) {
      forall i | 0 <= i < |v| ensures Lower(v)[i] == w[i] {
        assert SameLetterIgnoringCase(v[i], w[i]);
      }
    }
  }

  predicate IsDigit(c: char) {
    '0' <= c <= '9'
  }

  /**
   * The digits of a Python decimal integer literal: one or more digits, with single
   * underscores allowed between two digits.
   */
  predicate IsDigitGroup(s: string)
    decreases |s|
  {
    |s| > 0 && IsDigit(s[|s| - 1])
    && (|s| == 1 || IsDigitGroup(s[..|s| - 1]) || (|s| >= 3 && s[|s| - 2] == '_' && IsDigitGroup(s[..|s| - 2])))
  }

  /** A digit group starts with a digit. */
  lemma {:induction false} DigitGroupStartsWithDigit(s: string)
    requires IsDigitGroup(s)
    ensures IsDigit(s[0])
    decreases |s|
  {
    if |s| > 1 {
      if IsDigitGroup(s[..|s| - 1]) {
        DigitGroupStartsWithDigit(s[..|s| - 1]);
      } else {
        DigitGroupStartsWithDigit(s[..|s| - 2]);
      }
    }
  }

  /** The value of a digit group, underscores ignored. */
  function DigitsValue(s: string): nat {
    if s == [] then 0
    else
      var last := s[|s| - 1];
      var rest := DigitsValue(s[..|s| - 1]);
      if IsDigit(last) then rest * 10 + (last as int - '0' as int) else rest
  }

  /**
   * The information separators U+001C to U+001F: `str.isspace()` holds for them, but `int()`
   * neither skips them as whitespace nor accepts them anywhere else.
   */
  predicate IsInfoSeparator(c: char) {
    '\U{1c}' <= c <= '\U{1f}'
  }

  predicate HasInfoSeparator(s: string) {
    exists c :: c in s && IsInfoSeparator(c)
  }

  /** A digit group holds only digits and underscores. */
  lemma {:induction false} DigitGroupChars(s: string)
    requires IsDigitGroup(s)
    ensures forall c :: c in s ==> IsDigit(c) || c == '_'
    decreases |s|
  {
    if |s| > 1 {
      var k := if IsDigitGroup(s[..|s| - 1]) then |s| - 1 else |s| - 2;
      DigitGroupChars(s[..k]);
      assert s == s[..k] + s[k..];
      assert forall c :: c in s[k..] ==> IsDigit(c) || c == '_';
    }
  }

  /** A digit group, negated or not, holds no information separator. */
  lemma DigitGroupPlain(s: string)
    requires IsDigitGroup(s)
    ensures !HasInfoSeparator(s) && !HasInfoSeparator("-" + s)
  {
    DigitGroupChars(s);
    forall c | c in "-" + s ensures !IsInfoSeparator(c) {
      assert c == '-' || c in s;
    }
  }

  /**
   * Python's `int(s)` on a string: surrounding whitespace, an optional sign, then a digit
   * group; `None` where Python raises `ValueError`. The whitespace `int()` skips is that of
   * `str.isspace()` without the information separators, and a string holding one never converts.
   */
  function ParseInt(s: string): Option<int> {
    if HasInfoSeparator(s) then None else ParseTrimmed(Strip(s))
  }

  /** `int` on text without surrounding whitespace: an optional sign, then a digit group. */
  function ParseTrimmed(t: string): Option<int> {
    if |t| > 0 && (t[0] == '+' || t[0] == '-') then
      if IsDigitGroup(t[1..]) then
        Some(if t[0] == '-' then -(DigitsValue(t[1..]) as int) else DigitsValue(t[1..]))
      else None
    else if IsDigitGroup(t) then Some(DigitsValue(t))
    else None
  }

  /** The decimal digits of `n`, as Python's `str(n)` writes them. */
  function Decimal(n: nat): (r: string)
    ensures |r| > 0 && forall i :: 0 <= i < |r| ==> IsDigit(r[i])
  {
    var d := ((n % 10) + '0' as int) as char;
    if n < 10 then [d] else Decimal(n / 10) + [d]
  }

  function IntToString(n: int): string {
    if n < 0 then "-" + Decimal(-n) else Decimal(n)
  }

  lemma {:induction false} DecimalValue(n: nat)
    ensures DigitsValue(Decimal(n)) == n
  {
    var r := Decimal(n);
    if n >= 10 {
      DecimalValue(n / 10);
      assert r[..|r| - 1] == Decimal(n / 10);
    }
  }

  lemma {:induction false} DecimalIsDigitGroup(n: nat)
    ensures IsDigitGroup(Decimal(n))
  {
    if n >= 10 {
      DecimalIsDigitGroup(n / 10);
      var r := Decimal(n);
      assert r[..|r| - 1] == Decimal(n / 10);
    }
  }

  lemma ParseIntOfDigitGroup(s: string)
    requires IsDigitGroup(s)
    ensures ParseInt(s) == Some(DigitsValue(s))
  {
    DigitGroupStartsWithDigit(s);
    DigitGroupPlain(s);
    StripUnchanged(s);
    assert ParseTrimmed(s) == Some(DigitsValue(s)) by {
      assert !(s[0] == '+' || s[0] == '-');
    }
  }

  lemma ParseIntOfNegatedDigitGroup(s: string)
    requires IsDigitGroup(s)
    ensures ParseInt("-" + s) == Some(-(DigitsValue(s) as int))
  {
    DigitGroupPlain(s);
    NegatedDigitGroupTrimmed(s);
    NegatedTrimmed(s);
  }

  lemma NegatedDigitGroupTrimmed(s: string)
    requires IsDigitGroup(s)
    ensures Strip("-" + s) == "-" + s
  {
    var t := "-" + s;
    assert t[|t| - 1] == s[|s| - 1];
    StripUnchanged(t);
  }

  lemma NegatedTrimmed(s: string)
    requires IsDigitGroup(s)
    ensures ParseTrimmed("-" + s) == Some(-(DigitsValue(s) as int))
  {
    assert ("-" + s)[1..] == s;
  }

  /**
   * A whitespace character before a digit group is skipped, except an information separator,
   * which makes the conversion fail.
   */
  lemma ParseIntAfterSpace(c: char, s: string)
    requires IsSpace(c) && IsDigitGroup(s)
    ensures IsInfoSeparator(c) ==> ParseInt([c] + s).None?
    ensures !IsInfoSeparator(c) ==> ParseInt([c] + s) == Some(DigitsValue(s))
  {
    if IsInfoSeparator(c) {
      assert c in [c] + s;
    } else {
      DigitGroupStartsWithDigit(s);
      StripAfterSpace(c, s);
      NoInfoSeparatorAfter(c, s);
      ParseIntOfDigitGroup(s);
    }
  }

  lemma NoInfoSeparatorAfter(c: char, s: string)
    requires !IsInfoSeparator(c) && IsDigitGroup(s)
    ensures !HasInfoSeparator([c] + s)
  {
    DigitGroupPlain(s);
    assert forall d :: d in [c] + s ==> d == c || d in s;
  }

  /** `int(str(n)) == n`. */
  lemma ParseIntRoundTrip(n: int)
    ensures ParseInt(IntToString(n)) == Some(n)
  {
    var m := if n < 0 then -n else n;
    DecimalValue(m);
    DecimalIsDigitGroup(m);
    if n < 0 {
      ParseIntOfNegatedDigitGroup(Decimal(m));
    } else {
      ParseIntOfDigitGroup(Decimal(m));
    }
  }
}
