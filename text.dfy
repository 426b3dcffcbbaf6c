/** The pieces of Python's `str` behaviour the extractor relies on: `isspace`,
    `strip`, `split` on one character, `title`, `in` (substring test) and `int()`
    applied to a string. Strings are sequences of Unicode code points. */
module Text {
  import opened Wrappers

  // ---------------------------------------------------------------------------
  // Whitespace and strip()

  /** Python's `str.isspace()` for one code point: the characters whose
      bidirectional class is WS, B or S, or whose category is Zs. */
  predicate IsSpace(c: char) {
    || ('\t' <= c <= '\r')
    || ('\U{1C}' <= c <= ' ')
    || c == '\U{85}' || c == '\U{A0}' || c == '\U{1680}'
    || ('\U{2000}' <= c <= '\U{200A}')
    || c == '\U{2028}' || c == '\U{2029}' || c == '\U{202F}'
    || c == '\U{205F}' || c == '\U{3000}'
  }

  predicate AllSpace(s: string) {
    forall i | 0 <= i < |s| :: IsSpace(s[i])
  }

  /** `s.lstrip()`: drops leading whitespace. */
  function StripStart(s: string): string {
    if |s| > 0 && IsSpace(s[0]) then StripStart(s[1..]) else s
  }

  /** `s.rstrip()`: drops trailing whitespace. */
  function StripEnd(s: string): string {
    if |s| > 0 && IsSpace(s[|s| - 1]) then StripEnd(s[..|s| - 1]) else s
  }

  /** `s.strip()`. */
  function Strip(s: string): string {
    StripEnd(StripStart(s))
  }

  /** lstrip leaves a suffix of the input: what it dropped is all whitespace and
      what it kept does not start with whitespace. */
  lemma {:induction false} StripStartShape(s: string)
    ensures var r := StripStart(s);
      && |r| <= |s| && r == s[|s| - |r|..]
      && AllSpace(s[..|s| - |r|])
      && (r == [] || !IsSpace(r[0]))
  {
    if |s| > 0 && IsSpace(s[0]) {
      StripStartShape(s[1..]);
      var r := StripStart(s);
      assert s[..|s| - |r|] == [s[0]] + s[1..][..|s| - 1 - |r|];
    }
  }

  /** rstrip leaves a prefix of the input: what it dropped is all whitespace and
      what it kept does not end with whitespace. */
  lemma {:induction false} StripEndShape(s: string)
    ensures var r := StripEnd(s);
      && |r| <= |s| && r == s[..|r|]
      && AllSpace(s[|r|..])
      && (r == [] || !IsSpace(r[|r| - 1]))
  {
    if |s| > 0 && IsSpace(s[|s| - 1]) {
      StripEndShape(s[..|s| - 1]);
      var r := StripEnd(s);
      assert s[|r|..] == s[..|s| - 1][|r|..] + [s[|s| - 1]];
    }
  }

  /** What Strip leaves has no whitespace at either end. */
  lemma StripEnds(s: string)
    ensures var r := Strip(s); r == [] || (!IsSpace(r[0]) && !IsSpace(r[|r| - 1]))
  {
    var t := StripStart(s);
    var r := StripEnd(t);
    StripStartShape(s);
    StripEndShape(t);
    if r != [] {
      assert r[0] == t[0];
    }
  }

  /** Strip gives the empty string exactly when the input is all whitespace. */
  lemma StripBlank(s: string)
    ensures Strip(s) == [] <==> AllSpace(s)
  {
    var t := StripStart(s);
    StripStartShape(s);
    StripEndShape(t);
    var k := |s| - |t|;
    assert t == s[k..];
    if Strip(s) == [] {
      forall i | 0 <= i < k ensures IsSpace(s[i]) {
        assert s[i] == s[..k][i];
      }
    }
  }

  lemma StripIdempotent(s: string)
    ensures Strip(Strip(s)) == Strip(s)
  {
    var r := Strip(s);
    StripEnds(s);
    if r != [] {
      assert StripStart(r) == r;
      assert StripEnd(r) == r;
    }
  }

  /** Every character Strip keeps occurs in the input. */
  lemma StripKeepsCharacters(s: string, c: char)
    requires c in Strip(s)
    ensures c in s
  {
    var t := StripStart(s);
    var r := StripEnd(t);
    StripStartShape(s);
    StripEndShape(t);
    var k := |s| - |t|;
    var i :| 0 <= i < |r| && r[i] == c;
    assert r[i] == t[i] == s[k + i];
  }

  // ---------------------------------------------------------------------------
  // split() on a one-character separator, and its inverse join()

  /** `s.split(sep)` for a one-character separator: one more part than there are
      separators; `"".split(",") == [""]`. */
  function Split(s: string, sep: char): (parts: seq<string>)
    ensures |parts| == Count(s, sep) + 1
  {
    if s == [] then [[]]
    else
      var rest := Split(s[1..], sep);
      if s[0] == sep then [[]] + rest
      else [[s[0]] + rest[0]] + rest[1..]
  }

  /** No part of a split holds the separator. */
  lemma {:induction false} SplitParts(s: string, sep: char)
    ensures forall p | p in Split(s, sep) :: sep !in p
  {
    if s != [] {
      var rest := Split(s[1..], sep);
      SplitParts(s[1..], sep);
      if s[0] != sep {
        assert rest[0] in rest;
        assert forall p | p in rest[1..] :: p in rest;
      }
    }
  }

  function Count(s: string, c: char): nat {
    if s == [] then 0 else (if s[0] == c then 1 else 0) + Count(s[1..], c)
  }

  /** `sep.join(parts)`. */
  function Join(parts: seq<string>, sep: char): string
    requires |parts| > 0
  {
    if |parts| == 1 then parts[0] else parts[0] + [sep] + Join(parts[1..], sep)
  }

  lemma {:induction false} JoinSplit(s: string, sep: char)
    ensures Join(Split(s, sep), sep) == s
  {
    if s != [] {
      var rest := Split(s[1..], sep);
      JoinSplit(s[1..], sep);
      if s[0] == sep {
        assert Split(s, sep)[1..] == rest;
      } else {
        var parts := Split(s, sep);
        if |rest| == 1 {
          assert parts == [[s[0]] + rest[0]];
        } else {
          assert parts[1..] == rest[1..];
          assert Join(rest, sep) == rest[0] + [sep] + Join(rest[1..], sep);
        }
      }
    }
  }

  /** Splitting a separator-free word glued in front of some text. */
  lemma {:induction false} SplitPrefix(w: string, t: string, sep: char)
    requires sep !in w
    ensures Split(w + t, sep) == [w + Split(t, sep)[0]] + Split(t, sep)[1..]
  {
    if w != [] {
      assert (w + t)[1..] == w[1..] + t;
      SplitPrefix(w[1..], t, sep);
      assert [w[0]] + (w[1..] + Split(t, sep)[0]) == w + Split(t, sep)[0];
    } else {
      assert w + t == t;
      assert w + Split(t, sep)[0] == Split(t, sep)[0];
    }
  }

  lemma {:induction false} SplitJoin(parts: seq<string>, sep: char)
    requires |parts| > 0
    requires forall p | p in parts :: sep !in p
    ensures Split(Join(parts, sep), sep) == parts
  {
    if |parts| == 1 {
      SplitPrefix(parts[0], [], sep);
      assert parts[0] + [] == parts[0];
    } else {
      var tail := Join(parts[1..], sep);
      SplitJoin(parts[1..], sep);
      assert parts[0] + [sep] + tail == parts[0] + ([sep] + tail);
      SplitPrefix(parts[0], [sep] + tail, sep);
      assert ([sep] + tail)[1..] == tail;
      assert Split([sep] + tail, sep) == [[]] + parts[1..];
      assert parts[0] + [] == parts[0];
    }
  }

  /** `s.split(sep)` gives exactly the two parts a and b exactly when s is
      a, the separator, b, with no separator in either part. */
  lemma SplitInTwo(s: string, sep: char, a: string, b: string)
    ensures Split(s, sep) == [a, b] <==> (s == a + [sep] + b && sep !in a && sep !in b)
  {
    if Split(s, sep) == [a, b] {
      SplitParts(s, sep);
      JoinSplit(s, sep);
      assert Join([a, b], sep) == a + [sep] + Join([b], sep);
    }
    if s == a + [sep] + b && sep !in a && sep !in b {
      SplitJoin([a, b], sep);
      assert Join([a, b], sep) == a + [sep] + Join([b], sep);
    }
  }

  // ---------------------------------------------------------------------------
  // Substring test: Python's `sub in s`

  /** `sub in s`, scanning the start positions from the left. */
  predicate Contains(s: string, sub: string) {
    |sub| <= |s| && (s[..|sub|] == sub || Contains(s[1..], sub))
  }

  predicate OccursAt(s: string, sub: string, i: nat) {
    i + |sub| <= |s| && s[i..i + |sub|] == sub
  }

  /** The scan finds `sub` exactly when it occurs at some position. */
  lemma {:induction false} ContainsOccurs(s: string, sub: string)
    ensures Contains(s, sub) <==> exists i | 0 <= i <= |s| :: OccursAt(s, sub, i)
  {
    if |sub| <= |s| && s[..|sub|] != sub {
      ContainsOccurs(s[1..], sub);
      if exists i | 0 <= i <= |s| :: OccursAt(s, sub, i) {
        var i :| 0 <= i <= |s| && OccursAt(s, sub, i);
        assert i != 0;
        assert s[1..][i - 1..i - 1 + |sub|] == s[i..i + |sub|];
        assert OccursAt(s[1..], sub, i - 1);
      }
      if Contains(s[1..], sub) {
        var i :| 0 <= i <= |s[1..]| && OccursAt(s[1..], sub, i);
        assert s[1..][i..i + |sub|] == s[i + 1..i + 1 + |sub|];
        assert OccursAt(s, sub, i + 1);
      }
    } else if |sub| <= |s| {
      assert OccursAt(s, sub, 0);
    }
  }

  // ---------------------------------------------------------------------------
  // title()

  predicate IsUpper(c: char) { 'A' <= c <= 'Z' }
  predicate IsLower(c: char) { 'a' <= c <= 'z' }

  /** Cased characters, the ones after which `title()` lower-cases. Only the
      ASCII letters are modelled as cased. */
  predicate IsCased(c: char) { IsUpper(c) || IsLower(c) }

  function ToUpper(c: char): (u: char)
    ensures !IsLower(u)
  {
    if IsLower(c) then (c as int - 32) as char else c
  }

  function ToLower(c: char): (l: char)
    ensures !IsUpper(l)
  {
    if IsUpper(c) then (c as int + 32) as char else c
  }

  function TitleFrom(s: string, afterCased: bool): string {
    if s == [] then []
    else [if afterCased then ToLower(s[0]) else ToUpper(s[0])] + TitleFrom(s[1..], IsCased(s[0]))
  }

  /** `s.title()`: a cased character that follows a cased character is
      lower-cased, every other one is upper-cased. */
  function Title(s: string): string {
    TitleFrom(s, false)
  }

  lemma {:induction false} TitleFromAt(s: string, afterCased: bool)
    ensures |TitleFrom(s, afterCased)| == |s|
    ensures forall k | 0 <= k < |s| ::
      TitleFrom(s, afterCased)[k] ==
        if (if k == 0 then afterCased else IsCased(s[k - 1])) then ToLower(s[k]) else ToUpper(s[k])
  {
    if s != [] {
      TitleFromAt(s[1..], IsCased(s[0]));
      var t := TitleFrom(s, afterCased);
      forall k | 1 <= k < |s|
        ensures t[k] == if IsCased(s[k - 1]) then ToLower(s[k]) else ToUpper(s[k])
      {
        assert t[k] == TitleFrom(s[1..], IsCased(s[0]))[k - 1];
        assert s[1..][k - 1] == s[k];
        if k > 1 { assert s[1..][k - 2] == s[k - 1]; }
      }
    }
  }

  lemma TitleAt(s: string)
    ensures |Title(s)| == |s|
    ensures forall k | 0 <= k < |s| ::
      Title(s)[k] == if k > 0 && IsCased(s[k - 1]) then ToLower(s[k]) else ToUpper(s[k])
  {
    TitleFromAt(s, false);
  }

  /** Case-insensitive equality over ASCII letters. */
  predicate EqualsIgnoringCase(a: string, b: string) {
    |a| == |b| && forall k | 0 <= k < |a| :: ToLower(a[k]) == ToLower(b[k])
  }

  /** A title-case word: an upper-case letter followed by lower-case letters. */
  predicate IsTitleWord(w: string) {
    |w| > 0 && IsUpper(w[0]) && forall k | 1 <= k < |w| :: IsLower(w[k])
  }

  /** `s.title()` spells a title-case word exactly when s is that word in any
      capitalisation. */
  lemma TitleMatchesIgnoringCase(s: string, w: string)
    requires IsTitleWord(w)
    ensures Title(s) == w <==> EqualsIgnoringCase(s, w)
  {
    TitleAt(s);
    var t := Title(s);
    if t == w {
      forall k | 0 <= k < |s| ensures IsCased(s[k]) && ToLower(s[k]) == ToLower(w[k]) {
        if k > 0 && IsCased(s[k - 1]) {
          assert t[k] == ToLower(s[k]);
        } else {
          assert t[k] == ToUpper(s[k]);
        }
      }
    }
    if EqualsIgnoringCase(s, w) {
      forall k | 0 <= k < |s| ensures IsCased(s[k]) {
        assert ToLower(s[k]) == ToLower(w[k]);
      }
      forall k | 0 <= k < |s| ensures t[k] == w[k] {
        assert ToLower(s[k]) == ToLower(w[k]);
        if k > 0 { assert IsCased(s[k - 1]); }
      }
    }
  }

  // ---------------------------------------------------------------------------
  // Decimal numerals and int()

  predicate IsDigit(c: char) { '0' <= c <= '9' }

  function DigitValue(c: char): nat
    requires IsDigit(c)
  {
    c as int - '0' as int
  }

  function DigitChar(d: nat): (c: char)
    requires d < 10
    ensures IsDigit(c) && DigitValue(c) == d
  {
    ('0' as int + d) as char
  }

  /** `str(n)` for a natural number. */
  function NatToString(n: nat): (s: string)
    ensures |s| > 0 && forall i | 0 <= i < |s| :: IsDigit(s[i])
  {
    if n < 10 then [DigitChar(n)] else NatToString(n / 10) + [DigitChar(n % 10)]
  }

  /** The value of a run of decimal digits, underscores skipped. */
  function DigitsValue(d: string): nat
    requires forall i | 0 <= i < |d| :: IsDigit(d[i]) || d[i] == '_'
  {
    if d == [] then 0
    else if d[|d| - 1] == '_' then DigitsValue(d[..|d| - 1])
    else 10 * DigitsValue(d[..|d| - 1]) + DigitValue(d[|d| - 1])
  }

  /** The body `int()` accepts after an optional sign: decimal digits, with
      single underscores allowed between two digits. */
  predicate IsDigitRun(d: string) {
    && |d| > 0
    && IsDigit(d[0]) && IsDigit(d[|d| - 1])
    && (forall i | 0 <= i < |d| :: IsDigit(d[i]) || d[i] == '_')
    && (forall i | 0 <= i < |d| - 1 :: d[i] == '_' ==> d[i + 1] != '_')
  }

  /** The whitespace `int()` skips around a numeral: the `isspace` characters
      except the separators U+001C..U+001F. CPython turns non-ASCII whitespace
      into spaces but leaves ASCII characters alone, and then skips only
      tab, line feed, vertical tab, form feed, carriage return and space. */
  predicate IsIntSpace(c: char) {
    IsSpace(c) && !('\U{1C}' <= c <= '\U{1F}')
  }

  /** Leading characters `int()` skips. */
  function IntStripStart(s: string): string {
    if |s| > 0 && IsIntSpace(s[0]) then IntStripStart(s[1..]) else s
  }

  /** Trailing characters `int()` skips. */
  function IntStripEnd(s: string): string {
    if |s| > 0 && IsIntSpace(s[|s| - 1]) then IntStripEnd(s[..|s| - 1]) else s
  }

  /** Python's `int(s)` for a string: surrounding whitespace, an optional sign,
      then a digit run; anything else raises `ValueError` (here `None`). */
  function ParseInt(s: string): (r: Option<int>)
  {
    var t := IntStripEnd(IntStripStart(s));
    if t != [] && (t[0] == '+' || t[0] == '-') then
      if IsDigitRun(t[1..]) then
        var v: int := DigitsValue(t[1..]);
        Some(if t[0] == '-' then -v else v)
      else None
    else if IsDigitRun(t) then Some(DigitsValue(t))
    else None
  }

  lemma {:induction false} NatToStringValue(n: nat)
    ensures DigitsValue(NatToString(n)) == n
  {
    var s := NatToString(n);
    if n >= 10 {
      NatToStringValue(n / 10);
      assert s[..|s| - 1] == NatToString(n / 10);
    }
  }

  /** `int(str(n)) == n`. */
  lemma ParseIntNatToString(n: nat)
    ensures ParseInt(NatToString(n)) == Some(n)
  {
    var s := NatToString(n);
    assert IntStripStart(s) == s;
    assert IntStripEnd(s) == s;
    NatToStringValue(n);
  }

  lemma {:induction false} IntStripStartPadding(w: string, d: string)
    requires forall i | 0 <= i < |w| :: IsIntSpace(w[i])
    requires d == [] || !IsIntSpace(d[0])
    ensures IntStripStart(w + d) == d
  {
    if w != [] {
      assert (w + d)[1..] == w[1..] + d;
      IntStripStartPadding(w[1..], d);
    }
  }

  lemma {:induction false} IntStripEndPadding(d: string, w: string)
    requires forall i | 0 <= i < |w| :: IsIntSpace(w[i])
    requires d == [] || !IsIntSpace(d[|d| - 1])
    ensures IntStripEnd(d + w) == d
  {
    if w != [] {
      assert (d + w)[..|d + w| - 1] == d + w[..|w| - 1];
      IntStripEndPadding(d, w[..|w| - 1]);
    } else {
      assert d + w == d;
    }
  }

  /** `int()` ignores the whitespace it skips on either side of `str(n)`. */
  lemma ParseIntPadded(before: string, n: nat, after: string)
    requires forall i | 0 <= i < |before| :: IsIntSpace(before[i])
    requires forall i | 0 <= i < |after| :: IsIntSpace(after[i])
    ensures ParseInt(before + NatToString(n) + after) == Some(n)
  {
    var d := NatToString(n);
    assert before + d + after == before + (d + after);
    IntStripStartPadding(before, d + after);
    IntStripEndPadding(d, after);
    NatToStringValue(n);
  }

  /** The separator U+001C is whitespace to `strip()` but not to `int()`, while
      the non-ASCII space U+0085 is skipped by both. */
  lemma ParseIntSeparator()
    ensures Strip("\U{1C}2024") == "2024"
    ensures ParseInt("\U{1C}2024") == None
    ensures ParseInt("\U{85}2024") == Some(2024)
  {
    assert "\U{1C}2024"[1..] == "2024";
    assert IntStripStart("\U{1C}2024") == "\U{1C}2024";
    assert IntStripEnd("\U{1C}2024") == "\U{1C}2024";
    assert NatToString(2024) == "2024";
    assert "\U{85}2024" == "\U{85}" + NatToString(2024) + "";
    ParseIntPadded("\U{85}", 2024, "");
  }
}
