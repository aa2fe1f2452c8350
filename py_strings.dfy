/**
 * The parts of Python's `str` that the core relies on: `strip`, `lower`,
 * `startswith`/`endswith`, `rfind`, `replace` (with `split`/`join` as its
 * reference) and `int(s, 10)`.
 */
module PyStrings {
  import opened Wrappers

  /** `c.isspace()`: exactly the characters that `str.strip()` removes. */
  predicate IsSpace(c: char) {
    || c == ' '
    || ('\U{9}' <= c <= '\U{D}')
    || ('\U{1C}' <= c <= '\U{1F}')
    || c == '\U{85}' || c == '\U{A0}' || c == '\U{1680}'
    || ('\U{2000}' <= c <= '\U{200A}')
    || c == '\U{2028}' || c == '\U{2029}' || c == '\U{202F}' || c == '\U{205F}' || c == '\U{3000}'
  }

  /** `s.lstrip(chars)`, with the characters to remove given as `drop`. */
  function TrimLeft(s: string, drop: char -> bool): string {
    if s != [] && drop(s[0]) then TrimLeft(s[1..], drop) else s
  }

  /** `lstrip` removes a prefix of dropped characters, and the longest one. */
  lemma {:induction false} TrimLeftShape(s: string, drop: char -> bool)
    ensures var r := TrimLeft(s, drop);
      && |r| <= |s| && r == s[|s| - |r|..]
      && (forall i :: 0 <= i < |s| - |r| ==> drop(s[i]))
      && (r == [] || !drop(r[0]))
  {
    if s != [] && drop(s[0]) {
      var t := s[1..];
      TrimLeftShape(t, drop);
      var r := TrimLeft(t, drop);
      assert TrimLeft(s, drop) == r;
      assert t[|t| - |r|..] == s[|s| - |r|..];
      forall i | 0 <= i < |s| - |r| ensures drop(s[i]) {
        if i > 0 {
          assert s[i] == t[i - 1];
        }
      }
    }
  }

  /** `s.rstrip(chars)`, with the characters to remove given as `drop`. */
  function TrimRight(s: string, drop: char -> bool): string {
    if s != [] && drop(s[|s| - 1]) then TrimRight(s[..|s| - 1], drop) else s
  }

  /** `rstrip` removes a suffix of dropped characters, and the longest one. */
  lemma {:induction false} TrimRightShape(s: string, drop: char -> bool)
    ensures var r := TrimRight(s, drop);
      && |r| <= |s| && r == s[..|r|]
      && (forall i :: |r| <= i < |s| ==> drop(s[i]))
      && (r == [] || !drop(r[|r| - 1]))
  {
    if s != [] && drop(s[|s| - 1]) {
      var t := s[..|s| - 1];
      TrimRightShape(t, drop);
      var r := TrimRight(t, drop);
      assert TrimRight(s, drop) == r;
      assert t[..|r|] == s[..|r|];
      forall i | |r| <= i < |s| ensures drop(s[i]) {
        if i < |t| {
          assert s[i] == t[i];
        }
      }
    }
  }

  function StripBy(s: string, drop: char -> bool): string {
    TrimLeft(TrimRight(s, drop), drop)
  }

  /** Stripping leaves nothing exactly when every character is one that is stripped. */
  lemma StripByEmpty(s: string, drop: char -> bool)
    ensures StripBy(s, drop) == [] <==> forall i :: 0 <= i < |s| ==> drop(s[i])
  {
    TrimRightShape(s, drop);
    TrimLeftShape(TrimRight(s, drop), drop);
  }

  /** `lstrip` leaves a string alone when its first character is not stripped. */
  lemma TrimLeftKeeps(s: string, drop: char -> bool)
    requires s != [] && !drop(s[0])
    ensures TrimLeft(s, drop) == s
  {
  }

  /** `rstrip` leaves a string alone when its last character is not stripped. */
  lemma TrimRightKeeps(s: string, drop: char -> bool)
    requires s != [] && !drop(s[|s| - 1])
    ensures TrimRight(s, drop) == s
  {
  }

  /** `s.strip()`. */
  function Strip(s: string): string {
    StripBy(s, IsSpace)
  }

  /** `s.strip(c)` for a single character `c`. */
  function StripChar(s: string, c: char): string {
    StripBy(s, x => x == c)
  }

  /** `str.lower()` on ASCII letters; every other character is left as it is. */
  function LowerChar(c: char): char {
    if 'A' <= c <= 'Z' then (c as int + 32) as char else c
  }

  function Lower(s: string): (r: string)
    ensures |r| == |s|
  {
    seq(|s|, i requires 0 <= i < |s| => LowerChar(s[i]))
  }

  lemma LowerIdempotent(s: string)
    ensures Lower(Lower(s)) == Lower(s)
  {
  }

  /** Lower-casing leaves white space alone, so it commutes with stripping. */
  lemma {:induction false} StripLower(s: string)
    ensures Strip(Lower(s)) == Lower(Strip(s))
  {
    TrimRightLower(s);
    TrimLeftLower(TrimRight(s, IsSpace));
  }

  lemma {:induction false} TrimRightLower(s: string)
    ensures TrimRight(Lower(s), IsSpace) == Lower(TrimRight(s, IsSpace))
    decreases |s|
  {
    if s != [] {
      assert Lower(s)[..|s| - 1] == Lower(s[..|s| - 1]);
      assert IsSpace(Lower(s)[|s| - 1]) == IsSpace(s[|s| - 1]);
      if IsSpace(s[|s| - 1]) {
        TrimRightLower(s[..|s| - 1]);
      }
    }
  }

  lemma {:induction false} TrimLeftLower(s: string)
    ensures TrimLeft(Lower(s), IsSpace) == Lower(TrimLeft(s, IsSpace))
    decreases |s|
  {
    if s != [] {
      assert Lower(s)[1..] == Lower(s[1..]);
      assert IsSpace(Lower(s)[0]) == IsSpace(s[0]);
      if IsSpace(s[0]) {
        TrimLeftLower(s[1..]);
      }
    }
  }

  lemma {:induction false} StripIdempotent(s: string)
    ensures Strip(Strip(s)) == Strip(s)
  {
    var u := TrimRight(s, IsSpace);
    var t := Strip(s);
    TrimRightShape(s, IsSpace);
    TrimLeftShape(u, IsSpace);
    if t != [] {
      assert t[|t| - 1] == u[|u| - 1];
      TrimRightKeeps(t, IsSpace);
      TrimLeftKeeps(t, IsSpace);
    }
  }

  /** `strip` leaves a string alone that neither starts nor ends with white space. */
  lemma StripKeeps(s: string)
    requires s != [] && !IsSpace(s[0]) && !IsSpace(s[|s| - 1])
    ensures Strip(s) == s
  {
    TrimRightKeeps(s, IsSpace);
    TrimLeftKeeps(s, IsSpace);
  }

  /** `rstrip` removes trailing dropped characters whatever precedes them. */
  lemma {:induction false} TrimRightPadding(x: string, pad: string, drop: char -> bool)
    requires forall i :: 0 <= i < |pad| ==> drop(pad[i])
    ensures TrimRight(x + pad, drop) == TrimRight(x, drop)
    decreases |pad|
  {
    if pad != [] {
      var p := pad[..|pad| - 1];
      assert (x + pad)[..|x + pad| - 1] == x + p;
      TrimRightPadding(x, p, drop);
    } else {
      assert x + pad == x;
    }
  }

  /** `lstrip` removes leading dropped characters whatever follows them. */
  lemma {:induction false} TrimLeftPadding(pad: string, x: string, drop: char -> bool)
    requires forall i :: 0 <= i < |pad| ==> drop(pad[i])
    ensures TrimLeft(pad + x, drop) == TrimLeft(x, drop)
    decreases |pad|
  {
    if pad != [] {
      assert (pad + x)[1..] == pad[1..] + x;
      TrimLeftPadding(pad[1..], x, drop);
    } else {
      assert pad + x == x;
    }
  }

  /** Stripping removes white-space padding around a string that does not start or end with white space. */
  lemma StripPadded(left: string, mid: string, right: string)
    requires mid != [] && !IsSpace(mid[0]) && !IsSpace(mid[|mid| - 1])
    requires forall i :: 0 <= i < |left| ==> IsSpace(left[i])
    requires forall i :: 0 <= i < |right| ==> IsSpace(right[i])
    ensures Strip(left + mid + right) == mid
  {
    TrimRightPadding(left + mid, right, IsSpace);
    assert (left + mid)[|left + mid| - 1] == mid[|mid| - 1];
    TrimRightKeeps(left + mid, IsSpace);
    TrimLeftPadding(left, mid, IsSpace);
    TrimLeftKeeps(mid, IsSpace);
  }

  predicate StartsWith(s: string, prefix: string) {
    |prefix| <= |s| && s[..|prefix|] == prefix
  }

  predicate EndsWith(s: string, suffix: string) {
    |suffix| <= |s| && s[|s| - |suffix|..] == suffix
  }

  /** `s.rfind(c)`: the last index holding `c`, or -1. */
  function RFind(s: string, c: char): (i: int)
    ensures -1 <= i < |s|
    ensures i >= 0 ==> s[i] == c
    ensures forall j :: i < j < |s| ==> s[j] != c
  {
    if s == [] then -1
    else if s[|s| - 1] == c then |s| - 1
    else RFind(s[..|s| - 1], c)
  }

  // ---- str.replace, str.split, str.join ----

  /** `s.replace(old, new)`: a left-to-right scan replacing non-overlapping occurrences. */
  function Replace(s: string, pattern: string, repl: string): string
    decreases |s|
  {
    if pattern == [] then ReplaceEmpty(s, repl)
    else if |s| < |pattern| then s
    else if s[..|pattern|] == pattern then repl + Replace(s[|pattern|..], pattern, repl)
    else [s[0]] + Replace(s[1..], pattern, repl)
  }

  /** `s.replace("", new)`: `new` before every character and at the end. */
  function ReplaceEmpty(s: string, repl: string): (r: string)
    ensures |r| == |s| + (|s| + 1) * |repl|
  {
    if s == [] then repl else repl + [s[0]] + ReplaceEmpty(s[1..], repl)
  }

  /** `s.split(sep)` for a non-empty separator. */
  function Split(s: string, sep: string): (parts: seq<string>)
    requires sep != []
    ensures |parts| > 0
    decreases |s|
  {
    if |s| < |sep| then [s]
    else if s[..|sep|] == sep then [[]] + Split(s[|sep|..], sep)
    else var p := Split(s[1..], sep); [[s[0]] + p[0]] + p[1..]
  }

  /** `sep.join(parts)`. */
  function Join(sep: string, parts: seq<string>): string
    requires |parts| > 0
  {
    if |parts| == 1 then parts[0] else parts[0] + sep + Join(sep, parts[1..])
  }

  lemma JoinCons(sep: string, c: char, parts: seq<string>)
    requires |parts| > 0
    ensures Join(sep, [[c] + parts[0]] + parts[1..]) == [c] + Join(sep, parts)
  {
    var ps := [[c] + parts[0]] + parts[1..];
    if |parts| > 1 {
      assert ps[1..] == parts[1..];
    }
  }

  /** Splitting at `sep` and joining with `sep` gives back the string. */
  lemma {:induction false} JoinSplit(s: string, sep: string)
    requires sep != []
    ensures Join(sep, Split(s, sep)) == s
    decreases |s|
  {
    if |s| < |sep| {
    } else if s[..|sep|] == sep {
      var rest := Split(s[|sep|..], sep);
      JoinSplit(s[|sep|..], sep);
      assert ([[]] + rest)[1..] == rest;
      assert Join(sep, [[]] + rest) == sep + Join(sep, rest);
      assert s == sep + s[|sep|..];
    } else {
      JoinSplit(s[1..], sep);
      JoinCons(sep, s[0], Split(s[1..], sep));
      assert s == [s[0]] + s[1..];
    }
  }

  /** `s.replace(old, new) == new.join(s.split(old))`: every piece between occurrences is kept and every occurrence becomes `new`. */
  lemma {:induction false} ReplaceIsJoinOfSplit(s: string, pattern: string, repl: string)
    requires pattern != []
    ensures Replace(s, pattern, repl) == Join(repl, Split(s, pattern))
    decreases |s|
  {
    if |s| < |pattern| {
    } else if s[..|pattern|] == pattern {
      var rest := Split(s[|pattern|..], pattern);
      ReplaceIsJoinOfSplit(s[|pattern|..], pattern, repl);
      assert ([[]] + rest)[1..] == rest;
      assert Join(repl, [[]] + rest) == repl + Join(repl, rest);
    } else {
      var p := Split(s[1..], pattern);
      assert Split(s, pattern) == [[s[0]] + p[0]] + p[1..];
      ReplaceIsJoinOfSplit(s[1..], pattern, repl);
      JoinCons(repl, s[0], p);
    }
  }

  /** `pattern` occurs in `s` at index `i`. */
  predicate OccursAt(s: string, pattern: string, i: int) {
    0 <= i && i + |pattern| <= |s| && s[i..i + |pattern|] == pattern
  }

  /** A pattern that does not occur leaves the string unchanged. */
  lemma {:induction false} ReplaceAbsent(s: string, pattern: string, repl: string)
    requires pattern != []
    requires forall i :: !OccursAt(s, pattern, i)
    ensures Replace(s, pattern, repl) == s
    decreases |s|
  {
    if |s| >= |pattern| {
      assert !OccursAt(s, pattern, 0);
      forall i ensures !OccursAt(s[1..], pattern, i) {
        if OccursAt(s[1..], pattern, i) {
          assert s[1..][i..i + |pattern|] == s[i + 1..i + 1 + |pattern|];
          assert OccursAt(s, pattern, i + 1);
        }
      }
      ReplaceAbsent(s[1..], pattern, repl);
      assert s == [s[0]] + s[1..];
    }
  }

  // ---- int(s, 10) ----

  predicate IsDigit(c: char) {
    '0' <= c <= '9'
  }

  function DigitValue(c: char): nat
    requires IsDigit(c)
  {
    c as int - '0' as int
  }

  /** What `int()` accepts after the sign: ASCII digits, single underscores only between two digits. */
  predicate DigitGroups(s: string) {
    && |s| > 0 && IsDigit(s[0]) && IsDigit(s[|s| - 1])
    && forall i :: 0 <= i < |s| ==>
         IsDigit(s[i]) || (s[i] == '_' && 0 < i < |s| - 1 && IsDigit(s[i - 1]) && IsDigit(s[i + 1]))
  }

  /** The value of the digits in `s`, underscores skipped. */
  function DigitsValue(s: string): nat {
    if s == [] then 0
    else if IsDigit(s[|s| - 1]) then DigitsValue(s[..|s| - 1]) * 10 + DigitValue(s[|s| - 1])
    else DigitsValue(s[..|s| - 1])
  }

  /**
   * The white space `int()` skips around its digits: what `str.isspace()`
   * accepts except U+001C to U+001F, which `int()` keeps as they are.
   */
  predicate IsIntSpace(c: char) {
    IsSpace(c) && !('\U{1C}' <= c <= '\U{1F}')
  }

  /** `int(s, 10)`, with `None` where Python raises `ValueError` (ASCII digits only). */
  function ParseInt(s: string): Option<int> {
    var t := StripBy(s, IsIntSpace);
    if |t| > 0 && (t[0] == '+' || t[0] == '-') then
      if DigitGroups(t[1..]) then
        Some(if t[0] == '-' then -(DigitsValue(t[1..]) as int) else DigitsValue(t[1..]))
      else None
    else if DigitGroups(t) then Some(DigitsValue(t))
    else None
  }

  /** `str(n)` for a natural number. */
  function FormatNat(n: nat): (r: string)
    ensures |r| > 0 && forall i :: 0 <= i < |r| ==> IsDigit(r[i])
  {
    if n < 10 then [('0' as int + n) as char]
    else FormatNat(n / 10) + [('0' as int + n % 10) as char]
  }

  lemma {:induction false} FormatNatValue(n: nat)
    ensures DigitsValue(FormatNat(n)) == n
  {
    var r := FormatNat(n);
    if n >= 10 {
      FormatNatValue(n / 10);
      assert r[..|r| - 1] == FormatNat(n / 10);
    }
  }

  /** `int(str(n)) == n`. */
  lemma ParseFormatNat(n: nat)
    ensures ParseInt(FormatNat(n)) == Some(n)
  {
    var r := FormatNat(n);
    assert StripBy(r, IsIntSpace) == r by {
      assert !IsIntSpace(r[0]) && !IsIntSpace(r[|r| - 1]);
      assert TrimRight(r, IsIntSpace) == r;
    }
    FormatNatValue(n);
  }
}
