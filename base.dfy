/**
 * Small value types and string helpers shared by the rest of the model:
 * Java's nullable references as `Option`, a thrown `ServiceException` as
 * `Outcome.Err`, decimal rendering of numbers, the handful of Java and
 * JavaScript string primitives the core calls (trim, isBlank, hasText,
 * toLowerCase, lastIndexOf, a character-class `replaceAll`).
 */
module Base {

  /** A Java reference that may be null, or a JavaScript value that may be undefined. */
  datatype Option<+T> = None | Some(value: T)

  /** The result of a call that either returns a value or throws a `ServiceException(message)`. */
  datatype Outcome<+T> = Ok(value: T) | Err(message: string)

  /** An octet, as delivered by `InputStream.read()` (0..255). */
  newtype byte = x: int | 0 <= x < 256

  // ---------------------------------------------------------------- digits

  predicate IsDigit(c: char) { '0' <= c <= '9' }

  function DigitChar(d: nat): (c: char)
    requires d < 10
    ensures IsDigit(c)
  {
    ('0' as int + d) as char
  }

  function DigitValue(c: char): (d: nat)
    requires IsDigit(c)
    ensures d < 10
  {
    (c as int - '0' as int) as nat
  }

  lemma DigitRoundTrip(d: nat)
    requires d < 10
    ensures DigitValue(DigitChar(d)) == d
  {
  }

  predicate AllDigits(s: string) { forall i :: 0 <= i < |s| ==> IsDigit(s[i]) }

  /** Decimal rendering without leading zeros, as `Long.toString` / `String.valueOf` for n >= 0. */
  function NatToString(n: nat): (s: string)
    ensures |s| > 0 && AllDigits(s)
    ensures n < 10 <==> |s| == 1
    decreases n
  {
    if n < 10 then [DigitChar(n)] else NatToString(n / 10) + [DigitChar(n % 10)]
  }

  /** The value of a string of decimal digits (leading zeros allowed). */
  function DigitsValue(s: string): nat
    requires AllDigits(s)
  {
    if s == [] then 0 else 10 * DigitsValue(s[..|s| - 1]) + DigitValue(s[|s| - 1])
  }

  /** Reads a non-empty string of decimal digits back as a number. */
  function ParseNat(s: string): (r: Option<nat>)
    ensures r.Some? <==> |s| > 0 && AllDigits(s)
  {
    if |s| > 0 && AllDigits(s) then Some(DigitsValue(s)) else None
  }

  lemma {:induction false} NatToStringValue(n: nat)
    ensures DigitsValue(NatToString(n)) == n
    decreases n
  {
    var s := NatToString(n);
    if n < 10 {
      DigitRoundTrip(n);
      assert s[..|s| - 1] == [];
    } else {
      NatToStringValue(n / 10);
      DigitRoundTrip(n % 10);
      assert s[..|s| - 1] == NatToString(n / 10);
    }
  }

  /** Decimal rendering is undone by parsing. */
  lemma NatToStringRoundTrip(n: nat)
    ensures ParseNat(NatToString(n)) == Some(n)
  {
    NatToStringValue(n);
  }

  /** Decimal rendering is injective: distinct numbers never print alike. */
  lemma NatToStringInjective(m: nat, n: nat)
    requires NatToString(m) == NatToString(n)
    ensures m == n
  {
    NatToStringValue(m);
    NatToStringValue(n);
  }

  /** Decimal rendering of a possibly negative integer, as Java's `String.valueOf(long)` and JavaScript's `toString()`. */
  function IntToString(i: int): (s: string)
    ensures |s| > 0
    ensures i >= 0 ==> s == NatToString(i)
    ensures i < 0 ==> s == "-" + NatToString(-i)
  {
    if i >= 0 then NatToString(i) else "-" + NatToString(-i)
  }

  /** Reads an optionally signed decimal text back, as `Long.parseLong` does (no '+' sign). */
  function ParseInt(s: string): Option<int>
  {
    if s != [] && s[0] == '-' then
      (var n := ParseNat(s[1..]); if n.Some? then Some(-(n.value as int)) else None)
    else
      (var n := ParseNat(s); if n.Some? then Some(n.value) else None)
  }

  /** Signed decimal rendering is undone by parsing, so distinct integers never print alike. */
  lemma IntToStringRoundTrip(i: int, j: int)
    ensures ParseInt(IntToString(i)) == Some(i)
    ensures IntToString(i) == IntToString(j) ==> i == j
    ensures IntToString(i)[0] == '-' <==> i < 0
  {
    var s := IntToString(i);
    if i >= 0 {
      NatToStringRoundTrip(i);
      assert IsDigit(s[0]);
    } else {
      NatToStringRoundTrip(-i);
      assert s[1..] == NatToString(-i);
    }
    if IntToString(i) == IntToString(j) {
      if j >= 0 {
        NatToStringRoundTrip(j);
        assert IsDigit(IntToString(j)[0]);
      } else {
        NatToStringRoundTrip(-j);
        assert IntToString(j)[1..] == NatToString(-j);
      }
    }
  }

  // ---------------------------------------------------------------- characters

  /**
   * `Character.isWhitespace`: the Unicode space, line and paragraph separators
   * other than the no-break spaces U+00A0, U+2007 and U+202F, together with
   * U+0009..U+000D and U+001C..U+001F.
   */
  predicate IsJavaWhitespace(c: char)
  {
    c == ' ' || ('\t' <= c <= '\r') || ('\U{1C}' <= c <= '\U{1F}')
    || c == '\U{1680}' || ('\U{2000}' <= c <= '\U{2006}') || ('\U{2008}' <= c <= '\U{200A}')
    || c == '\U{2028}' || c == '\U{2029}' || c == '\U{205F}' || c == '\U{3000}'
  }

  /** `String.trim` drops leading and trailing characters whose code is at most U+0020. */
  predicate IsTrimmed(c: char) { c <= ' ' }

  function TrimStart(s: string): (r: string)
    ensures |r| <= |s| && r == s[|s| - |r|..]
    ensures r != [] ==> !IsTrimmed(r[0])
    ensures forall i :: 0 <= i < |s| - |r| ==> IsTrimmed(s[i])
  {
    if s != [] && IsTrimmed(s[0]) then TrimStart(s[1..]) else s
  }

  function TrimEnd(s: string): (r: string)
    ensures |r| <= |s| && r == s[..|r|]
    ensures r != [] ==> !IsTrimmed(r[|r| - 1])
    ensures forall i :: |r| <= i < |s| ==> IsTrimmed(s[i])
  {
    if s != [] && IsTrimmed(s[|s| - 1]) then TrimEnd(s[..|s| - 1]) else s
  }

  /**
   * Java's `String.trim()`: the longest infix of `s` that neither starts nor
   * ends with a character at most U+0020, everything cut off being such a
   * character.
   */
  function Trim(s: string): (r: string)
    ensures r == [] || (!IsTrimmed(r[0]) && !IsTrimmed(r[|r| - 1]))
    ensures exists k :: TrimCut(s, r, k)
    ensures forall c :: c in r ==> c in s
  {
    var t := TrimStart(s);
    var r := TrimEnd(t);
    TrimBothCut(s, t, r);
    r
  }

  /** Cutting a suffix-trimmed `t` of `s` down to a prefix `r` leaves an infix with trimmed ends cut off. */
  lemma TrimBothCut(s: string, t: string, r: string)
    requires |t| <= |s| && t == s[|s| - |t|..] && forall i :: 0 <= i < |s| - |t| ==> IsTrimmed(s[i])
    requires |r| <= |t| && r == t[..|r|] && forall i :: |r| <= i < |t| ==> IsTrimmed(t[i])
    ensures TrimCut(s, r, |s| - |t|)
    ensures forall c :: c in r ==> c in s
  {
    var k := |s| - |t|;
    InfixOf(s, r, k);
    forall i | k + |r| <= i < |s| ensures IsTrimmed(s[i]) {
      assert s[i] == t[i - k];
    }
  }

  lemma InfixOf(s: string, r: string, k: int)
    requires 0 <= k <= |s|
    requires |r| <= |s| - k && r == s[k..][..|r|]
    ensures r == s[k..k + |r|]
    ensures forall c :: c in r ==> c in s
  {
    forall c | c in r ensures c in s {
      var j :| 0 <= j < |r| && r[j] == c;
      assert s[k + j] == c;
    }
  }

  /** `r` is `s[k..k + |r|]`, and every character cut off on either side is at most U+0020. */
  predicate TrimCut(s: string, r: string, k: int)
  {
    0 <= k && k + |r| <= |s| && r == s[k..k + |r|]
    && (forall i :: 0 <= i < k ==> IsTrimmed(s[i]))
    && (forall i :: k + |r| <= i < |s| ==> IsTrimmed(s[i]))
  }

  /** Commons-lang `StringUtils.isBlank`: null, empty, or whitespace only. */
  predicate IsBlank(s: Option<string>)
  {
    s.None? || forall i :: 0 <= i < |s.value| ==> IsJavaWhitespace(s.value[i])
  }

  /** Spring's `StringUtils.hasText`: non-null with at least one non-whitespace character. */
  predicate HasText(s: Option<string>)
  {
    s.Some? && exists i :: 0 <= i < |s.value| && !IsJavaWhitespace(s.value[i])
  }

  /** `toLowerCase` on the ASCII letters; every other character is kept. */
  function LowerChar(c: char): char
  {
    if 'A' <= c <= 'Z' then (c as int + 32) as char else c
  }

  function Lower(s: string): (r: string)
    ensures |r| == |s|
    ensures forall i :: 0 <= i < |s| ==> r[i] == LowerChar(s[i])
  {
    if s == [] then [] else [LowerChar(s[0])] + Lower(s[1..])
  }

  /** A character-class `replaceAll(..., "")`: deletes every character of `bad`. */
  function RemoveChars(s: string, bad: set<char>): (r: string)
    ensures forall c :: c in r <==> c in s && c !in bad
    ensures |r| <= |s|
  {
    if s == [] then [] else (if s[0] in bad then [] else [s[0]]) + RemoveChars(s[1..], bad)
  }

  /** Deletion works piece by piece: the kept characters stay in order and keep their repeats. */
  lemma {:induction false} RemoveCharsAppend(a: string, b: string, bad: set<char>)
    ensures RemoveChars(a + b, bad) == RemoveChars(a, bad) + RemoveChars(b, bad)
  {
    if a == [] {
      assert a + b == b;
    } else {
      var head: string := if a[0] in bad then [] else [a[0]];
      assert (a + b)[0] == a[0] && (a + b)[1..] == a[1..] + b;
      RemoveCharsAppend(a[1..], b, bad);
      ConcatAssoc(head, RemoveChars(a[1..], bad), RemoveChars(b, bad),
        RemoveChars(a + b, bad), RemoveChars(a, bad));
    }
  }

  lemma ConcatAssoc(h: string, x: string, y: string, whole: string, left: string)
    requires whole == h + (x + y) && left == h + x
    ensures whole == left + y
  {
  }

  /** Removing characters none of which occur changes nothing. */
  lemma {:induction false} RemoveCharsKeeps(s: string, bad: set<char>)
    ensures (forall c :: c in s ==> c !in bad) ==> RemoveChars(s, bad) == s
  {
    if s != [] {
      RemoveCharsKeeps(s[1..], bad);
      if forall c :: c in s ==> c !in bad {
        assert forall c :: c in s[1..] ==> c in s;
        assert s == [s[0]] + s[1..];
      }
    }
  }

  /** Index of the last occurrence of `c`, or -1 (Java `lastIndexOf`). */
  function LastIndexOf(s: string, c: char): (i: int)
    ensures -1 <= i < |s|
    ensures i >= 0 ==> s[i] == c
    ensures forall j :: i < j < |s| ==> s[j] != c
  {
    if s == [] then -1
    else if s[|s| - 1] == c then |s| - 1
    else LastIndexOf(s[..|s| - 1], c)
  }

  /** The last occurrence is the one with no later occurrence. */
  lemma LastIndexOfAt(s: string, c: char, j: int)
    requires 0 <= j < |s| && s[j] == c
    requires forall k :: j < k < |s| ==> s[k] != c
    ensures LastIndexOf(s, c) == j
  {
  }

  /** Digit strings contain no separator. */
  lemma DigitsHaveNo(s: string, c: char)
    requires AllDigits(s) && !IsDigit(c)
    ensures c !in s
  {
  }

  // ---------------------------------------------------------------- clock texts

  /** A non-negative number padded with zeros to at least two digits (`%02d`, `padStart(2, '0')`). */
  function Pad2(n: nat): (s: string)
    ensures |s| >= 2 && AllDigits(s)
  {
    if n < 10 then "0" + NatToString(n) else NatToString(n)
  }

  lemma Pad2Value(n: nat)
    ensures DigitsValue(Pad2(n)) == n
  {
    NatToStringValue(n);
    if n < 10 {
      var s := Pad2(n);
      assert s[..|s| - 1] == "0";
      assert DigitsValue("0") == 0 by {
        assert "0"[..0] == [];
      }
    }
  }

  /** Reads an `m:ss` clock text back as a number of seconds (`ss` below 60). */
  function ParseClock(t: string): Option<nat>
  {
    var k := LastIndexOf(t, ':');
    if k < 0 then None
    else
      ClockOf(ParseNat(t[..k]), ParseNat(t[k + 1..]))
  }

  function ClockOf(m: Option<nat>, sec: Option<nat>): Option<nat>
  {
    if m.Some? && sec.Some? && sec.value < 60 then Some(m.value * 60 + sec.value) else None
  }

  /** A clock built from a digit string of value `m` and the padded seconds reads back as `60 * m + sec`. */
  lemma ClockRoundTrip(minutes: string, m: nat, sec: nat)
    requires ParseNat(minutes) == Some(m)
    requires sec < 60
    ensures ParseClock(minutes + ":" + Pad2(sec)) == Some(m * 60 + sec)
  {
    Pad2Value(sec);
    DigitsHaveNo(Pad2(sec), ':');
    ClockSplit(minutes, Pad2(sec));
  }

  /** Splitting at the last `c` of `a + [c] + b`, when `b` holds no `c`, gives back `a` and `b`. */
  lemma SplitAtLast(a: string, c: char, b: string)
    requires c !in b
    ensures var t := a + [c] + b;
      LastIndexOf(t, c) == |a| && t[..|a|] == a && t[|a| + 1..] == b
  {
    var t := a + [c] + b;
    assert t[|a| + 1..] == b;
    assert t[..|a|] == a;
    assert forall k :: |a| < k < |t| ==> t[k] == b[k - |a| - 1];
    LastIndexOfAt(t, c, |a|);
  }

  lemma ClockSplit(a: string, b: string)
    requires ':' !in b
    ensures ParseClock(a + ":" + b) == ClockOf(ParseNat(a), ParseNat(b))
  {
    SplitAtLast(a, ':', b);
  }

  /** `t` occurs in `s` as a contiguous substring. */
  predicate ContainsSubstring(s: string, t: string)
  {
    t <= s || (s != [] && ContainsSubstring(s[1..], t))
  }

  // ---------------------------------------------------------------- SQL LIKE

  /**
   * MySQL's `s LIKE p` with its default escape character, the backslash, under
   * a binary collation: '%' matches any run of characters, '_' exactly one, a
   * backslash followed by a character matches that character, a trailing
   * backslash matches itself, and every other character matches itself.
   */
  predicate LikeMatch(p: string, s: string)
    decreases |p| + |s|
  {
    if p == [] then s == []
    else if p[0] == '%' then LikeMatch(p[1..], s) || (s != [] && LikeMatch(p, s[1..]))
    else if p[0] == '_' then s != [] && LikeMatch(p[1..], s[1..])
    else if p[0] == '\\' && |p| >= 2 then s != [] && s[0] == p[1] && LikeMatch(p[2..], s[1..])
    else s != [] && s[0] == p[0] && LikeMatch(p[1..], s[1..])
  }

  /** The characters that are special in a LIKE pattern. */
  predicate NoLikeWildcards(t: string)
  {
    '%' !in t && '_' !in t && '\\' !in t
  }

  /** `%` alone matches every string. */
  lemma {:induction false} LikeAnyRun(s: string)
    ensures LikeMatch("%", s)
    decreases |s|
  {
    if s != [] {
      LikeAnyRun(s[1..]);
    }
  }

  /** A pattern `t%` whose `t` holds no special character matches exactly the strings starting with `t`. */
  lemma {:induction false} LikeLiteralPrefix(t: string, s: string)
    requires NoLikeWildcards(t)
    ensures LikeMatch(t + "%", s) <==> t <= s
    decreases |t|
  {
    if t == [] {
      assert t + "%" == "%";
      LikeAnyRun(s);
    } else {
      var p := t + "%";
      assert p[0] == t[0] && p[1..] == t[1..] + "%";
      assert t[0] in t;
      assert forall c :: c in t[1..] ==> c in t;
      if s != [] {
        LikeLiteralPrefix(t[1..], s[1..]);
        assert t <= s <==> t[0] == s[0] && t[1..] <= s[1..];
      }
    }
  }

  /**
   * The `LIKE '%t%'` filter that MyBatis-Plus `like(column, t)` sends: when `t`
   * holds no special character it is a substring test.
   */
  lemma {:induction false} LikeContains(t: string, s: string)
    requires NoLikeWildcards(t)
    ensures LikeMatch("%" + t + "%", s) <==> ContainsSubstring(s, t)
    decreases |s|
  {
    var p := "%" + t + "%";
    assert p[0] == '%' && p[1..] == t + "%";
    LikeLiteralPrefix(t, s);
    if s != [] {
      LikeContains(t, s[1..]);
    }
  }

  /** The filter is not escaped: a title filter `_` selects any non-empty title, though no title need contain '_'. */
  lemma LikeWildcardTitle()
    ensures LikeMatch("%" + "_" + "%", "ab") && !ContainsSubstring("ab", "_")
  {
    var p := "%" + "_" + "%";
    assert p == "%_%";
    assert p[1..] == "_%";
    assert "_%"[1..] == "%";
    LikeAnyRun("b");
    assert "ab"[1..] == "b";
    assert "b"[1..] == "";
    assert !ContainsSubstring("", "_");
    assert "b"[0] != '_';
    assert !ContainsSubstring("b", "_");
  }

  /** Java string concatenation, or a JavaScript template literal, of a possibly null string: null prints as "null". */
  function JavaStr(s: Option<string>): string
  {
    if s.Some? then s.value else "null"
  }
}
