/** Character and string primitives of Python's `str` that the catalogue's
    code relies on, restricted to what its inputs exercise: ASCII case
    mapping (`lower`, `upper`, `capitalize`), `strip`, `endswith`, substring
    tests and `int()` on decimal text. */
module Ascii {
  import opened Wrappers

  predicate IsUpper(c: char) { 'A' <= c <= 'Z' }
  predicate IsLower(c: char) { 'a' <= c <= 'z' }
  predicate IsDigit(c: char) { '0' <= c <= '9' }

  /** The character class `[a-zA-Z0-9]` of the filename regular expression. */
  predicate IsAlnum(c: char) { IsUpper(c) || IsLower(c) || IsDigit(c) }

  /** Python's `str.isspace`: the characters `str.strip()` removes. */
  predicate IsSpace(c: char) {
    c == ' ' || '\t' <= c <= '\r' || '\U{1C}' <= c <= '\U{1F}' ||
    c == '\U{85}' || c == '\U{A0}' || c == '\U{1680}' || '\U{2000}' <= c <= '\U{200A}' ||
    c == '\U{2028}' || c == '\U{2029}' || c == '\U{202F}' || c == '\U{205F}' || c == '\U{3000}'
  }

  function Lower(c: char): (r: char)
    ensures IsAlnum(r) == IsAlnum(c) && !IsUpper(r)
    ensures IsUpper(c) ==> IsLower(r)
  {
    if IsUpper(c) then (c as int + 32) as char else c
  }

  function Upper(c: char): (r: char)
    ensures IsAlnum(r) == IsAlnum(c) && !IsLower(r)
    ensures Lower(r) == Lower(c)
  {
    if IsLower(c) then (c as int - 32) as char else c
  }

  /** `str.lower()` on ASCII text. */
  function LowerStr(s: string): (r: string)
    ensures |r| == |s|
    ensures forall i :: 0 <= i < |s| ==> r[i] == Lower(s[i])
  {
    seq(|s|, i requires 0 <= i < |s| => Lower(s[i]))
  }

  predicate AllAlnum(s: string) { forall i :: 0 <= i < |s| ==> IsAlnum(s[i]) }

  predicate HasAlnum(s: string) { exists i :: 0 <= i < |s| && IsAlnum(s[i]) }

  /** The alphanumeric characters of `s`, in order. */
  function Alnums(s: string): (r: string)
    ensures AllAlnum(r)
    ensures |r| <= |s|
  {
    if s == [] then []
    else if IsAlnum(s[0]) then [s[0]] + Alnums(s[1..])
    else Alnums(s[1..])
  }

  lemma {:induction false} AlnumsEmpty(s: string)
    ensures Alnums(s) == [] <==> !HasAlnum(s)
  {
    if s != [] {
      AlnumsEmpty(s[1..]);
      if !IsAlnum(s[0]) && HasAlnum(s) {
        var i :| 0 <= i < |s| && IsAlnum(s[i]);
        assert s[1..][i - 1] == s[i];
      }
    }
  }

  function TrimStart(s: string): (r: string)
    ensures |r| <= |s|
    ensures r == [] || !IsSpace(r[0])
  {
    if s != [] && IsSpace(s[0]) then TrimStart(s[1..]) else s
  }

  function TrimEnd(s: string): (r: string)
    ensures |r| <= |s|
    ensures r == [] || !IsSpace(r[|r| - 1])
  {
    if s != [] && IsSpace(s[|s| - 1]) then TrimEnd(s[..|s| - 1]) else s
  }

  /** `lstrip` removes a prefix: what remains is a suffix of the input. */
  lemma {:induction false} TrimStartIsSuffix(s: string)
    ensures TrimStart(s) == s[|s| - |TrimStart(s)|..]
    decreases |s|
  {
    if s != [] && IsSpace(s[0]) {
      TrimStartIsSuffix(s[1..]);
    }
  }

  /** `rstrip` removes a suffix: what remains is a prefix of the input. */
  lemma {:induction false} TrimEndIsPrefix(s: string)
    ensures TrimEnd(s) == s[..|TrimEnd(s)|]
    decreases |s|
  {
    if s != [] && IsSpace(s[|s| - 1]) {
      TrimEndIsPrefix(s[..|s| - 1]);
    }
  }

  /** `str.strip()` with no argument. */
  function Strip(s: string): string {
    TrimEnd(TrimStart(s))
  }

  predicate StartsWith(s: string, prefix: string) {
    |prefix| <= |s| && s[..|prefix|] == prefix
  }

  predicate EndsWith(s: string, suffix: string) {
    |suffix| <= |s| && s[|s| - |suffix|..] == suffix
  }

  /** `needle in haystack` for Python strings. */
  predicate IsSubstring(needle: string, haystack: string)
    decreases |haystack|
  {
    StartsWith(haystack, needle) || (haystack != [] && IsSubstring(needle, haystack[1..]))
  }

  /** The needle occurs in the haystack starting at position `i`. */
  predicate OccursAt(needle: string, haystack: string, i: int) {
    0 <= i <= |haystack| - |needle| && haystack[i..i + |needle|] == needle
  }

  /** An occurrence in the haystack after its first character is an
      occurrence one position later in the haystack. */
  lemma OccursInTail(needle: string, haystack: string, i: nat)
    requires haystack != []
    ensures OccursAt(needle, haystack[1..], i) <==> OccursAt(needle, haystack, i + 1)
  {
    var tail, n := haystack[1..], |needle|;
    if i <= |tail| - n {
      assert tail[i..i + n] == haystack[i + 1..i + 1 + n];
    }
  }

  /** `needle in haystack` holds exactly when the needle occurs at some
      position of the haystack. */
  lemma {:induction false} IsSubstringAt(needle: string, haystack: string)
    ensures IsSubstring(needle, haystack) <==> exists i :: OccursAt(needle, haystack, i)
    decreases |haystack|
  {
    var n := |needle|;
    assert StartsWith(haystack, needle) <==> OccursAt(needle, haystack, 0) by {
      if n <= |haystack| {
        assert haystack[0..n] == haystack[..n];
      }
    }
    if haystack != [] {
      var tail := haystack[1..];
      IsSubstringAt(needle, tail);
      if IsSubstring(needle, tail) {
        var i :| OccursAt(needle, tail, i);
        OccursInTail(needle, haystack, i);
      }
      if exists i :: OccursAt(needle, haystack, i) {
        var i :| OccursAt(needle, haystack, i);
        if i > 0 {
          OccursInTail(needle, haystack, i - 1);
        }
      }
    } else if n == 0 {
      assert OccursAt(needle, haystack, 0);
    }
  }

  /** Django's `icontains` lookup on a nullable text column under SQLite's
      ASCII case folding: NULL never matches. */
  predicate IContains(field: Option<string>, needle: string) {
    field.Some? && IsSubstring(LowerStr(needle), LowerStr(field.value))
  }

  function DigitValue(c: char): nat
    requires IsDigit(c)
  {
    c as int - '0' as int
  }

  predicate AllDigits(s: string) { forall i :: 0 <= i < |s| ==> IsDigit(s[i]) }

  /** The value of a string of decimal digits, most significant first. */
  function DigitsValue(s: string): nat
    requires AllDigits(s)
  {
    if s == [] then 0 else 10 * DigitsValue(s[..|s| - 1]) + DigitValue(s[|s| - 1])
  }

  predicate DigitsOrUnderscores(s: string) {
    forall i :: 0 <= i < |s| ==> IsDigit(s[i]) || s[i] == '_'
  }

  /** The digit part `int()` accepts: decimal digits, where a single
      underscore may stand between two digits (PEP 515). */
  predicate DigitGroups(s: string) {
    s != [] && IsDigit(s[0]) && IsDigit(s[|s| - 1]) && DigitsOrUnderscores(s) &&
    forall i :: 0 <= i < |s| && s[i] == '_' ==> i + 1 < |s| && IsDigit(s[i + 1])
  }

  /** The digits of a digit part, without its underscores. */
  function DropUnderscores(s: string): (r: string)
    requires DigitsOrUnderscores(s)
    ensures AllDigits(r) && |r| <= |s|
    decreases |s|
  {
    if s == [] then []
    else (if s[0] == '_' then [] else [s[0]]) + DropUnderscores(s[1..])
  }

  /** Python's `int(s)` on decimal text: surrounding whitespace, one sign
      and underscores between digits are allowed; anything else raises
      ValueError (None here). */
  function ParseInt(s: string): (r: Option<int>)
    ensures r.Some? ==> Strip(s) != []
  {
    var t := Strip(s);
    if t == [] then None
    else
      var sign := if t[0] == '-' then -1 else 1;
      var digits := if t[0] == '-' || t[0] == '+' then t[1..] else t;
      if DigitGroups(digits) then Some(sign * DigitsValue(DropUnderscores(digits))) else None
  }

  /** The decimal representation Python's `str(n)` gives a natural number. */
  function NatToString(n: nat): (r: string)
    ensures r != [] && AllDigits(r) && (r[0] == '0' ==> n == 0)
  {
    if n < 10 then [('0' as int + n) as char]
    else NatToString(n / 10) + [('0' as int + n % 10) as char]
  }

  lemma {:induction false} NatToStringValue(n: nat)
    ensures DigitsValue(NatToString(n)) == n
  {
    if n >= 10 {
      NatToStringValue(n / 10);
      var s := NatToString(n);
      assert s[..|s| - 1] == NatToString(n / 10);
    }
  }

  /** A string of digits has no underscore to drop. */
  lemma {:induction false} DropNoUnderscores(s: string)
    requires AllDigits(s)
    ensures DropUnderscores(s) == s
    decreases |s|
  {
    if s != [] {
      DropNoUnderscores(s[1..]);
    }
  }

  /** Dropping underscores distributes over concatenation. */
  lemma {:induction false} DropUnderscoresAppend(a: string, b: string)
    requires DigitsOrUnderscores(a) && DigitsOrUnderscores(b)
    ensures DropUnderscores(a + b) == DropUnderscores(a) + DropUnderscores(b)
    decreases |a|
  {
    if a == [] {
      assert a + b == b;
    } else {
      var head := if a[0] == '_' then [] else [a[0]];
      assert (a + b)[0] == a[0] && (a + b)[1..] == a[1..] + b;
      DropUnderscoresAppend(a[1..], b);
      calc {
        DropUnderscores(a + b);
        head + DropUnderscores(a[1..] + b);
        head + (DropUnderscores(a[1..]) + DropUnderscores(b));
        (head + DropUnderscores(a[1..])) + DropUnderscores(b);
      }
    }
  }

  /** `int()` on a digit part: no sign, nothing stripped, the value of its
      digits. */
  lemma ParseDigitGroups(s: string)
    requires DigitGroups(s)
    ensures ParseInt(s) == Some(DigitsValue(DropUnderscores(s)))
  {
    assert Strip(s) == s by {
      assert TrimStart(s) == s;
      assert TrimEnd(s) == s;
    }
  }

  /** Parsing the decimal text of a number gives the number back. */
  lemma ParseNatToString(n: nat)
    ensures ParseInt(NatToString(n)) == Some(n)
  {
    var s := NatToString(n);
    NatToStringValue(n);
    DropNoUnderscores(s);
    ParseDigitGroups(s);
  }

  lemma UnderscoreJoinsGroups(a: string, b: string)
    requires a != [] && b != [] && AllDigits(a) && AllDigits(b)
    ensures DigitGroups(a + "_" + b)
  {
    var u := a + "_" + b;
    forall i | 0 <= i < |u|
      ensures IsDigit(u[i]) || u[i] == '_'
      ensures u[i] == '_' ==> i + 1 < |u| && IsDigit(u[i + 1])
    {
      if i < |a| {
        assert u[i] == a[i];
      } else if i > |a| {
        assert u[i] == b[i - |a| - 1];
      } else {
        assert u[i + 1] == b[0];
      }
    }
    assert u[0] == a[0] && u[|u| - 1] == b[|b| - 1];
  }

  lemma UnderscoreDropped(a: string, b: string)
    requires AllDigits(a) && AllDigits(b)
    ensures DigitsOrUnderscores(a + "_" + b) && DropUnderscores(a + "_" + b) == a + b
  {
    var rest := "_" + b;
    assert a + "_" + b == a + rest;
    assert rest[0] == '_' && rest[1..] == b;
    assert DropUnderscores(rest) == DropUnderscores(b);
    DropUnderscoresAppend(a, rest);
    DropNoUnderscores(a);
    DropNoUnderscores(b);
  }

  /** An underscore between two digit strings is ignored: `int("1_0")` is
      `int("10")`. */
  lemma UnderscoreIgnored(a: string, b: string)
    requires a != [] && b != [] && AllDigits(a) && AllDigits(b)
    ensures ParseInt(a + "_" + b) == ParseInt(a + b) == Some(DigitsValue(a + b))
  {
    UnderscoreJoinsGroups(a, b);
    UnderscoreDropped(a, b);
    ParseDigitGroups(a + "_" + b);
    DropNoUnderscores(a + b);
    ParseDigitGroups(a + b);
  }
}
