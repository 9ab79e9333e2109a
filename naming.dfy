/** The camelCase token that every generated filename is built from.
    The repository carries five textually identical copies of `to_camel_case`
    (image_upload/api_views.py, collection/views.py, image_upload/views.py,
    rename_files_to_new_format.py and the `Command` method of the management
    command rename_to_new_format.py); all five are `ToCamelCase` below. */
module Naming {
  import opened Wrappers
  import opened Ascii

  /** Length of the run of alphanumeric characters at the start of `s`. */
  function RunLength(s: string): (n: nat)
    ensures n <= |s|
    ensures forall i :: 0 <= i < n ==> IsAlnum(s[i])
    ensures n == |s| || !IsAlnum(s[n])
  {
    if s != [] && IsAlnum(s[0]) then 1 + RunLength(s[1..]) else 0
  }

  /** `[w for w in re.split(r'[^a-zA-Z0-9]+', s) if w]`: the maximal runs of
      alphanumeric characters, in order. */
  function Words(s: string): (ws: seq<string>)
    ensures forall k :: 0 <= k < |ws| ==> ws[k] != [] && AllAlnum(ws[k])
    decreases |s|
  {
    if s == [] then []
    else if !IsAlnum(s[0]) then Words(s[1..])
    else
      var n := RunLength(s);
      [s[..n]] + Words(s[n..])
  }

  /** `str.capitalize()` on an alphanumeric word: first character upper
      case, every other character lower case. */
  function Capitalize(w: string): string {
    if w == [] then [] else [Upper(w[0])] + LowerStr(w[1..])
  }

  /** The accumulation `for word in words[1:]: camel_case += word.capitalize()`. */
  function CapJoin(ws: seq<string>): string {
    if ws == [] then [] else Capitalize(ws[0]) + CapJoin(ws[1..])
  }

  /** `to_camel_case(text)`; None stands for Python's None. */
  function ToCamelCase(text: Option<string>): string {
    if text.None? || text.value == [] then "unknown"
    else
      var words := Words(Strip(text.value));
      if words == [] then "unknown"
      else LowerStr(words[0]) + CapJoin(words[1..])
  }

  /** An independent, single-pass reading of the same rule: walk the text
      once; drop every non-alphanumeric character; emit an alphanumeric
      character in upper case exactly when it starts a run (`!inWord`) and
      some earlier run exists (`seen`), in lower case otherwise. */
  function Scan(s: string, inWord: bool, seen: bool): string {
    if s == [] then []
    else if IsAlnum(s[0]) then
      [if !inWord && seen then Upper(s[0]) else Lower(s[0])] + Scan(s[1..], true, true)
    else Scan(s[1..], false, seen)
  }

  // ---- Words and strip ------------------------------------------------

  lemma {:induction false} NoAlnumNoWords(t: string)
    requires !HasAlnum(t)
    ensures Words(t) == []
    decreases |t|
  {
    if t != [] {
      assert !IsAlnum(t[0]);
      assert forall i :: 0 <= i < |t[1..]| ==> t[1..][i] == t[i + 1];
      NoAlnumNoWords(t[1..]);
    }
  }

  lemma {:induction false} WordsEmptyIff(s: string)
    ensures Words(s) == [] <==> !HasAlnum(s)
    decreases |s|
  {
    if !HasAlnum(s) {
      NoAlnumNoWords(s);
    } else if !IsAlnum(s[0]) {
      var i :| 0 <= i < |s| && IsAlnum(s[i]);
      assert s[1..][i - 1] == s[i];
      WordsEmptyIff(s[1..]);
    }
  }

  lemma {:induction false} WordsDropPrefix(u: string, r: string)
    requires !HasAlnum(u)
    ensures Words(u + r) == Words(r)
    decreases |u|
  {
    if u != [] {
      assert !IsAlnum(u[0]) && (u + r)[0] == u[0];
      assert (u + r)[1..] == u[1..] + r;
      assert !HasAlnum(u[1..]) by {
        forall i | 0 <= i < |u[1..]| ensures !IsAlnum(u[1..][i]) { assert u[1..][i] == u[i + 1]; }
      }
      WordsDropPrefix(u[1..], r);
    } else {
      assert u + r == r;
    }
  }

  lemma {:induction false} RunLengthAppend(s: string, t: string)
    requires s != [] && IsAlnum(s[0])
    requires !HasAlnum(t)
    ensures RunLength(s + t) == RunLength(s)
    decreases |s|
  {
    if |s| == 1 {
      assert (s + t)[1..] == t;
      if t != [] { assert !IsAlnum(t[0]); }
    } else {
      assert (s + t)[1..] == s[1..] + t;
      if IsAlnum(s[1]) {
        RunLengthAppend(s[1..], t);
      }
    }
  }

  lemma {:induction false} WordsDropSuffix(r: string, t: string)
    requires !HasAlnum(t)
    ensures Words(r + t) == Words(r)
    decreases |r|
  {
    if r == [] {
      assert r + t == t;
      NoAlnumNoWords(t);
    } else if !IsAlnum(r[0]) {
      assert (r + t)[1..] == r[1..] + t;
      WordsDropSuffix(r[1..], t);
    } else {
      var n := RunLength(r);
      RunLengthAppend(r, t);
      assert (r + t)[..n] == r[..n];
      assert (r + t)[n..] == r[n..] + t;
      WordsDropSuffix(r[n..], t);
    }
  }

  lemma SpaceIsNotAlnum(c: char)
    requires IsSpace(c)
    ensures !IsAlnum(c)
  {
  }

  lemma WordsTrimStart(s: string)
    ensures Words(TrimStart(s)) == Words(s)
  {
    var a := TrimStart(s);
    var u := s[..|s| - |a|];
    TrimStartIsSuffix(s);
    assert s == u + a;
    TrimStartSpaces(s);
    forall i | 0 <= i < |u| ensures !IsAlnum(u[i]) { SpaceIsNotAlnum(u[i]); }
    WordsDropPrefix(u, a);
  }

  lemma WordsTrimEnd(a: string)
    ensures Words(TrimEnd(a)) == Words(a)
  {
    var b := TrimEnd(a);
    var t := a[|b|..];
    TrimEndIsPrefix(a);
    assert a == b + t;
    TrimEndSpaces(a);
    forall i | 0 <= i < |t| ensures !IsAlnum(t[i]) { SpaceIsNotAlnum(t[i]); }
    WordsDropSuffix(b, t);
  }

  /** `str(text).strip()` does not change the words: every character it
      removes is a separator of the split anyway. */
  lemma WordsStrip(s: string)
    ensures Words(Strip(s)) == Words(s)
  {
    WordsTrimStart(s);
    WordsTrimEnd(TrimStart(s));
  }

  lemma {:induction false} TrimStartSpaces(s: string)
    ensures forall i :: 0 <= i < |s| - |TrimStart(s)| ==> IsSpace(s[i])
    decreases |s|
  {
    if s != [] && IsSpace(s[0]) {
      TrimStartSpaces(s[1..]);
      forall i | 1 <= i < |s| - |TrimStart(s)| ensures IsSpace(s[i]) { assert s[1..][i - 1] == s[i]; }
    }
  }

  lemma {:induction false} TrimEndSpaces(s: string)
    ensures forall i :: |TrimEnd(s)| <= i < |s| ==> IsSpace(s[i])
    decreases |s|
  {
    if s != [] && IsSpace(s[|s| - 1]) {
      TrimEndSpaces(s[..|s| - 1]);
    }
  }

  // ---- The scanner agrees with split-and-capitalize -------------------

  lemma {:induction false} ScanRun(u: string, t: string)
    requires AllAlnum(u)
    ensures Scan(u + t, true, true) == LowerStr(u) + Scan(t, true, true)
    decreases |u|
  {
    if u != [] {
      assert (u + t)[0] == u[0];
      assert (u + t)[1..] == u[1..] + t;
      ScanRun(u[1..], t);
      assert LowerStr(u) == [Lower(u[0])] + LowerStr(u[1..]);
    } else {
      assert u + t == t;
    }
  }

  lemma ScanBoundary(t: string)
    requires t == [] || !IsAlnum(t[0])
    ensures Scan(t, true, true) == Scan(t, false, true)
  {
  }

  lemma {:induction false} ScanWords(s: string, seen: bool)
    ensures Scan(s, false, seen) ==
      (if seen then CapJoin(Words(s))
       else if Words(s) == [] then []
       else LowerStr(Words(s)[0]) + CapJoin(Words(s)[1..]))
    decreases |s|
  {
    if s != [] {
      if !IsAlnum(s[0]) {
        ScanWords(s[1..], seen);
      } else {
        var n := RunLength(s);
        var w := s[..n];
        var rest := s[n..];
        assert s[1..] == w[1..] + rest;
        ScanRun(w[1..], rest);
        ScanBoundary(rest);
        ScanWords(rest, true);
        assert Words(s) == [w] + Words(rest);
        assert Scan(s, false, seen) ==
          [if seen then Upper(s[0]) else Lower(s[0])] + LowerStr(w[1..]) + CapJoin(Words(rest));
        if seen {
          assert Capitalize(w) == [Upper(w[0])] + LowerStr(w[1..]);
        } else {
          assert LowerStr(w) == [Lower(w[0])] + LowerStr(w[1..]);
        }
      }
    }
  }

  /** The token is "unknown" for None, for the empty string and for text
      without an ASCII letter or digit; otherwise it is what the single-pass
      scanner produces: the first run lower-cased, every later run with its
      first character upper-cased and its other characters lower-cased. */
  lemma CamelMatchesScan(text: Option<string>)
    ensures ToCamelCase(text) ==
      if text.Some? && HasAlnum(text.value) then Scan(text.value, false, false) else "unknown"
  {
    if text.Some? {
      var s := text.value;
      WordsStrip(s);
      WordsEmptyIff(s);
      ScanWords(s, false);
    }
  }

  lemma {:induction false} ScanKeepsAlnums(s: string, inWord: bool, seen: bool)
    ensures |Scan(s, inWord, seen)| == |Alnums(s)|
    ensures AllAlnum(Scan(s, inWord, seen))
    ensures LowerStr(Scan(s, inWord, seen)) == LowerStr(Alnums(s))
    decreases |s|
  {
    if s != [] {
      if IsAlnum(s[0]) {
        ScanKeepsAlnums(s[1..], true, true);
        var c := if !inWord && seen then Upper(s[0]) else Lower(s[0]);
        var r := Scan(s[1..], true, true);
        assert Lower(c) == Lower(s[0]);
        assert LowerStr([c] + r) == [Lower(c)] + LowerStr(r);
        assert LowerStr([s[0]] + Alnums(s[1..])) == [Lower(s[0])] + LowerStr(Alnums(s[1..]));
      } else {
        ScanKeepsAlnums(s[1..], false, seen);
      }
    }
  }

  /** `to_camel_case` returns "unknown" for None, for '' and for text with
      no ASCII letter or digit. */
  lemma CamelUnknown(text: Option<string>)
    requires text.None? || !HasAlnum(text.value)
    ensures ToCamelCase(text) == "unknown"
  {
    CamelMatchesScan(text);
  }

  /** The token is never empty and holds only ASCII letters and digits, so
      it never contains the '_' that separates filename fields or a '.'. */
  lemma CamelIsToken(text: Option<string>)
    ensures ToCamelCase(text) != [] && AllAlnum(ToCamelCase(text))
    ensures '_' !in ToCamelCase(text) && '.' !in ToCamelCase(text) && '/' !in ToCamelCase(text)
  {
    CamelMatchesScan(text);
    if text.Some? && HasAlnum(text.value) {
      ScanKeepsAlnums(text.value, false, false);
      AlnumsEmpty(text.value);
    }
  }

  /** With some letter or digit in the input, the token has exactly as many
      characters as the input has letters and digits, and agrees with them
      in order up to case. */
  lemma CamelKeepsAlnums(s: string)
    requires HasAlnum(s)
    ensures |ToCamelCase(Some(s))| == |Alnums(s)|
    ensures LowerStr(ToCamelCase(Some(s))) == LowerStr(Alnums(s))
  {
    CamelMatchesScan(Some(s));
    ScanKeepsAlnums(s, false, false);
  }

  /** A token of letters and digits is one word, and `strip` leaves it. */
  lemma TokenIsOneWord(t: string)
    requires t != [] && AllAlnum(t)
    ensures Strip(t) == t && Words(t) == [t]
  {
    assert IsAlnum(t[0]) && !IsSpace(t[0]);
    assert TrimStart(t) == t;
    assert IsAlnum(t[|t| - 1]) && !IsSpace(t[|t| - 1]);
    assert TrimEnd(t) == t;
    assert RunLength(t) == |t|;
    assert t[..|t|] == t && t[|t|..] == [];
  }

  /** `capitalize` lower-cases the rest of every later word, so applying
      the function to its own token lower-cases the whole token: once the
      input has a second word starting with a letter ("SPACE MARINE" gives
      "spaceMarine", which gives "spacemarine"), it is not idempotent. */
  lemma CamelNotIdempotent(s: string)
    requires |Words(s)| >= 2 && (IsUpper(Words(s)[1][0]) || IsLower(Words(s)[1][0]))
    ensures ToCamelCase(Some(ToCamelCase(Some(s)))) != ToCamelCase(Some(s))
  {
    var ws := Words(s);
    var t := ToCamelCase(Some(s));
    var k := |ws[0]|;
    assert k < |t| && t[k] == Upper(ws[1][0]) by {
      assert s != [];
      WordsStrip(s);
      assert t == LowerStr(ws[0]) + (Capitalize(ws[1]) + CapJoin(ws[2..]));
    }
    assert ToCamelCase(Some(t)) == LowerStr(t) by {
      CamelIsToken(Some(s));
      TokenIsOneWord(t);
    }
    assert LowerStr(t)[k] == Lower(t[k]) != t[k];
  }
}
