/** The pieces of Python's string semantics the pipeline relies on: `str.isspace`,
    `str.strip()` and the substring test `needle in haystack`. */
module Text {

  /** The characters for which Python's `str.isspace()` is true; the regular
      expression class `\s` matches the same characters in a `str` pattern. */
  predicate IsSpace(c: char) {
    if c <= ' ' then '\t' <= c <= '\r' || '\U{1C}' <= c
    else
      || c == '\U{85}' || c == '\U{A0}' || c == '\U{1680}' || ('\U{2000}' <= c <= '\U{200A}')
      || c == '\U{2028}' || c == '\U{2029}' || c == '\U{202F}' || c == '\U{205F}' || c == '\U{3000}'
  }

  predicate AllSpace(s: string) {
    forall i :: 0 <= i < |s| ==> IsSpace(s[i])
  }

  /** A string with no surrounding whitespace, as `str.strip()` leaves it. */
  predicate IsStripped(s: string) {
    s == [] || (!IsSpace(s[0]) && !IsSpace(s[|s| - 1]))
  }

  predicate StartsWith(s: string, prefix: string) {
    |prefix| <= |s| && s[..|prefix|] == prefix
  }

  /** Drops leading whitespace: what remains is a suffix, and everything dropped is whitespace. */
  function TrimStart(s: string): (r: string)
    ensures |r| <= |s| && r == s[|s| - |r|..]
    ensures forall i :: 0 <= i < |s| - |r| ==> IsSpace(s[i])
    ensures r == [] || !IsSpace(r[0])
  {
    if |s| > 0 && IsSpace(s[0]) then TrimStart(s[1..]) else s
  }

  /** Drops trailing whitespace: what remains is a prefix, and everything dropped is whitespace. */
  function TrimEnd(s: string): (r: string)
    ensures |r| <= |s| && r == s[..|r|]
    ensures forall i :: |r| <= i < |s| ==> IsSpace(s[i])
    ensures r == [] || !IsSpace(r[|r| - 1])
  {
    if |s| > 0 && IsSpace(s[|s| - 1]) then TrimEnd(s[..|s| - 1]) else s
  }

  /** Python's `s.strip()`. */
  function Strip(s: string): (r: string)
    ensures |r| <= |s|
  {
    TrimEnd(TrimStart(s))
  }

  /** `s.strip()` is the slice of `s` left once the whitespace around it is cut off:
      it starts at some offset `a`, and everything before and after it is whitespace. */
  lemma StripIsSlice(s: string) returns (a: nat)
    ensures a + |Strip(s)| <= |s| && Strip(s) == s[a..a + |Strip(s)|]
    ensures forall i :: 0 <= i < a ==> IsSpace(s[i])
    ensures forall i :: a + |Strip(s)| <= i < |s| ==> IsSpace(s[i])
  {
    var t := TrimStart(s);
    a := |s| - |t|;
    PrefixOfSuffix(s, t, TrimEnd(t));
  }

  /** A prefix `r` of the suffix `t` of `s` is the slice of `s` at `|s| - |t|`, and
      what `t` holds past `r` is what `s` holds past that slice. */
  lemma PrefixOfSuffix(s: string, t: string, r: string)
    requires |t| <= |s| && t == s[|s| - |t|..]
    requires |r| <= |t| && r == t[..|r|]
    requires forall i :: |r| <= i < |t| ==> IsSpace(t[i])
    ensures r == s[|s| - |t|..|s| - |t| + |r|]
    ensures forall i :: |s| - |t| + |r| <= i < |s| ==> IsSpace(s[i])
  {
    var a := |s| - |t|;
    forall i | a + |r| <= i < |s|
      ensures IsSpace(s[i])
    {
      assert s[i] == t[i - a];
    }
  }

  /** `s.strip()` neither starts nor ends with whitespace. */
  lemma StripStripped(s: string)
    ensures IsStripped(Strip(s))
  {
    var t := TrimStart(s);
    var r := TrimEnd(t);
    if r != [] {
      assert r[0] == t[0];
    }
  }

  /** `s.strip()` is empty exactly when `s` is all whitespace. */
  lemma StripEmptyIff(s: string)
    ensures Strip(s) == [] <==> AllSpace(s)
  {
    var a := StripIsSlice(s);
    StripStripped(s);
  }

  /** `strip()` leaves an already stripped string as it is. */
  lemma StripOfStripped(s: string)
    requires IsStripped(s)
    ensures Strip(s) == s
  {
    if s == [] {
      assert TrimStart(s) == [] && TrimEnd([]) == [];
    } else {
      TrimStartKeeps(s);
      TrimEndKeeps(s);
    }
  }

  lemma TrimStartKeeps(s: string)
    requires s != [] && !IsSpace(s[0])
    ensures TrimStart(s) == s
  {
  }

  lemma TrimEndKeeps(s: string)
    requires s != [] && !IsSpace(s[|s| - 1])
    ensures TrimEnd(s) == s
  {
  }

  /** `strip()` removes a line break after a stripped, non-empty string. */
  lemma StripLineBreak(s: string)
    requires s != [] && IsStripped(s)
    ensures Strip(s + "\n") == s
  {
    var t := s + "\n";
    assert t[0] == s[0];
    assert TrimStart(t) == t;
    assert t[|t| - 1] == '\n' && t[..|t| - 1] == s;
    assert TrimEnd(t) == TrimEnd(s);
    assert TrimEnd(s) == s;
  }

  /** Stripping leaves a string that already starts with `prefix` (whose last
      character is not whitespace) starting with `prefix`. */
  lemma StripKeepsPrefix(s: string, prefix: string)
    requires StartsWith(s, prefix) && prefix != [] && !IsSpace(prefix[0])
    requires !IsSpace(prefix[|prefix| - 1])
    ensures StartsWith(Strip(s), prefix)
  {
    assert TrimStart(s) == s;
    var r := TrimEnd(s);
    assert s[|prefix| - 1] == prefix[|prefix| - 1];
    assert |r| >= |prefix|;
    assert r[..|prefix|] == s[..|prefix|];
  }

  /** `pattern` occurs in `text` starting at offset `i`. */
  predicate OccursAt(text: string, pattern: string, i: int) {
    0 <= i <= |text| - |pattern| && text[i..i + |pattern|] == pattern
  }

  /** `pattern` occurs in `text` at some offset: the meaning of Python's `pattern in text`. */
  ghost predicate Contains(text: string, pattern: string) {
    exists i :: OccursAt(text, pattern, i)
  }

  /** Python's `pattern in text`, computed by trying every offset from the left. */
  function Occurs(pattern: string, text: string): bool
    decreases |text|
  {
    StartsWith(text, pattern) || (|text| > 0 && Occurs(pattern, text[1..]))
  }

  lemma {:induction false} OccursIff(pattern: string, text: string)
    ensures Occurs(pattern, text) <==> Contains(text, pattern)
    decreases |text|
  {
    if StartsWith(text, pattern) {
      assert OccursAt(text, pattern, 0);
    } else if |text| > 0 {
      OccursIff(pattern, text[1..]);
      if Contains(text, pattern) {
        var i :| OccursAt(text, pattern, i);
        assert i != 0;
        assert text[1..][i - 1..i - 1 + |pattern|] == pattern;
        assert OccursAt(text[1..], pattern, i - 1);
      }
      if Contains(text[1..], pattern) {
        var i :| OccursAt(text[1..], pattern, i);
        assert text[i + 1..i + 1 + |pattern|] == pattern;
        assert OccursAt(text, pattern, i + 1);
      }
    }
  }

  /** Containment is transitive: whatever occurs in an occurrence occurs in the whole. */
  lemma ContainsTransitive(text: string, middle: string, pattern: string)
    requires Contains(text, middle) && Contains(middle, pattern)
    ensures Contains(text, pattern)
  {
    var i :| OccursAt(text, middle, i);
    var j :| OccursAt(middle, pattern, j);
    forall k | 0 <= k < |pattern|
      ensures text[i + j..i + j + |pattern|][k] == pattern[k]
    {
      assert pattern[k] == middle[j + k] == text[i + j + k];
    }
    assert OccursAt(text, pattern, i + j);
  }

  /** A string contains each of its infixes. */
  lemma ContainsInfix(a: string, b: string, c: string)
    ensures Contains(a + b + c, b)
  {
    assert (a + b + c)[|a|..|a| + |b|] == b;
    assert OccursAt(a + b + c, b, |a|);
  }
}
