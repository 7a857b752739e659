/** ASCII models of the three Python string operations the prompt composer uses:
    `str.lower`, `str.title` and the substring test `needle in haystack`. */
module Text {

  predicate IsUpper(c: char) { 'A' <= c <= 'Z' }

  predicate IsLower(c: char) { 'a' <= c <= 'z' }

  /** A cased character in Python's sense, restricted to ASCII letters. */
  predicate IsCased(c: char) { IsUpper(c) || IsLower(c) }

  function Lower(c: char): char
  {
    if IsUpper(c) then (c as int + 32) as char else c
  }

  function Upper(c: char): char
  {
    if IsLower(c) then (c as int - 32) as char else c
  }

  /** The case mappings agree with each other on every character. */
  lemma CaseFacts(c: char)
    ensures Lower(Lower(c)) == Lower(c) && Upper(Lower(c)) == Upper(c)
    ensures IsCased(Lower(c)) == IsCased(c) && !IsUpper(Lower(c))
    ensures IsCased(c) <==> IsLower(Lower(c))
  {
  }

  /** Python's `s.lower()`: every character mapped through `Lower`, positions kept. */
  function ToLower(s: string): (r: string)
    ensures |r| == |s|
    ensures forall i :: 0 <= i < |s| ==> r[i] == Lower(s[i])
  {
    if s == [] then [] else [Lower(s[0])] + ToLower(s[1..])
  }

  /** `a` and `b` differ at most in the letter case of their characters. */
  predicate SameUpToCase(a: string, b: string)
  {
    |a| == |b| && forall i :: 0 <= i < |a| ==> Lower(a[i]) == Lower(b[i])
  }

  /** Lower-casing identifies exactly the strings that differ only in case. */
  lemma ToLowerIdentifiesCase(a: string, b: string)
    ensures SameUpToCase(a, b) <==> ToLower(a) == ToLower(b)
  {
  }

  /** A string is its own lower-case form exactly when it holds no upper-case letter. */
  lemma ToLowerFixesLowerCase(s: string)
    ensures ToLower(s) == s <==> forall i :: 0 <= i < |s| ==> !IsUpper(s[i])
  {
  }

  /** One character of `str.title()`: lower-cased after a cased character, upper-cased otherwise. */
  function TitleChar(c: char, previousIsCased: bool): char
  {
    if previousIsCased then Lower(c) else Upper(c)
  }

  /** `str.title()` scanning `s`, where `previousIsCased` describes the character before `s[0]`. */
  function TitleFrom(s: string, previousIsCased: bool): (r: string)
    ensures |r| == |s|
    ensures forall i :: 0 <= i < |s| ==>
      r[i] == TitleChar(s[i], if i == 0 then previousIsCased else IsCased(s[i - 1]))
  {
    if s == [] then [] else [TitleChar(s[0], previousIsCased)] + TitleFrom(s[1..], IsCased(s[0]))
  }

  /** Python's `s.title()`: a letter is upper-cased when it starts a run of letters
      and lower-cased inside one; every other character is kept. */
  function Title(s: string): (r: string)
    ensures |r| == |s|
    ensures forall i :: 0 <= i < |s| ==>
      r[i] == (if i > 0 && IsCased(s[i - 1]) then Lower(s[i]) else Upper(s[i]))
  {
    TitleFrom(s, false)
  }

  /** Title case depends only on the letters, not on their case. */
  lemma TitleIgnoresCase(a: string, b: string)
    requires SameUpToCase(a, b)
    ensures Title(a) == Title(b)
  {
    forall i | 0 <= i < |a| ensures Title(a)[i] == Title(b)[i] {
      CaseFacts(a[i]);
      CaseFacts(b[i]);
      if i > 0 {
        CaseFacts(a[i - 1]);
        CaseFacts(b[i - 1]);
      }
    }
  }

  /** Lower-casing before title-casing changes nothing. */
  lemma TitleOfLower(s: string)
    ensures Title(ToLower(s)) == Title(s)
  {
    forall i | 0 <= i < |s| ensures Lower(ToLower(s)[i]) == Lower(s[i]) {
      CaseFacts(s[i]);
    }
    TitleIgnoresCase(ToLower(s), s);
  }

  /** `k` occurs in `s` starting at index `i`. */
  predicate OccursAt(s: string, k: string, i: int)
  {
    0 <= i && i + |k| <= |s| && s[i..i + |k|] == k
  }

  /** When `k` is not at the front of `s`, it occurs in `s` exactly when it occurs in `s[1..]`. */
  lemma OccursInTail(s: string, k: string)
    requires |s| > 0 && !OccursAt(s, k, 0)
    ensures (exists i :: OccursAt(s, k, i)) <==> (exists j :: OccursAt(s[1..], k, j))
  {
    if exists i :: OccursAt(s, k, i) {
      var i :| OccursAt(s, k, i);
      assert s[1..][i - 1..i - 1 + |k|] == s[i..i + |k|];
      assert OccursAt(s[1..], k, i - 1);
    }
    if exists j :: OccursAt(s[1..], k, j) {
      var j :| OccursAt(s[1..], k, j);
      assert s[1..][j..j + |k|] == s[j + 1..j + 1 + |k|];
      assert OccursAt(s, k, j + 1);
    }
  }

  /** Python's `k in s` on strings: a scan for `k` from each position of `s` in turn. */
  function Contains(s: string, k: string): (r: bool)
    ensures r <==> exists i :: OccursAt(s, k, i)
    decreases |s|
  {
    if |k| > |s| then false
    else if s[..|k|] == k then assert OccursAt(s, k, 0); true
    else OccursInTail(s, k); Contains(s[1..], k)
  }

  /** `k` occurs in `s` at `i` when case is ignored. */
  predicate MatchesAt(s: string, k: string, i: int)
  {
    0 <= i && i + |k| <= |s| && SameUpToCase(s[i..i + |k|], k)
  }

  /** For a keyword without upper-case letters, a substring test on the lower-cased
      haystack is a case-insensitive substring test on the original. */
  lemma LoweredContainsIgnoresCase(s: string, k: string)
    requires forall j :: 0 <= j < |k| ==> !IsUpper(k[j])
    ensures Contains(ToLower(s), k) <==> exists i :: MatchesAt(s, k, i)
  {
    forall i ensures OccursAt(ToLower(s), k, i) <==> MatchesAt(s, k, i) {
      OccursInLowered(s, k, i);
    }
  }

  /** The per-position step of `LoweredContainsIgnoresCase`. */
  lemma OccursInLowered(s: string, k: string, i: int)
    requires forall j :: 0 <= j < |k| ==> !IsUpper(k[j])
    ensures OccursAt(ToLower(s), k, i) <==> MatchesAt(s, k, i)
  {
  }
}
