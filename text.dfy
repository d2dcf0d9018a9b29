/**
  String helpers used by the bot: ASCII approximations of Python's
  `str.lower`, `str.upper` and `str.title`, prefix tests and substring search.
 */
module Text {

  predicate IsUpperAscii(c: char) { 'A' <= c <= 'Z' }
  predicate IsLowerAscii(c: char) { 'a' <= c <= 'z' }

  /** A letter that has a case; every other character separates words for `TitleCase`. */
  predicate IsCased(c: char) { IsUpperAscii(c) || IsLowerAscii(c) }

  function LowerChar(c: char): (r: char)
    ensures !IsUpperAscii(r) && IsCased(r) == IsCased(c)
    ensures !IsCased(c) ==> r == c
  {
    if IsUpperAscii(c) then (c as int + 32) as char else c
  }

  function UpperChar(c: char): (r: char)
    ensures !IsLowerAscii(r) && IsCased(r) == IsCased(c)
    ensures !IsCased(c) ==> r == c
  {
    if IsLowerAscii(c) then (c as int - 32) as char else c
  }

  /** Both case maps agree once the result is lower-cased again. */
  lemma LowerOfCaseMaps(c: char)
    ensures LowerChar(UpperChar(c)) == LowerChar(c)
    ensures LowerChar(LowerChar(c)) == LowerChar(c)
    ensures UpperChar(UpperChar(c)) == UpperChar(c)
  {
  }

  function ToLower(s: string): (r: string)
    ensures |r| == |s|
    ensures forall i :: 0 <= i < |r| ==> !IsUpperAscii(r[i]) && LowerChar(s[i]) == r[i]
  {
    seq(|s|, i requires 0 <= i < |s| => LowerChar(s[i]))
  }

  function ToUpper(s: string): (r: string)
    ensures |r| == |s|
    ensures forall i :: 0 <= i < |r| ==> !IsLowerAscii(r[i]) && UpperChar(s[i]) == r[i]
  {
    seq(|s|, i requires 0 <= i < |s| => UpperChar(s[i]))
  }

  /**
    Title case of `s` when the character before it was cased (`prevCased`) or not:
    a cased character starts a word, and is upper-cased, exactly when the
    character before it is not cased; inside a word it is lower-cased.
   */
  function TitleFrom(s: string, prevCased: bool): (r: string)
    ensures |r| == |s|
    decreases |s|
  {
    if s == [] then []
    else
      var c := if prevCased then LowerChar(s[0]) else UpperChar(s[0]);
      [c] + TitleFrom(s[1..], IsCased(s[0]))
  }

  function TitleCase(s: string): (r: string)
    ensures |r| == |s|
  {
    TitleFrom(s, false)
  }

  /** True when a cased character at `i` of `s` starts a word. */
  predicate StartsWord(s: string, i: nat, prevCased: bool)
    requires i < |s|
  {
    if i == 0 then !prevCased else !IsCased(s[i - 1])
  }

  /** Title case upper-cases exactly the letters that start a word and lower-cases every other letter. */
  lemma {:induction false} TitleFromWordStarts(s: string, prevCased: bool, i: nat)
    requires i < |s| && IsCased(s[i])
    ensures IsUpperAscii(TitleFrom(s, prevCased)[i]) <==> StartsWord(s, i, prevCased)
    ensures IsLowerAscii(TitleFrom(s, prevCased)[i]) <==> !StartsWord(s, i, prevCased)
    decreases i
  {
    var r := TitleFrom(s, prevCased);
    assert r[1..] == TitleFrom(s[1..], IsCased(s[0]));
    if i > 0 {
      TitleFromWordStarts(s[1..], IsCased(s[0]), i - 1);
      assert r[i] == TitleFrom(s[1..], IsCased(s[0]))[i - 1];
      assert s[1..][i - 1] == s[i];
      if i > 1 {
        assert s[1..][i - 2] == s[i - 1];
      }
    }
  }

  /** Title case changes nothing but letter case. */
  lemma {:induction false} TitleFromKeepsLetters(s: string, prevCased: bool)
    ensures ToLower(TitleFrom(s, prevCased)) == ToLower(s)
    decreases |s|
  {
    if s != [] {
      var r := TitleFrom(s, prevCased);
      TitleFromKeepsLetters(s[1..], IsCased(s[0]));
      LowerOfCaseMaps(s[0]);
      assert r[1..] == TitleFrom(s[1..], IsCased(s[0]));
      forall i | 0 <= i < |s|
        ensures ToLower(r)[i] == ToLower(s)[i]
      {
        if i > 0 {
          assert ToLower(r)[i] == ToLower(r[1..])[i - 1];
          assert ToLower(s)[i] == ToLower(s[1..])[i - 1];
        }
      }
    }
  }

  /** Title-casing a title-cased string changes nothing. */
  lemma {:induction false} TitleFromIdempotent(s: string, prevCased: bool)
    ensures TitleFrom(TitleFrom(s, prevCased), prevCased) == TitleFrom(s, prevCased)
    decreases |s|
  {
    if s != [] {
      var r := TitleFrom(s, prevCased);
      LowerOfCaseMaps(s[0]);
      assert IsCased(r[0]) == IsCased(s[0]);
      assert r[1..] == TitleFrom(s[1..], IsCased(s[0]));
      TitleFromIdempotent(s[1..], IsCased(s[0]));
    }
  }

  lemma TitleCaseIdempotent(s: string)
    ensures TitleCase(TitleCase(s)) == TitleCase(s)
  {
    TitleFromIdempotent(s, false);
  }

  /** Python's `s.startswith(p)`. */
  predicate StartsWith(s: string, p: string)
  {
    |p| <= |s| && s[..|p|] == p
  }

  predicate EndsWith(s: string, p: string)
  {
    |p| <= |s| && s[|s| - |p|..] == p
  }

  /** `sub` occurs in `s` starting at index `i`. */
  predicate OccursAt(s: string, sub: string, i: nat)
  {
    i + |sub| <= |s| && s[i..i + |sub|] == sub
  }

  /** An occurrence in the tail of `s` is an occurrence in `s` one index later. */
  lemma OccursInTail(s: string, sub: string, i: nat)
    requires s != []
    ensures OccursAt(s[1..], sub, i) <==> OccursAt(s, sub, i + 1)
  {
    if i + 1 + |sub| <= |s| {
      var a, b := s[1..][i..i + |sub|], s[i + 1..i + 1 + |sub|];
      assert |a| == |b|;
      forall j | 0 <= j < |a| ensures a[j] == b[j] {
        assert a[j] == s[1..][i + j] == s[i + 1 + j];
      }
      assert a == b;
    }
  }

  /** Python's `sub in s`: a left-to-right search for an occurrence of `sub`. */
  function Contains(s: string, sub: string): (b: bool)
    ensures b <==> exists i: nat :: OccursAt(s, sub, i)
    decreases |s|
  {
    if StartsWith(s, sub) then
      assert OccursAt(s, sub, 0);
      true
    else if s == [] then
      false
    else
      var b := Contains(s[1..], sub);
      if b then
        var i: nat :| OccursAt(s[1..], sub, i);
        OccursInTail(s, sub, i);
        b
      else
        assert !OccursAt(s, sub, 0) by {
          if |sub| <= |s| {
            assert s[0..|sub|] == s[..|sub|];
          }
        }
        forall i: nat
          ensures !OccursAt(s, sub, i)
        {
          if i > 0 {
            OccursInTail(s, sub, i - 1);
          }
        }
        b
  }
}
