/**
 * The Python string operations the scraper applies to page text:
 * `str.strip()` with no argument, and `str.replace` with one-character
 * patterns, composed into the normalisation of the "retour" percentage.
 */
module PyText {

  /** The characters Python's `str.isspace` accepts, as inclusive ranges. */
  const WHITESPACE: seq<(char, char)> :=
    [('\t', '\r'), ('\U{1c}', ' '), ('\U{85}', '\U{85}'), ('\U{a0}', '\U{a0}'),
     ('\U{1680}', '\U{1680}'), ('\U{2000}', '\U{200a}'), ('\U{2028}', '\U{2029}'),
     ('\U{202f}', '\U{202f}'), ('\U{205f}', '\U{205f}'), ('\U{3000}', '\U{3000}')]

  predicate InRanges(c: char, ranges: seq<(char, char)>)
  {
    ranges != [] && (ranges[0].0 <= c <= ranges[0].1 || InRanges(c, ranges[1..]))
  }

  predicate IsSpace(c: char)
  {
    InRanges(c, WHITESPACE)
  }

  /**
   * `s.strip()`: whitespace removed from both ends until neither end is
   * whitespace.
   */
  function Strip(s: string): (r: string)
    ensures r == [] || (!IsSpace(r[0]) && !IsSpace(r[|r| - 1]))
    decreases |s|
  {
    if s != [] && IsSpace(s[0]) then Strip(s[1..])
    else if s != [] && IsSpace(s[|s| - 1]) then Strip(s[..|s| - 1])
    else s
  }

  /** `r` sits at offset `lo` in `s`, and all of `s` around it is whitespace. */
  predicate SliceOf(r: string, s: string, lo: nat)
  {
    && lo + |r| <= |s|
    && (forall i :: 0 <= i < |r| ==> r[i] == s[lo + i])
    && (forall i :: 0 <= i < lo ==> IsSpace(s[i]))
    && (forall i :: lo + |r| <= i < |s| ==> IsSpace(s[i]))
  }

  lemma SliceOfTail(r: string, s: string, lo: nat)
    requires s != [] && IsSpace(s[0]) && SliceOf(r, s[1..], lo)
    ensures SliceOf(r, s, lo + 1)
  {
    var t := s[1..];
    forall i | 0 <= i < |r| ensures r[i] == s[lo + 1 + i] {
      assert t[lo + i] == s[lo + 1 + i];
    }
    forall i | 0 < i < lo + 1 ensures IsSpace(s[i]) {
      assert s[i] == t[i - 1];
    }
    forall i | lo + 1 + |r| <= i < |s| ensures IsSpace(s[i]) {
      assert s[i] == t[i - 1];
    }
  }

  lemma SliceOfInit(r: string, s: string, lo: nat)
    requires s != [] && IsSpace(s[|s| - 1]) && SliceOf(r, s[..|s| - 1], lo)
    ensures SliceOf(r, s, lo)
  {
    var t := s[..|s| - 1];
    forall i | 0 <= i < |r| ensures r[i] == s[lo + i] {
      assert t[lo + i] == s[lo + i];
    }
    forall i | 0 <= i < lo ensures IsSpace(s[i]) {
      assert s[i] == t[i];
    }
    forall i | lo + |r| <= i < |s| - 1 ensures IsSpace(s[i]) {
      assert s[i] == t[i];
    }
  }

  /** What `strip()` removes is whitespace, at the two ends only. */
  lemma {:induction false} StripIsSlice(s: string) returns (lo: nat)
    ensures SliceOf(Strip(s), s, lo)
    decreases |s|
  {
    if s != [] && IsSpace(s[0]) {
      lo := StripIsSlice(s[1..]);
      SliceOfTail(Strip(s), s, lo);
      lo := lo + 1;
    } else if s != [] && IsSpace(s[|s| - 1]) {
      lo := StripIsSlice(s[..|s| - 1]);
      SliceOfInit(Strip(s), s, lo);
    } else {
      lo := 0;
    }
  }

  /** `s.replace(c, '')`: every occurrence of `c` deleted, the rest kept. */
  function Delete(s: string, c: char): (r: string)
    ensures c !in r
  {
    if s == [] then [] else (if s[0] == c then [] else [s[0]]) + Delete(s[1..], c)
  }

  /** The deletion keeps every other character as often as it occurs. */
  lemma {:induction false} DeleteMultiset(s: string, c: char)
    ensures multiset(Delete(s, c)) == multiset(s)[c := 0]
  {
    if s != [] {
      DeleteMultiset(s[1..], c);
      assert s == [s[0]] + s[1..];
    }
  }

  /** On one character the deletion drops it when it is `c` and keeps it otherwise. */
  lemma DeleteOne(x: char, c: char)
    ensures Delete([x], c) == if x == c then [] else [x]
  {
    assert [x][1..] == [];
  }

  /**
   * Deleting from a concatenation deletes from each part and keeps the parts
   * in order; with DeleteOne this fixes the result on every text, so the
   * characters kept stay in their original order.
   */
  lemma {:induction false} DeleteAppend(s1: string, s2: string, c: char)
    ensures Delete(s1 + s2, c) == Delete(s1, c) + Delete(s2, c)
  {
    if s1 == [] {
      assert s1 + s2 == s2;
    } else {
      var head := if s1[0] == c then [] else [s1[0]];
      DeleteAppend(s1[1..], s2, c);
      assert (s1 + s2)[0] == s1[0];
      assert (s1 + s2)[1..] == s1[1..] + s2;
      calc {
        Delete(s1 + s2, c);
        head + Delete(s1[1..] + s2, c);
        head + (Delete(s1[1..], c) + Delete(s2, c));
        (head + Delete(s1[1..], c)) + Delete(s2, c);
        Delete(s1, c) + Delete(s2, c);
      }
    }
  }

  /** `s.replace(c, d)` for one-character `c` and `d`: a pointwise substitution. */
  function Substitute(s: string, c: char, d: char): (r: string)
    ensures |r| == |s|
    ensures forall i :: 0 <= i < |s| ==> r[i] == (if s[i] == c then d else s[i])
  {
    if s == [] then [] else [if s[0] == c then d else s[0]] + Substitute(s[1..], c, d)
  }

  /**
   * The text of the "retour" element turned into what `float()` is given:
   * `%` removed, `,` turned into `.`, surrounding whitespace stripped.
   */
  function Normalize(s: string): (r: string)
    ensures '%' !in r && ',' !in r
    ensures r == [] || (!IsSpace(r[0]) && !IsSpace(r[|r| - 1]))
  {
    var t := Substitute(Delete(s, '%'), ',', '.');
    StripKeepsCharacters(t);
    SubstituteCharacters(Delete(s, '%'), ',', '.');
    Strip(t)
  }

  /** Normalising only deletes characters and turns `,` into `.`. */
  lemma NormalizeCharacters(s: string)
    ensures forall x :: x in Normalize(s) ==> x == '.' || (x in s && x != '%' && x != ',')
  {
    var d := Delete(s, '%');
    var t := Substitute(d, ',', '.');
    StripKeepsCharacters(t);
    SubstituteCharacters(d, ',', '.');
    DeleteCharacters(s, '%');
  }

  lemma StripKeepsCharacters(s: string)
    ensures forall x :: x in Strip(s) ==> x in s
  {
    var r := Strip(s);
    var lo := StripIsSlice(s);
    forall x | x in r ensures x in s {
      var i :| 0 <= i < |r| && r[i] == x;
      assert s[lo + i] == x;
    }
  }

  lemma SubstituteCharacters(s: string, c: char, d: char)
    ensures forall x :: x in Substitute(s, c, d) ==> x == d || (x in s && x != c)
  {
    var t := Substitute(s, c, d);
    forall x | x in t ensures x == d || (x in s && x != c) {
      var i :| 0 <= i < |t| && t[i] == x;
    }
  }

  lemma DeleteCharacters(s: string, c: char)
    ensures forall x :: x in Delete(s, c) ==> x in s && x != c
  {
    DeleteMultiset(s, c);
    forall x | x in Delete(s, c) ensures x in s && x != c {
      assert x in multiset(Delete(s, c));
    }
  }

  lemma {:induction false} DeleteAbsent(s: string, c: char)
    requires c !in s
    ensures Delete(s, c) == s
  {
    if s != [] {
      DeleteAbsent(s[1..], c);
      assert s == [s[0]] + s[1..];
    }
  }

  lemma SubstituteAbsent(s: string, c: char, d: char)
    requires c !in s
    ensures Substitute(s, c, d) == s
  {
    assert forall i :: 0 <= i < |s| ==> s[i] != c;
  }

  lemma StripIdempotent(s: string)
    ensures Strip(Strip(s)) == Strip(s)
  {
  }

  /** Normalising an already normalised text changes nothing. */
  lemma NormalizeIdempotent(s: string)
    ensures Normalize(Normalize(s)) == Normalize(s)
  {
    var r := Normalize(s);
    DeleteAbsent(r, '%');
    SubstituteAbsent(r, ',', '.');
    StripIdempotent(Strip(Substitute(Delete(s, '%'), ',', '.')));
  }
}
