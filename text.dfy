/** The string operations the search boxes use: `toLowerCase` and `includes`. */
module Text {

  /** Case folding of one character. Only ASCII letters are folded; see README. */
  function LowerChar(c: char): char {
    if 'A' <= c <= 'Z' then (c as int + 32) as char else c
  }

  /** `s.toLowerCase()`, restricted to ASCII letters. */
  function Lower(s: string): (r: string)
    ensures |r| == |s|
  {
    seq(|s|, i requires 0 <= i < |s| => LowerChar(s[i]))
  }

  /** Folding twice is folding once. */
  lemma LowerIdempotent(s: string)
    ensures Lower(Lower(s)) == Lower(s)
  {
    assert forall i :: 0 <= i < |s| ==> Lower(Lower(s))[i] == Lower(s)[i];
  }

  /** `t` occurs in `s` starting at position `i`. */
  predicate OccursAt(s: string, t: string, i: nat) {
    i + |t| <= |s| && s[i..i + |t|] == t
  }

  /** `s.includes(t)`: `t` is a prefix of `s` or of one of its suffixes. */
  predicate Includes(s: string, t: string)
    decreases |s|
  {
    t <= s || (|s| > 0 && Includes(s[1..], t))
  }

  /** An occurrence at any position is found by `Includes`. */
  lemma {:induction false} OccursIncludes(s: string, t: string, i: nat)
    requires OccursAt(s, t, i)
    ensures Includes(s, t)
    decreases i
  {
    if i == 0 {
      assert s[..|t|] == t;
    } else {
      assert s[1..][i - 1..i - 1 + |t|] == s[i..i + |t|];
      OccursIncludes(s[1..], t, i - 1);
    }
  }

  /** Whatever `Includes` finds is an occurrence at some position. */
  lemma {:induction false} IncludesOccurs(s: string, t: string)
    requires Includes(s, t)
    ensures exists i: nat :: OccursAt(s, t, i)
    decreases |s|
  {
    if t <= s {
      assert OccursAt(s, t, 0);
    } else {
      IncludesOccurs(s[1..], t);
      var j: nat :| OccursAt(s[1..], t, j);
      assert s[j + 1..j + 1 + |t|] == s[1..][j..j + |t|];
      assert OccursAt(s, t, j + 1);
    }
  }

  /** `Includes` agrees with the reference definition: `t` occurs in `s` at some position. */
  lemma IncludesIffOccurs(s: string, t: string)
    ensures Includes(s, t) <==> exists i: nat :: OccursAt(s, t, i)
  {
    if Includes(s, t) {
      IncludesOccurs(s, t);
    }
    if i: nat :| OccursAt(s, t, i) {
      OccursIncludes(s, t, i);
    }
  }

  /** `s.endsWith(t)`. */
  predicate EndsWith(s: string, t: string) {
    |t| <= |s| && s[|s| - |t|..] == t
  }

  /** The search rule shared by every filter: `field.toLowerCase().includes(term.toLowerCase())`. */
  predicate Matches(field: string, term: string) {
    Includes(Lower(field), Lower(term))
  }

  /** The search ignores case in the term: folding the term first changes nothing. */
  lemma MatchesFoldedTerm(field: string, term: string)
    ensures Matches(field, Lower(term)) == Matches(field, term)
  {
    LowerIdempotent(term);
  }

  /** An empty term matches every field. */
  lemma EmptyTermMatches(field: string)
    ensures Matches(field, "")
  {
    assert Lower("") == "";
  }
}
