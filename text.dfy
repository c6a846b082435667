/** The two string operations the scorer relies on: lower-casing and
    substring containment (Python's `str.lower` and `k in s`). */
module Text {

  /** Lower-casing of one character, ASCII letters only. */
  function LowerChar(c: char): (r: char)
    ensures 'A' <= c <= 'Z' ==> 'a' <= r <= 'z' && r as int - c as int == 32
    ensures !('A' <= c <= 'Z') ==> r == c
  {
    if 'A' <= c <= 'Z' then (c as int + 32) as char else c
  }

  /** ASCII lower-casing of a whole string, character by character. */
  function Lower(s: string): (r: string)
    ensures |r| == |s|
    ensures forall i :: 0 <= i < |s| ==> r[i] == LowerChar(s[i])
  {
    if s == [] then [] else [LowerChar(s[0])] + Lower(s[1..])
  }

  /** A string with no upper-case ASCII letter is its own lower-case form. */
  lemma LowerOfLowercase(s: string)
    requires forall i :: 0 <= i < |s| ==> !('A' <= s[i] <= 'Z')
    ensures Lower(s) == s
  {
  }

  /** Lower-casing twice is lower-casing once. */
  lemma LowerIdempotent(s: string)
    ensures Lower(Lower(s)) == Lower(s)
  {
  }

  // ---- substring containment ------------------------------------------

  /** `k` occurs at position `i` of `text`, compared character by character
      from offset `j` of `k` on. */
  function MatchesAt(text: string, k: string, i: nat, j: nat): bool
    decreases |k| - j
  {
    j >= |k| || (i + j < |text| && text[i + j] == k[j] && MatchesAt(text, k, i, j + 1))
  }

  /** `k` occurs at some position `i' >= i` of `text`. */
  function ContainsFrom(text: string, k: string, i: nat): bool
    decreases |text| - i
  {
    if i > |text| then false else MatchesAt(text, k, i, 0) || ContainsFrom(text, k, i + 1)
  }

  /** Python's `k in text` for strings: a left-to-right scan of the start positions. */
  function Contains(text: string, k: string): bool
  {
    ContainsFrom(text, k, 0)
  }

  /** `k` is the slice of `text` that starts at position `i`. */
  ghost predicate SliceAt(text: string, k: string, i: nat)
  {
    i + |k| <= |text| && text[i..i + |k|] == k
  }

  /** Reference definition: `k` is a slice of `text`. */
  ghost predicate Occurs(text: string, k: string)
  {
    exists i: nat :: SliceAt(text, k, i)
  }

  lemma {:induction false} MatchesAtIff(text: string, k: string, i: nat, j: nat)
    requires j <= |k|
    ensures MatchesAt(text, k, i, j) <==>
      (i + |k| <= |text| || j == |k|) && (forall m :: j <= m < |k| ==> text[i + m] == k[m])
    decreases |k| - j
  {
    if j < |k| {
      MatchesAtIff(text, k, i, j + 1);
    }
  }

  lemma MatchesAtIffSlice(text: string, k: string, i: nat)
    requires i <= |text|
    ensures MatchesAt(text, k, i, 0) <==> SliceAt(text, k, i)
  {
    MatchesAtIff(text, k, i, 0);
    if SliceAt(text, k, i) {
      forall m | 0 <= m < |k| ensures text[i + m] == k[m] {
        assert text[i..i + |k|][m] == k[m];
      }
    }
  }

  lemma {:induction false} ContainsFromIff(text: string, k: string, i: nat)
    ensures ContainsFrom(text, k, i) <==> exists p: nat :: i <= p && SliceAt(text, k, p)
    decreases |text| - i
  {
    if i <= |text| {
      MatchesAtIffSlice(text, k, i);
      ContainsFromIff(text, k, i + 1);
      if exists p: nat :: i <= p && SliceAt(text, k, p) {
        var p: nat :| i <= p && SliceAt(text, k, p);
        assert p == i || (i + 1 <= p && SliceAt(text, k, p));
      }
    } else {
      assert forall p: nat :: i <= p ==> !SliceAt(text, k, p);
    }
  }

  /** The scan finds `k` exactly when `k` is a slice of `text`. */
  lemma ContainsIffOccurs(text: string, k: string)
    ensures Contains(text, k) <==> Occurs(text, k)
  {
    ContainsFromIff(text, k, 0);
  }

  /** A slice of a slice is a slice: containment is transitive. */
  lemma ContainsTransitive(text: string, m: string, k: string)
    requires Contains(text, m) && Contains(m, k)
    ensures Contains(text, k)
  {
    ContainsIffOccurs(text, m);
    ContainsIffOccurs(m, k);
    var p: nat :| SliceAt(text, m, p);
    var q: nat :| SliceAt(m, k, q);
    assert SliceAt(text, k, p + q) by {
      forall t | 0 <= t < |k| ensures text[p + q..p + q + |k|][t] == k[t] {
        assert m[q..q + |k|][t] == k[t];
        assert text[p..p + |m|][q + t] == m[q + t];
      }
    }
    ContainsIffOccurs(text, k);
  }

  /** A string that occurs inside `b` occurs inside `a + b + c`. */
  lemma ContainsInfix(a: string, b: string, c: string, k: string)
    requires Contains(b, k)
    ensures Contains(a + b + c, k)
  {
    ContainsIffOccurs(b, k);
    var q: nat :| SliceAt(b, k, q);
    var s := a + b + c;
    assert SliceAt(s, k, |a| + q) by {
      assert s[|a| + q..|a| + q + |k|] == b[q..q + |k|];
    }
    ContainsIffOccurs(s, k);
  }

  /** Every string contains itself. */
  lemma ContainsSelf(s: string)
    ensures Contains(s, s)
  {
    assert SliceAt(s, s, 0);
    ContainsIffOccurs(s, s);
  }

  /** Only a string no longer than `text` can occur in it. */
  lemma ContainsNeedsRoom(text: string, k: string)
    requires Contains(text, k)
    ensures |k| <= |text|
  {
    ContainsIffOccurs(text, k);
  }

  /** A string with a character `text` lacks cannot occur in it. */
  lemma MissingCharNotContained(text: string, k: string, c: char)
    requires c in k && forall i :: 0 <= i < |text| ==> text[i] != c
    ensures !Contains(text, k)
  {
    ContainsIffOccurs(text, k);
    var j :| 0 <= j < |k| && k[j] == c;
    forall p: nat
      ensures !SliceAt(text, k, p)
    {
      if p + |k| <= |text| {
        assert text[p..p + |k|][j] == text[p + j];
      }
    }
  }
}
