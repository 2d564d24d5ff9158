/**
 * Substring search on `seq<char>`. The same test appears as Python's `x in s`,
 * Rust's `str::contains`, jq's `contains` on strings and the literal prefixes
 * the import rewriter looks for; it is defined once here.
 */
module Strings {

  /** `t` occurs in `s` starting at index `i`. */
  predicate OccursAt(s: string, t: string, i: nat)
  {
    i + |t| <= |s| && s[i..i + |t|] == t
  }

  /** `t` is a substring of `s`, searched from the left. */
  function HasSubstring(s: string, t: string): (r: bool)
    decreases |s|
  {
    if |t| > |s| then false
    else if s[..|t|] == t then true
    else |s| > 0 && HasSubstring(s[1..], t)
  }

  /** The recursive search agrees with the declarative reading: some index holds an occurrence. */
  lemma {:induction false} HasSubstringIff(s: string, t: string)
    ensures HasSubstring(s, t) <==> exists i: nat :: OccursAt(s, t, i)
    decreases |s|
  {
    if |t| > |s| {
      forall i: nat ensures !OccursAt(s, t, i) { }
    } else if s[..|t|] == t {
      assert OccursAt(s, t, 0);
    } else {
      HasSubstringIff(s[1..], t);
      if HasSubstring(s[1..], t) {
        var i: nat :| OccursAt(s[1..], t, i);
        assert s[i + 1..i + 1 + |t|] == s[1..][i..i + |t|];
        assert OccursAt(s, t, i + 1);
      } else {
        forall i: nat | OccursAt(s, t, i) ensures false {
          assert i != 0;
          assert s[1..][i - 1..i - 1 + |t|] == s[i..i + |t|];
          assert OccursAt(s[1..], t, i - 1);
        }
      }
    }
  }

  /** Nothing occurs in a string shorter than itself; in particular not in the empty string. */
  lemma NoOccurrenceInShorter(s: string, t: string)
    requires |s| < |t|
    ensures !HasSubstring(s, t)
  {
  }

  /**
   * A string `t` occurs in `a + [c] + b` only if it occurs in `a`, occurs in `b`,
   * or contains the separating character `c`.
   */
  lemma SplitAtForeignChar(a: string, c: char, b: string, t: string)
    ensures HasSubstring(a + [c] + b, t) ==> HasSubstring(a, t) || HasSubstring(b, t) || c in t
  {
    var s := a + [c] + b;
    if HasSubstring(s, t) {
      HasSubstringIff(s, t);
      var i: nat :| OccursAt(s, t, i);
      if i + |t| <= |a| {
        assert s[i..i + |t|] == a[i..i + |t|];
        assert OccursAt(a, t, i);
        HasSubstringIff(a, t);
      } else if i > |a| {
        var j := i - |a| - 1;
        assert s[i..i + |t|] == b[j..j + |t|];
        assert OccursAt(b, t, j);
        HasSubstringIff(b, t);
      } else {
        assert t[|a| - i] == s[|a|] == c;
      }
    }
  }

  /**
   * A nonempty `t` occurs in `a + b` only if it occurs in `a` or its last
   * character occurs in `b`.
   */
  lemma LastCharNotInTail(a: string, b: string, t: string)
    requires |t| > 0
    ensures HasSubstring(a + b, t) ==> HasSubstring(a, t) || t[|t| - 1] in b
  {
    var s := a + b;
    if HasSubstring(s, t) {
      HasSubstringIff(s, t);
      var i: nat :| OccursAt(s, t, i);
      if i + |t| <= |a| {
        assert s[i..i + |t|] == a[i..i + |t|];
        assert OccursAt(a, t, i);
        HasSubstringIff(a, t);
      } else {
        assert t[|t| - 1] == b[i + |t| - 1 - |a|];
      }
    }
  }
}
