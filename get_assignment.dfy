/**
 * `normalize_name` from the script that prints the assignment's name:
 * JavaScript's `toLowerCase()` followed by `replace(" ", "-")`, which, with
 * a string pattern, replaces only the first occurrence.
 */
module GetAssignment {
  import opened Wrappers

  /** An ASCII capital letter. */
  predicate IsUpper(c: char)
  {
    'A' <= c <= 'Z'
  }

  /** The lower-case form of an ASCII letter; every other character is kept. */
  function LowerChar(c: char): (r: char)
    ensures !IsUpper(r)
    ensures IsUpper(c) ==> r as int == c as int + 32
    ensures !IsUpper(c) ==> r == c
  {
    if IsUpper(c) then (c as int + 32) as char else c
  }

  /** `toLowerCase()`, on ASCII letters. */
  function ToLower(s: string): string
  {
    seq(|s|, i requires 0 <= i < |s| => LowerChar(s[i]))
  }

  /** The index of the first `c` in `s`, if any. */
  function IndexOf(s: string, c: char): (r: Option<nat>)
    ensures r.None? ==> c !in s
    ensures r.Some? ==> r.value < |s| && s[r.value] == c && c !in s[..r.value]
    decreases |s|
  {
    if s == [] then None
    else if s[0] == c then Some(0)
    else
      var rest := IndexOf(s[1..], c);
      if rest.None? then None
      else
        assert s[..rest.value + 1] == [s[0]] + s[1..][..rest.value];
        Some(rest.value + 1)
  }

  /** `s.replace(from, to)` for one-character strings: the first `from` becomes `to`. */
  function ReplaceFirst(s: string, from: char, to: char): string
    decreases |s|
  {
    if s == [] then []
    else if s[0] == from then [to] + s[1..]
    else [s[0]] + ReplaceFirst(s[1..], from, to)
  }

  /** Only the character at the first `from` changes, and it becomes `to`. */
  lemma {:induction false} ReplaceFirstChangesFirstOnly(s: string, from: char, to: char)
    ensures var r := ReplaceFirst(s, from, to);
      |r| == |s| && forall i :: 0 <= i < |s| ==> r[i] == (if IndexOf(s, from) == Some(i) then to else s[i])
    decreases |s|
  {
    if s != [] && s[0] != from {
      var r := ReplaceFirst(s, from, to);
      ReplaceFirstChangesFirstOnly(s[1..], from, to);
      var rest := IndexOf(s[1..], from);
      assert IndexOf(s, from) == if rest.None? then None else Some(rest.value + 1);
      forall i | 1 <= i < |s|
        ensures r[i] == (if IndexOf(s, from) == Some(i) then to else s[i])
      {
        assert r[i] == ReplaceFirst(s[1..], from, to)[i - 1];
        assert s[i] == s[1..][i - 1];
        assert IndexOf(s, from) == Some(i) <==> rest == Some(i - 1);
      }
    }
  }

  /** `normalize_name`. */
  function NormalizeName(name: string): string
  {
    ReplaceFirst(ToLower(name), ' ', '-')
  }

  /** Lower-casing keeps spaces where they are. */
  lemma ToLowerKeepsSpaces(s: string)
    ensures IndexOf(ToLower(s), ' ') == IndexOf(s, ' ')
    ensures forall i :: 0 <= i < |s| ==> (ToLower(s)[i] == ' ' <==> s[i] == ' ')
  {
    var t := ToLower(s);
    assert forall i :: 0 <= i < |s| ==> (t[i] == ' ' <==> s[i] == ' ');
    IndexOfSamePositions(t, s, ' ');
  }

  /** Two texts with `c` at the same positions have the same first `c`. */
  lemma {:induction false} IndexOfSamePositions(a: string, b: string, c: char)
    requires |a| == |b| && forall i :: 0 <= i < |a| ==> (a[i] == c <==> b[i] == c)
    ensures IndexOf(a, c) == IndexOf(b, c)
    decreases |a|
  {
    if a != [] {
      IndexOfSamePositions(a[1..], b[1..], c);
    }
  }

  /**
   * Each character of the normalised name is the input's character lower-cased,
   * except at the first space, which becomes `-`; the length is kept.
   */
  lemma NormalizeNameChars(name: string)
    ensures var r := NormalizeName(name);
      |r| == |name| && forall i :: 0 <= i < |name| ==> r[i] == (if IndexOf(name, ' ') == Some(i) then '-' else LowerChar(name[i]))
  {
    ReplaceFirstChangesFirstOnly(ToLower(name), ' ', '-');
    ToLowerKeepsSpaces(name);
  }

  /** The normalised name has no capital letter. */
  lemma NormalizeNameNoUpper(name: string)
    ensures forall i :: 0 <= i < |NormalizeName(name)| ==> !IsUpper(NormalizeName(name)[i])
  {
    NormalizeNameChars(name);
  }

  /** A name without spaces is only lower-cased. */
  lemma NormalizeNameWithoutSpace(name: string)
    requires ' ' !in name
    ensures NormalizeName(name) == ToLower(name)
  {
    NormalizeNameChars(name);
    assert IndexOf(name, ' ') == None;
  }

  /** The name has a space at two different positions. */
  predicate TwoSpaces(s: string)
  {
    exists i, j :: 0 <= i < j < |s| && s[i] == ' ' && s[j] == ' '
  }

  /**
   * Normalising a normalised name changes it again exactly when the name
   * has two or more spaces: only the first is replaced each time.
   */
  lemma NormalizeNameIdempotentIff(name: string)
    ensures NormalizeName(NormalizeName(name)) == NormalizeName(name) <==> !TwoSpaces(name)
  {
    var r := NormalizeName(name);
    NormalizeNameChars(name);
    NormalizeNameChars(r);
    if TwoSpaces(name) {
      var i, j :| 0 <= i < j < |name| && name[i] == ' ' && name[j] == ' ';
      var first := IndexOf(name, ' ').value;
      assert first <= i < j;
      assert r[j] == ' ';
      var k := IndexOf(r, ' ');
      assert k.Some?;
      assert r[k.value] == ' ' && NormalizeName(r)[k.value] == '-';
    } else {
      match IndexOf(name, ' ') {
        case None =>
          assert forall i :: 0 <= i < |r| ==> r[i] == LowerChar(name[i]);
        case Some(f) =>
          assert forall i :: 0 <= i < |name| && i != f ==> name[i] != ' ';
          assert forall i :: 0 <= i < |r| ==> r[i] != ' ';
      }
      assert IndexOf(r, ' ') == None;
      assert NormalizeName(r) == r;
    }
  }
}
