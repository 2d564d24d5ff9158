/**
 * The text rewrites behind the import fixers: one explicit matcher per regular
 * expression the fixers use, and Python's `re.sub` as a left-to-right scan with
 * an optional replacement count.
 *
 * The regular expressions, and how each matcher decides them:
 *   my-gdrive\(["'](.*-NAME\.arr)["']\)
 *     `.*` is greedy and does not cross a newline, so the group ends at the LAST
 *     `-NAME.arr` on the line that is followed by a quote and `)`.
 *   shared-gdrive\(["'](.*?)["'].*?\n?.*?\)
 *     the lazy group stops at the first quote on the line; the tail then reaches
 *     the first `)` after that quote, provided at most one newline lies between.
 *   gdrive-js\(["'](.*?)\.js["'].*?\n?.*?\)
 *     as above, the group stopping at the first `.js` plus quote on the line.
 *   use context essentials2021
 *     a plain literal.
 * The lemmas *IsLeftmost* and *IsGreedy* below prove that each matcher returns the
 * match a backtracking regex engine prefers, stated against a declarative
 * description of what the pattern accepts.
 */
module Rewrite {
  import opened Wrappers
  import opened Strings

  const MyGdriveOpen: string := "my-gdrive("
  const SharedGdriveOpen: string := "shared-gdrive("
  const GdriveJsOpen: string := "gdrive-js("
  const UseContext: string := "use context essentials2021"

  /** The value of Python's `re.M` (`re.MULTILINE`), which the fixers pass where `re.sub` expects `count`. */
  const ReMultiline: nat := 8

  /** The character class `["']`. */
  predicate IsQuote(c: char)
  {
    c == '"' || c == '\''
  }

  /** One of the four patterns the fixers substitute. */
  datatype Pattern = MyGdrive(name: string) | SharedGdrive | GdriveJs | UseContextLine

  /** A match: the text `s[start..end]` of which `s[groupStart..groupEnd]` is group 1. */
  datatype Span = Span(groupStart: nat, groupEnd: nat, end: nat)

  /** A replacement: fixed text, or group 1 wrapped in fixed text (`...\1...`). */
  datatype Template = Fixed(text: string) | Around(before: string, after: string)

  /** `re.sub`'s `count`: 0 in Python means no limit. */
  datatype Limit = Unlimited | AtMost(n: nat)

  // ---------------------------------------------------------------------------
  // Scanning helpers

  /** No newline in `s[a..b]`. */
  ghost predicate NoNewline(s: string, a: nat, b: nat)
    requires a <= b <= |s|
  {
    forall j :: a <= j < b ==> s[j] != '\n'
  }

  /** The first newline at or after `from`, or `|s|`: where `.` stops. */
  function LineEnd(s: string, from: nat): (r: nat)
    requires from <= |s|
    ensures from <= r <= |s| && NoNewline(s, from, r)
    ensures r < |s| ==> s[r] == '\n'
    decreases |s| - from
  {
    if from == |s| || s[from] == '\n' then from else LineEnd(s, from + 1)
  }

  /** A newline-free stretch starting at `from` ends no later than the line does. */
  lemma {:induction false} WithinLine(s: string, from: nat, k: nat)
    requires from <= k <= |s| && NoNewline(s, from, k)
    ensures k <= LineEnd(s, from)
    decreases |s| - from
  {
    if k > from && s[from] != '\n' {
      WithinLine(s, from + 1, k);
    }
  }

  /** A stretch inside a newline-free stretch has no newline. */
  lemma NoNewlineWithin(s: string, a: nat, b: nat, c: nat, d: nat)
    requires a <= c <= d <= b <= |s| && NoNewline(s, a, b)
    ensures NoNewline(s, c, d)
  {
  }

  /** The number of newlines in `s[a..b]`. */
  function Newlines(s: string, a: nat, b: nat): nat
    requires a <= b <= |s|
    decreases b - a
  {
    if a == b then 0 else (if s[b - 1] == '\n' then 1 else 0) + Newlines(s, a, b - 1)
  }

  lemma {:induction false} NewlinesSplit(s: string, a: nat, b: nat, c: nat)
    requires a <= b <= c <= |s|
    ensures Newlines(s, a, c) == Newlines(s, a, b) + Newlines(s, b, c)
    decreases c - b
  {
    if b < c {
      NewlinesSplit(s, a, b, c - 1);
    }
  }

  lemma {:induction false} NoNewlineCount(s: string, a: nat, b: nat)
    requires a <= b <= |s| && NoNewline(s, a, b)
    ensures Newlines(s, a, b) == 0
    decreases b - a
  {
    if a < b {
      NoNewlineCount(s, a, b - 1);
    }
  }

  /** The first quote in `s[from..lim]`. */
  function FirstQuote(s: string, from: nat, lim: nat): (r: Option<nat>)
    requires from <= lim <= |s|
    ensures r.Some? ==> from <= r.value < lim && IsQuote(s[r.value])
    ensures r.Some? ==> forall j :: from <= j < r.value ==> !IsQuote(s[j])
    ensures r.None? ==> forall j :: from <= j < lim ==> !IsQuote(s[j])
    decreases lim - from
  {
    if from == lim then None
    else if IsQuote(s[from]) then Some(from)
    else FirstQuote(s, from + 1, lim)
  }

  /** The first `)` at or after `from`. */
  function FirstClose(s: string, from: nat): (r: Option<nat>)
    requires from <= |s|
    ensures r.Some? ==> from <= r.value < |s| && s[r.value] == ')'
    ensures r.Some? ==> forall j :: from <= j < r.value ==> s[j] != ')'
    ensures r.None? ==> forall j :: from <= j < |s| ==> s[j] != ')'
    decreases |s| - from
  {
    if from == |s| then None
    else if s[from] == ')' then Some(from)
    else FirstClose(s, from + 1)
  }

  /** `\.js["']` matches at `j`. */
  predicate JsEnd(s: string, j: nat)
  {
    j + 4 <= |s| && s[j] == '.' && s[j + 1] == 'j' && s[j + 2] == 's' && IsQuote(s[j + 3])
  }

  /** The first `j` in `[from, lim)` where `\.js["']` matches. */
  function FirstJsEnd(s: string, from: nat, lim: nat): (r: Option<nat>)
    requires from <= lim <= |s|
    ensures r.Some? ==> from <= r.value < lim && JsEnd(s, r.value)
    ensures r.Some? ==> forall j :: from <= j < r.value ==> !JsEnd(s, j)
    ensures r.None? ==> forall j :: from <= j < lim ==> !JsEnd(s, j)
    decreases lim - from
  {
    if from == lim then None
    else if JsEnd(s, from) then Some(from)
    else FirstJsEnd(s, from + 1, lim)
  }

  /** The literal part `-NAME.arr` that ends the my-gdrive group. */
  function ArrSuffix(name: string): string
  {
    "-" + name + ".arr"
  }

  /** `-NAME\.arr["']\)` matches at `j`. */
  predicate ArrTail(s: string, j: nat, name: string)
  {
    var n := |ArrSuffix(name)|;
    j + n + 2 <= |s| && OccursAt(s, ArrSuffix(name), j) && IsQuote(s[j + n]) && s[j + n + 1] == ')'
  }

  /** The last `j` in `[from, k]` where `ArrTail` holds. */
  function LastArrTail(s: string, from: nat, k: nat, name: string): (r: Option<nat>)
    requires from <= k
    ensures r.Some? ==> from <= r.value <= k && ArrTail(s, r.value, name)
    ensures r.Some? ==> forall j :: r.value < j <= k ==> !ArrTail(s, j, name)
    ensures r.None? ==> forall j :: from <= j <= k ==> !ArrTail(s, j, name)
    decreases k - from
  {
    if ArrTail(s, k, name) then Some(k)
    else if k == from then None
    else LastArrTail(s, from, k - 1, name)
  }

  /**
   * The tail `.*?\n?.*?\)` matched from `p`: it ends just after the first `)` at
   * or after `p`, and only if at most one newline lies before that `)`.
   */
  function Tail(s: string, p: nat): (r: Option<nat>)
    requires p <= |s|
  {
    match FirstClose(s, p)
    case None => None
    case Some(q) => if Newlines(s, p, q) <= 1 then Some(q + 1) else None
  }

  // ---------------------------------------------------------------------------
  // The matchers

  /** The match of `pat` starting exactly at index `i` of `s`, if any. */
  function Match(pat: Pattern, s: string, i: nat): (r: Option<Span>)
    requires i <= |s|
    ensures r.Some? ==> i < r.value.end <= |s|
    ensures r.Some? ==> r.value.groupStart <= r.value.groupEnd <= r.value.end
  {
    match pat
    case MyGdrive(name) =>
      var o := i + |MyGdriveOpen| + 1;
      if OccursAt(s, MyGdriveOpen, i) && o <= |s| && IsQuote(s[o - 1]) then
        match LastArrTail(s, o, LineEnd(s, o), name)
        case Some(k) => var g := k + |ArrSuffix(name)|; Some(Span(o, g, g + 2))
        case None => None
      else None
    case SharedGdrive =>
      var o := i + |SharedGdriveOpen| + 1;
      if OccursAt(s, SharedGdriveOpen, i) && o <= |s| && IsQuote(s[o - 1]) then
        match FirstQuote(s, o, LineEnd(s, o))
        case Some(j) =>
          (match Tail(s, j + 1)
           case Some(e) => Some(Span(o, j, e))
           case None => None)
        case None => None
      else None
    case GdriveJs =>
      var o := i + |GdriveJsOpen| + 1;
      if OccursAt(s, GdriveJsOpen, i) && o <= |s| && IsQuote(s[o - 1]) then
        match FirstJsEnd(s, o, LineEnd(s, o))
        case Some(j) =>
          (match Tail(s, j + 4)
           case Some(e) => Some(Span(o, j, e))
           case None => None)
        case None => None
      else None
    case UseContextLine =>
      if OccursAt(s, UseContext, i) then Some(Span(i, i + |UseContext|, i + |UseContext|)) else None
  }

  // ---------------------------------------------------------------------------
  // What each pattern accepts, stated without the search order

  /** `my-gdrive\(["'](.*-NAME\.arr)["']\)` matches at `i` with `.*` covering `s[i+11..k]`. */
  ghost predicate MyGdriveShape(s: string, i: nat, name: string, k: nat)
  {
    var o := i + |MyGdriveOpen| + 1;
    OccursAt(s, MyGdriveOpen, i) && o <= k <= |s| && IsQuote(s[o - 1])
    && NoNewline(s, o, k) && ArrTail(s, k, name)
  }

  /** `shared-gdrive\(["'](.*?)["'].*?\n?.*?\)` matches at `i`, the group ending at `j`, the `)` at `q`. */
  ghost predicate SharedShape(s: string, i: nat, j: nat, q: nat)
  {
    var o := i + |SharedGdriveOpen| + 1;
    OccursAt(s, SharedGdriveOpen, i) && o <= j < q < |s| && IsQuote(s[o - 1])
    && NoNewline(s, o, j) && IsQuote(s[j]) && s[q] == ')' && Newlines(s, j + 1, q) <= 1
  }

  /** `gdrive-js\(["'](.*?)\.js["'].*?\n?.*?\)` matches at `i`, the group ending at `j`, the `)` at `q`. */
  ghost predicate JsShape(s: string, i: nat, j: nat, q: nat)
  {
    var o := i + |GdriveJsOpen| + 1;
    OccursAt(s, GdriveJsOpen, i) && o <= j && j + 4 <= q < |s| && IsQuote(s[o - 1])
    && NoNewline(s, o, j) && JsEnd(s, j) && s[q] == ')' && Newlines(s, j + 4, q) <= 1
  }

  /** A my-gdrive match is an accepted shape whose group runs as far as the line allows. */
  lemma MyGdriveMatchIsShape(s: string, i: nat, name: string)
    requires i <= |s|
    ensures var r := Match(MyGdrive(name), s, i);
      r.Some? ==> (r.value.groupEnd >= |ArrSuffix(name)|
        && MyGdriveShape(s, i, name, r.value.groupEnd - |ArrSuffix(name)|)
        && r.value.groupStart == i + |MyGdriveOpen| + 1 && r.value.end == r.value.groupEnd + 2)
  {
  }

  /** Every accepted my-gdrive shape is found, and the match's group is at least as long (greedy `.*`). */
  lemma MyGdriveShapeIsMatched(s: string, i: nat, name: string, k: nat)
    requires i <= |s| && MyGdriveShape(s, i, name, k)
    ensures var r := Match(MyGdrive(name), s, i);
      r.Some? && k + |ArrSuffix(name)| <= r.value.groupEnd
  {
    var o := i + |MyGdriveOpen| + 1;
    var line := LineEnd(s, o);
    WithinLine(s, o, k);
  }

  /** The my-gdrive matcher returns exactly the match Python's regex engine prefers. */
  lemma MyGdriveIsGreedy(s: string, i: nat, name: string)
    requires i <= |s|
    ensures Match(MyGdrive(name), s, i).Some? <==> exists k: nat :: MyGdriveShape(s, i, name, k)
    ensures var r := Match(MyGdrive(name), s, i);
      r.Some? ==> forall k: nat :: MyGdriveShape(s, i, name, k) ==> k + |ArrSuffix(name)| <= r.value.groupEnd
    ensures var r := Match(MyGdrive(name), s, i);
      r.Some? ==> (r.value.groupEnd >= |ArrSuffix(name)|
        && MyGdriveShape(s, i, name, r.value.groupEnd - |ArrSuffix(name)|)
        && r.value.groupStart == i + |MyGdriveOpen| + 1 && r.value.end == r.value.groupEnd + 2)
  {
    MyGdriveMatchIsShape(s, i, name);
    forall k: nat | MyGdriveShape(s, i, name, k)
      ensures Match(MyGdrive(name), s, i).Some?
      ensures k + |ArrSuffix(name)| <= Match(MyGdrive(name), s, i).value.groupEnd
    {
      MyGdriveShapeIsMatched(s, i, name, k);
    }
  }

  /** A shared-gdrive match is an accepted shape. */
  lemma SharedMatchIsShape(s: string, i: nat)
    requires i <= |s|
    ensures var r := Match(SharedGdrive, s, i);
      r.Some? ==> (r.value.end >= 1 && SharedShape(s, i, r.value.groupEnd, r.value.end - 1)
        && r.value.groupStart == i + |SharedGdriveOpen| + 1)
  {
  }

  /** Where a `)` follows `p` with at most one newline before it, the tail `.*?\n?.*?\)` matches from `p`, ending no later. */
  lemma TailWithin(s: string, p: nat, p2: nat, q: nat)
    requires p <= p2 <= q < |s| && NoNewline(s, p, p2) && s[q] == ')' && Newlines(s, p2, q) <= 1
    ensures Tail(s, p).Some? && Tail(s, p).value <= q + 1
  {
    NoNewlineCount(s, p, p2);
    NewlinesSplit(s, p, p2, q);
    var q0 := FirstClose(s, p).value;
    NewlinesSplit(s, p, q0, q);
  }

  /** The searches of the shared-gdrive matcher succeed on an accepted shape, no later than the shape's own group end and `)`. */
  lemma SharedSearchesSucceed(s: string, i: nat, j: nat, q: nat)
    requires i <= |s| && SharedShape(s, i, j, q)
    ensures var o := i + |SharedGdriveOpen| + 1;
      o <= |s| && var f := FirstQuote(s, o, LineEnd(s, o));
      f.Some? && f.value <= j && Tail(s, f.value + 1).Some?
      && (f.value == j ==> Tail(s, f.value + 1).value <= q + 1)
  {
    var o := i + |SharedGdriveOpen| + 1;
    var line := LineEnd(s, o);
    WithinLine(s, o, j + 1);
    var j0 := FirstQuote(s, o, line).value;
    NoNewlineWithin(s, o, line, j0 + 1, j + 1);
    TailWithin(s, j0 + 1, j + 1, q);
  }

  /**
   * Every accepted shared-gdrive shape is found, and the match's group is no
   * longer (lazy `.*?`), its `)` no later for the same group.
   */
  lemma SharedShapeIsMatched(s: string, i: nat, j: nat, q: nat)
    requires i <= |s| && SharedShape(s, i, j, q)
    ensures var r := Match(SharedGdrive, s, i);
      r.Some? && r.value.groupEnd <= j && (r.value.groupEnd == j ==> r.value.end <= q + 1)
  {
    SharedSearchesSucceed(s, i, j, q);
  }

  /** The shared-gdrive matcher returns exactly the match Python's regex engine prefers. */
  lemma SharedIsLeftmostShortest(s: string, i: nat)
    requires i <= |s|
    ensures Match(SharedGdrive, s, i).Some? <==> exists j: nat, q: nat :: SharedShape(s, i, j, q)
    ensures var r := Match(SharedGdrive, s, i);
      r.Some? ==> forall j: nat, q: nat :: SharedShape(s, i, j, q) ==>
        r.value.groupEnd <= j && (r.value.groupEnd == j ==> r.value.end <= q + 1)
    ensures var r := Match(SharedGdrive, s, i);
      r.Some? ==> (r.value.end >= 1 && SharedShape(s, i, r.value.groupEnd, r.value.end - 1)
        && r.value.groupStart == i + |SharedGdriveOpen| + 1)
  {
    SharedMatchIsShape(s, i);
    forall j: nat, q: nat | SharedShape(s, i, j, q)
      ensures Match(SharedGdrive, s, i).Some?
      ensures var r := Match(SharedGdrive, s, i).value;
        r.groupEnd <= j && (r.groupEnd == j ==> r.end <= q + 1)
    {
      SharedShapeIsMatched(s, i, j, q);
    }
  }

  /** A gdrive-js match is an accepted shape; its group is the script name without `.js`. */
  lemma JsMatchIsShape(s: string, i: nat)
    requires i <= |s|
    ensures var r := Match(GdriveJs, s, i);
      r.Some? ==> (r.value.end >= 1 && JsShape(s, i, r.value.groupEnd, r.value.end - 1)
        && r.value.groupStart == i + |GdriveJsOpen| + 1)
  {
  }

  /** The searches of the gdrive-js matcher succeed on an accepted shape, no later than the shape's own group end and `)`. */
  lemma JsSearchesSucceed(s: string, i: nat, j: nat, q: nat)
    requires i <= |s| && JsShape(s, i, j, q)
    ensures var o := i + |GdriveJsOpen| + 1;
      o <= |s| && var f := FirstJsEnd(s, o, LineEnd(s, o));
      f.Some? && f.value <= j && f.value + 4 <= |s| && Tail(s, f.value + 4).Some?
      && (f.value == j ==> Tail(s, f.value + 4).value <= q + 1)
  {
    var o := i + |GdriveJsOpen| + 1;
    var line := LineEnd(s, o);
    assert NoNewline(s, o, j + 4);
    WithinLine(s, o, j + 4);
    var j0 := FirstJsEnd(s, o, line).value;
    NoNewlineWithin(s, o, line, j0 + 4, j + 4);
    TailWithin(s, j0 + 4, j + 4, q);
  }

  /** Every accepted gdrive-js shape is found; the match's group is no longer, its `)` no later. */
  lemma JsShapeIsMatched(s: string, i: nat, j: nat, q: nat)
    requires i <= |s| && JsShape(s, i, j, q)
    ensures var r := Match(GdriveJs, s, i);
      r.Some? && r.value.groupEnd <= j && (r.value.groupEnd == j ==> r.value.end <= q + 1)
  {
    JsSearchesSucceed(s, i, j, q);
  }

  /** The gdrive-js matcher returns exactly the match Python's regex engine prefers. */
  lemma JsIsLeftmostShortest(s: string, i: nat)
    requires i <= |s|
    ensures Match(GdriveJs, s, i).Some? <==> exists j: nat, q: nat :: JsShape(s, i, j, q)
    ensures var r := Match(GdriveJs, s, i);
      r.Some? ==> forall j: nat, q: nat :: JsShape(s, i, j, q) ==>
        r.value.groupEnd <= j && (r.value.groupEnd == j ==> r.value.end <= q + 1)
    ensures var r := Match(GdriveJs, s, i);
      r.Some? ==> (r.value.end >= 1 && JsShape(s, i, r.value.groupEnd, r.value.end - 1)
        && r.value.groupStart == i + |GdriveJsOpen| + 1)
  {
    JsMatchIsShape(s, i);
    forall j: nat, q: nat | JsShape(s, i, j, q)
      ensures Match(GdriveJs, s, i).Some?
      ensures var r := Match(GdriveJs, s, i).value;
        r.groupEnd <= j && (r.groupEnd == j ==> r.end <= q + 1)
    {
      JsShapeIsMatched(s, i, j, q);
    }
  }

  // ---------------------------------------------------------------------------
  // Substitution

  /** The text a match is replaced by. */
  function Expand(t: Template, s: string, m: Span): string
    requires m.groupStart <= m.groupEnd <= |s|
  {
    match t
    case Fixed(text) => text
    case Around(before, after) => before + s[m.groupStart..m.groupEnd] + after
  }

  /** One replacement fewer allowed. */
  function Decrement(limit: Limit): Limit
  {
    match limit
    case Unlimited => Unlimited
    case AtMost(n) => if n == 0 then AtMost(0) else AtMost(n - 1)
  }

  /** `re.sub(pat, t, s[pos..], count)`, scanning `s` from `pos` with `limit` replacements left. */
  function SubFrom(s: string, pat: Pattern, t: Template, pos: nat, limit: Limit): string
    requires pos <= |s|
    decreases |s| - pos
  {
    if pos == |s| || limit == AtMost(0) then s[pos..]
    else
      match Match(pat, s, pos)
      case Some(m) => Expand(t, s, m) + SubFrom(s, pat, t, m.end, Decrement(limit))
      case None => [s[pos]] + SubFrom(s, pat, t, pos + 1, limit)
  }

  /** `re.sub(pat, t, s, count)`: a count of 0 means every match is replaced. */
  function Sub(s: string, pat: Pattern, t: Template, count: nat): string
  {
    SubFrom(s, pat, t, 0, if count == 0 then Unlimited else AtMost(count))
  }

  /** A list of matches, each given with its start, in increasing order and not overlapping, all after `pos`. */
  predicate Chain(s: string, pos: nat, ms: seq<(nat, Span)>)
    decreases |ms|
  {
    pos <= |s| &&
    (ms == [] ||
     (pos <= ms[0].0 < ms[0].1.end <= |s| && ms[0].1.groupStart <= ms[0].1.groupEnd <= ms[0].1.end
      && Chain(s, ms[0].1.end, ms[1..])))
  }

  /** The matches an unlimited `re.sub` replaces, scanning `s` from `pos`. */
  function Matches(pat: Pattern, s: string, pos: nat): (r: seq<(nat, Span)>)
    requires pos <= |s|
    ensures Chain(s, pos, r)
    ensures forall k :: 0 <= k < |r| ==> r[k].0 <= |s| && Match(pat, s, r[k].0) == Some(r[k].1)
    decreases |s| - pos
  {
    if pos == |s| then []
    else
      match Match(pat, s, pos)
      case Some(m) => [(pos, m)] + Matches(pat, s, m.end)
      case None => Matches(pat, s, pos + 1)
  }

  /** `s[pos..]` with each listed match replaced by its expansion and everything else copied. */
  function Splice(s: string, t: Template, pos: nat, ms: seq<(nat, Span)>): string
    requires Chain(s, pos, ms)
    decreases |ms|
  {
    if ms == [] then s[pos..]
    else s[pos..ms[0].0] + Expand(t, s, ms[0].1) + Splice(s, t, ms[0].1.end, ms[1..])
  }

  /** The matches a limit lets through: all of them, or the first `n`. */
  function Take(ms: seq<(nat, Span)>, limit: Limit): (r: seq<(nat, Span)>)
    ensures r <= ms
    ensures limit.AtMost? ==> |r| == if |ms| <= limit.n then |ms| else limit.n
    ensures limit.Unlimited? ==> r == ms
  {
    match limit
    case Unlimited => ms
    case AtMost(n) => if |ms| <= n then ms else ms[..n]
  }

  lemma {:induction false} ChainPrefix(s: string, pos: nat, ms: seq<(nat, Span)>, n: nat)
    requires Chain(s, pos, ms) && n <= |ms|
    ensures Chain(s, pos, ms[..n])
    decreases |ms|
  {
    if n > 0 {
      assert ms[..n][1..] == ms[1..][..n - 1];
      ChainPrefix(s, ms[0].1.end, ms[1..], n - 1);
    }
  }

  /** A chain that starts after `pos + 1` can be spliced from `pos + 1`, copying `s[pos]` first. */
  lemma {:induction false} SpliceCopiesGap(s: string, t: Template, pos: nat, ms: seq<(nat, Span)>)
    requires pos < |s| && Chain(s, pos + 1, ms)
    ensures Chain(s, pos, ms)
    ensures Splice(s, t, pos, ms) == [s[pos]] + Splice(s, t, pos + 1, ms)
  {
    if ms == [] {
      assert s[pos..] == [s[pos]] + s[pos + 1..];
    } else {
      var rest := Splice(s, t, ms[0].1.end, ms[1..]);
      var e := Expand(t, s, ms[0].1);
      assert s[pos..ms[0].0] == [s[pos]] + s[pos + 1..ms[0].0];
      calc {
        Splice(s, t, pos, ms);
        s[pos..ms[0].0] + e + rest;
        ([s[pos]] + s[pos + 1..ms[0].0]) + e + rest;
        [s[pos]] + (s[pos + 1..ms[0].0] + e + rest);
        [s[pos]] + Splice(s, t, pos + 1, ms);
      }
    }
  }

  /** Taking from a list headed by a match keeps that match when the limit allows one. */
  lemma TakeCons(m: (nat, Span), rest: seq<(nat, Span)>, limit: Limit)
    requires limit != AtMost(0)
    ensures Take([m] + rest, limit) == [m] + Take(rest, Decrement(limit))
  {
    if limit.AtMost? && |rest| + 1 > limit.n {
      assert ([m] + rest)[..limit.n] == [m] + rest[..limit.n - 1];
    }
  }

  /** One step of the scan where a match starts at `pos`. */
  lemma ScanStepMatch(s: string, pat: Pattern, t: Template, pos: nat, limit: Limit, m: Span)
    requires pos < |s| && limit != AtMost(0) && Match(pat, s, pos) == Some(m)
    ensures SubFrom(s, pat, t, pos, limit) == Expand(t, s, m) + SubFrom(s, pat, t, m.end, Decrement(limit))
    ensures Matches(pat, s, pos) == [(pos, m)] + Matches(pat, s, m.end)
  {
  }

  /** One step of the scan where no match starts at `pos`. */
  lemma ScanStepCopy(s: string, pat: Pattern, t: Template, pos: nat, limit: Limit)
    requires pos < |s| && limit != AtMost(0) && Match(pat, s, pos).None?
    ensures SubFrom(s, pat, t, pos, limit) == [s[pos]] + SubFrom(s, pat, t, pos + 1, limit)
    ensures Matches(pat, s, pos) == Matches(pat, s, pos + 1)
  {
  }

  lemma EmptySlicePrefix(s: string, pos: nat, e: string, tail: string)
    requires pos <= |s|
    ensures s[pos..pos] + e + tail == e + tail
  {
    assert s[pos..pos] == [];
  }

  /** The scan equals the splice after a match at `pos`: the match is replaced, and the scan goes on from its end. */
  lemma {:induction false} SpliceAfterMatch(s: string, pat: Pattern, t: Template, pos: nat, limit: Limit, m: Span)
    requires pos < |s| && limit != AtMost(0) && Match(pat, s, pos) == Some(m)
    ensures Chain(s, pos, Take(Matches(pat, s, pos), limit))
    ensures SubFrom(s, pat, t, pos, limit) == Splice(s, t, pos, Take(Matches(pat, s, pos), limit))
    decreases |s| - pos, 0
  {
    ScanStepMatch(s, pat, t, pos, limit, m);
    SubReplacesFirstMatches(s, pat, t, m.end, Decrement(limit));
    var rest := Take(Matches(pat, s, m.end), Decrement(limit));
    TakeCons((pos, m), Matches(pat, s, m.end), limit);
    var taken := [(pos, m)] + rest;
    assert taken[0] == (pos, m) && taken[1..] == rest;
    var e := Expand(t, s, m);
    var tail := Splice(s, t, m.end, rest);
    assert Splice(s, t, pos, taken) == s[pos..pos] + e + tail;
    EmptySlicePrefix(s, pos, e, tail);
  }

  /** The scan equals the splice after copying `s[pos]`, where no match starts, and going on from `pos + 1`. */
  lemma {:induction false} SpliceAfterCopy(s: string, pat: Pattern, t: Template, pos: nat, limit: Limit)
    requires pos < |s| && limit != AtMost(0) && Match(pat, s, pos).None?
    ensures Chain(s, pos, Take(Matches(pat, s, pos), limit))
    ensures SubFrom(s, pat, t, pos, limit) == Splice(s, t, pos, Take(Matches(pat, s, pos), limit))
    decreases |s| - pos, 0
  {
    ScanStepCopy(s, pat, t, pos, limit);
    SubReplacesFirstMatches(s, pat, t, pos + 1, limit);
    SpliceCopiesGap(s, t, pos, Take(Matches(pat, s, pos + 1), limit));
  }

  /**
   * `re.sub` with a limit replaces exactly the first matches of the unlimited
   * scan, as many as the limit allows, and copies every other character.
   */
  lemma {:induction false} SubReplacesFirstMatches(s: string, pat: Pattern, t: Template, pos: nat, limit: Limit)
    requires pos <= |s|
    ensures Chain(s, pos, Take(Matches(pat, s, pos), limit))
    ensures SubFrom(s, pat, t, pos, limit) == Splice(s, t, pos, Take(Matches(pat, s, pos), limit))
    decreases |s| - pos, 1
  {
    if pos == |s| {
      assert Matches(pat, s, pos) == [];
    } else if limit == AtMost(0) {
      assert Take(Matches(pat, s, pos), limit) == [];
    } else {
      var r := Match(pat, s, pos);
      if r.Some? {
        SpliceAfterMatch(s, pat, t, pos, limit, r.value);
      } else {
        SpliceAfterCopy(s, pat, t, pos, limit);
      }
    }
  }

  /** A count of 8 (the value `re.M` supplies) replaces only the first 8 matches of the scan. */
  lemma SubWithCountReplacesFirst(s: string, pat: Pattern, t: Template, count: nat)
    requires count > 0
    ensures var ms := Matches(pat, s, 0);
      var taken := if |ms| <= count then ms else ms[..count];
      Chain(s, 0, taken) && Sub(s, pat, t, count) == Splice(s, t, 0, taken)
  {
    SubReplacesFirstMatches(s, pat, t, 0, AtMost(count));
  }

  /** With count 0 every match of the scan is replaced. */
  lemma SubUnlimitedReplacesAll(s: string, pat: Pattern, t: Template)
    ensures Sub(s, pat, t, 0) == Splice(s, t, 0, Matches(pat, s, 0))
  {
    SubReplacesFirstMatches(s, pat, t, 0, Unlimited);
  }

  /** A count no smaller than the number of matches makes no difference. */
  lemma FewerMatchesThanCount(s: string, pat: Pattern, t: Template, count: nat)
    requires |Matches(pat, s, 0)| <= count
    ensures Sub(s, pat, t, count) == Sub(s, pat, t, 0)
  {
    SubReplacesFirstMatches(s, pat, t, 0, AtMost(count));
    SubReplacesFirstMatches(s, pat, t, 0, Unlimited);
  }

  /** When the pattern matches nowhere, the scan lists no match. */
  lemma {:induction false} NoMatchNoMatches(s: string, pat: Pattern, pos: nat)
    requires pos <= |s|
    requires forall k :: pos <= k <= |s| ==> Match(pat, s, k).None?
    ensures Matches(pat, s, pos) == []
    decreases |s| - pos
  {
    if pos < |s| {
      NoMatchNoMatches(s, pat, pos + 1);
    }
  }

  /** When the pattern matches nowhere, `re.sub` returns its input unchanged, whatever the count. */
  lemma NoMatchUnchanged(s: string, pat: Pattern, t: Template, count: nat)
    requires forall k :: 0 <= k <= |s| ==> Match(pat, s, k).None?
    ensures Sub(s, pat, t, count) == s
  {
    NoMatchNoMatches(s, pat, 0);
    SubReplacesFirstMatches(s, pat, t, 0, if count == 0 then Unlimited else AtMost(count));
  }

  // ---------------------------------------------------------------------------
  // The rewrites the fixers perform

  /** `file("DIR/NAMEEXT")`: the reference every rewrite produces. */
  function FileRef(dir: string, name: string, ext: string): string
  {
    "file(\"" + dir + "/" + name + ext + "\")"
  }

  /** The template `file("DIR/\1EXT")`, reusing group 1 as the file name. */
  function FileTemplate(dir: string, ext: string): Template
  {
    Around("file(\"" + dir + "/", ext + "\")")
  }

  /** The template `fix_import` uses: the given file name if one is given and nonempty, else group 1. */
  function ImportTemplate(relLoc: string, filename: Option<string>): Template
  {
    if filename.Some? && filename.value != "" then Fixed(FileRef(relLoc, filename.value, ""))
    else FileTemplate(relLoc, "")
  }

  /** The line `fix_provide` puts in place of each `use context essentials2021`. */
  function ProvideLine(names: string): string
  {
    UseContext + "\nprovide " + names + " end"
  }

  /** `fix_import`: every my-gdrive reference to `-NAME.arr` becomes a file reference under `relLoc`. */
  function FixImportText(content: string, name: string, relLoc: string, filename: Option<string>): string
  {
    Sub(content, MyGdrive(name), ImportTemplate(relLoc, filename), 0)
  }

  /** The first substitution of `finalize`: shared-gdrive references, count `re.M`. */
  function ResolveSharedText(content: string, relStencil: string): string
  {
    Sub(content, SharedGdrive, FileTemplate(relStencil, ""), ReMultiline)
  }

  /** The second substitution of `finalize`: gdrive-js references become `.arr` files, count `re.M`. */
  function ResolveScriptText(content: string, relStencil: string): string
  {
    Sub(content, GdriveJs, FileTemplate(relStencil, ".arr"), ReMultiline)
  }

  /** `fix_provide`: a provide line after every `use context essentials2021`. */
  function ProvideText(content: string, names: string): string
  {
    Sub(content, UseContextLine, Fixed(ProvideLine(names)), 0)
  }

  /**
   * What `fix_import` makes of a my-gdrive match `m`: its argument ends in
   * `-NAME.arr`, and it is replaced by `file("REL/F")`, where `F` is the given
   * file name when there is one and otherwise the whole quoted argument.
   */
  predicate ImportRewrite(content: string, name: string, relLoc: string, filename: Option<string>, m: Span)
  {
    m.groupStart <= m.groupEnd <= |content|
    && var arg := content[m.groupStart..m.groupEnd];
    |arg| >= |ArrSuffix(name)| && arg[|arg| - |ArrSuffix(name)|..] == ArrSuffix(name)
    && Expand(ImportTemplate(relLoc, filename), content, m)
       == FileRef(relLoc, if filename.Some? && filename.value != "" then filename.value else arg, "")
  }

  lemma {:induction false} ImportMatchReplaced(content: string, i: nat, name: string, relLoc: string,
                                               filename: Option<string>, m: Span)
    requires i <= |content| && Match(MyGdrive(name), content, i) == Some(m)
    ensures ImportRewrite(content, name, relLoc, filename, m)
  {
    MyGdriveMatchIsShape(content, i, name);
    var k := m.groupEnd - |ArrSuffix(name)|;
    assert content[m.groupStart..m.groupEnd][k - m.groupStart..] == content[k..m.groupEnd];
  }

  /** `fix_import` replaces every match of the scan, each as `ImportRewrite` says. */
  lemma {:induction false} FixImportReplacesEach(content: string, name: string, relLoc: string, filename: Option<string>)
    ensures var ms := Matches(MyGdrive(name), content, 0);
      FixImportText(content, name, relLoc, filename) == Splice(content, ImportTemplate(relLoc, filename), 0, ms)
      && forall k :: 0 <= k < |ms| ==> ImportRewrite(content, name, relLoc, filename, ms[k].1)
  {
    var ms := Matches(MyGdrive(name), content, 0);
    SubUnlimitedReplacesAll(content, MyGdrive(name), ImportTemplate(relLoc, filename));
    forall k | 0 <= k < |ms|
      ensures ImportRewrite(content, name, relLoc, filename, ms[k].1)
    {
      ImportMatchReplaced(content, ms[k].0, name, relLoc, filename, ms[k].1);
    }
  }

  /**
   * What `finalize` makes of a shared-gdrive match `m` at `i`: its argument
   * starts after the opening quote and ends at a quote, and it is replaced
   * by `file("RELSTENCIL/ID")` where `ID` is that argument.
   */
  predicate SharedRewrite(content: string, relStencil: string, i: nat, m: Span)
  {
    m.groupStart <= m.groupEnd < |content|
    && m.groupStart == i + |SharedGdriveOpen| + 1 && IsQuote(content[m.groupEnd])
    && Expand(FileTemplate(relStencil, ""), content, m) == FileRef(relStencil, content[m.groupStart..m.groupEnd], "")
  }

  lemma {:induction false} SharedMatchReplaced(content: string, i: nat, relStencil: string, m: Span)
    requires i <= |content| && Match(SharedGdrive, content, i) == Some(m)
    ensures SharedRewrite(content, relStencil, i, m)
  {
    SharedMatchIsShape(content, i);
  }

  /**
   * The first 8 shared-gdrive matches, and only those, are replaced, each as
   * `SharedRewrite` says.
   */
  lemma {:induction false} ResolveSharedReplacesFirstEight(content: string, relStencil: string)
    ensures var ms := Matches(SharedGdrive, content, 0);
      var taken := if |ms| <= ReMultiline then ms else ms[..ReMultiline];
      Chain(content, 0, taken)
      && ResolveSharedText(content, relStencil) == Splice(content, FileTemplate(relStencil, ""), 0, taken)
      && forall k :: 0 <= k < |ms| ==> SharedRewrite(content, relStencil, ms[k].0, ms[k].1)
  {
    var ms := Matches(SharedGdrive, content, 0);
    SubWithCountReplacesFirst(content, SharedGdrive, FileTemplate(relStencil, ""), ReMultiline);
    forall k | 0 <= k < |ms|
      ensures SharedRewrite(content, relStencil, ms[k].0, ms[k].1)
    {
      SharedMatchReplaced(content, ms[k].0, relStencil, ms[k].1);
    }
  }

  /**
   * What `finalize` makes of a gdrive-js match `m`: its argument is
   * `NAME.js`, and it is replaced by `file("RELSTENCIL/NAME.arr")`.
   */
  predicate ScriptRewrite(content: string, relStencil: string, m: Span)
  {
    m.groupStart <= m.groupEnd && m.groupEnd + 3 <= |content| && content[m.groupEnd..m.groupEnd + 3] == ".js"
    && Expand(FileTemplate(relStencil, ".arr"), content, m)
       == FileRef(relStencil, content[m.groupStart..m.groupEnd], ".arr")
  }

  lemma {:induction false} ScriptMatchReplaced(content: string, i: nat, relStencil: string, m: Span)
    requires i <= |content| && Match(GdriveJs, content, i) == Some(m)
    ensures ScriptRewrite(content, relStencil, m)
  {
    JsMatchIsShape(content, i);
    var j := m.groupEnd;
    assert content[j..j + 3] == [content[j], content[j + 1], content[j + 2]];
  }

  /**
   * The first 8 gdrive-js matches, and only those, are replaced, each as
   * `ScriptRewrite` says.
   */
  lemma {:induction false} ResolveScriptReplacesFirstEight(content: string, relStencil: string)
    ensures var ms := Matches(GdriveJs, content, 0);
      var taken := if |ms| <= ReMultiline then ms else ms[..ReMultiline];
      Chain(content, 0, taken)
      && ResolveScriptText(content, relStencil) == Splice(content, FileTemplate(relStencil, ".arr"), 0, taken)
      && forall k :: 0 <= k < |ms| ==> ScriptRewrite(content, relStencil, ms[k].1)
  {
    var ms := Matches(GdriveJs, content, 0);
    SubWithCountReplacesFirst(content, GdriveJs, FileTemplate(relStencil, ".arr"), ReMultiline);
    forall k | 0 <= k < |ms|
      ensures ScriptRewrite(content, relStencil, ms[k].1)
    {
      ScriptMatchReplaced(content, ms[k].0, relStencil, ms[k].1);
    }
  }

  /** `fix_provide` keeps every `use context essentials2021` and puts the provide line right after it. */
  lemma {:induction false} ProvideFollowsEachContext(content: string, names: string)
    ensures var ms := Matches(UseContextLine, content, 0);
      ProvideText(content, names) == Splice(content, Fixed(ProvideLine(names)), 0, ms)
      && forall k :: 0 <= k < |ms| ==>
        var m := ms[k].1;
        content[ms[k].0..m.end] == UseContext
        && Expand(Fixed(ProvideLine(names)), content, m) == content[ms[k].0..m.end] + "\nprovide " + names + " end"
  {
    SubUnlimitedReplacesAll(content, UseContextLine, Fixed(ProvideLine(names)));
  }

  /** The three openers a rewrite must not produce. */
  predicate IsOpener(l: string)
  {
    l == MyGdriveOpen || l == SharedGdriveOpen || l == GdriveJsOpen
  }

  /**
   * A file reference contains an opener only if its directory or its file name
   * does: the fixed parts of every replacement never form one.
   */
  lemma FileRefAddsNoOpener(dir: string, name: string, ext: string, l: string)
    requires IsOpener(l) && (ext == "" || ext == ".arr")
    ensures HasSubstring(FileRef(dir, name, ext), l) ==> HasSubstring(dir, l) || HasSubstring(name, l)
  {
    var tail := ext + "\")";
    var afterQuote := dir + ['/'] + (name + tail);
    assert FileRef(dir, name, ext) == "file(" + ['"'] + afterQuote;
    assert '"' !in l && '/' !in l && |l| > 5 && l[|l| - 1] == '(' && '(' !in tail;
    SplitAtForeignChar("file(", '"', afterQuote, l);
    NoOccurrenceInShorter("file(", l);
    SplitAtForeignChar(dir, '/', name + tail, l);
    LastCharNotInTail(name, tail, l);
  }
}
