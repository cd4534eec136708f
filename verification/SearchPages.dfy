/** Reading search results in pages (`search.rs`): the engine matches names, and what it cannot match
    is filtered here, page after page, over a table that may change between two reads. */
module SearchPages {
  import opened Prelude

  const SEARCH_RESULT_LIMIT := 1000

  type Bytes = seq<Byte>

  datatype Hit =
    | File(path: string, mime: Bytes, size: nat, modified: int)
    | Dir(path: string, created: Option<int>)

  datatype Args = Args(mimeTypes: seq<Bytes>, sizeMin: Option<nat>, modifiedMin: Option<nat>)

  // ---- mime patterns -----------------------------------------------------------------------

  function Lower(b: Byte): Byte {
    if 65 <= b <= 90 then b + 32 else b
  }

  function Fold(s: Bytes): (r: Bytes)
    ensures |r| == |s| && forall i :: 0 <= i < |s| ==> r[i] == Lower(s[i])
  {
    seq(|s|, i requires 0 <= i < |s| => Lower(s[i]))
  }

  const STAR: Byte := 42

  function FirstStar(pattern: Bytes): (i: nat)
    ensures i <= |pattern| && (i < |pattern| ==> pattern[i] == STAR) && STAR !in pattern[..i]
  {
    if pattern == [] || pattern[0] == STAR then 0
    else
      var i := 1 + FirstStar(pattern[1..]);
      assert pattern[..i] == [pattern[0]] + pattern[1..][..i - 1];
      i
  }

  /** `mime_matches`, on bytes: one wildcard, the first star. */
  predicate MimeMatches(mime: Bytes, pattern: Bytes) {
    var star := FirstStar(pattern);
    if star == |pattern| then Fold(mime) == Fold(pattern)
    else Around(mime, pattern[..star], pattern[star + 1..])
  }

  predicate Around(mime: Bytes, prefix: Bytes, suffix: Bytes) {
    && |mime| >= |prefix| + |suffix|
    && Fold(mime[..|prefix|]) == Fold(prefix)
    && Fold(mime[|mime| - |suffix|..]) == Fold(suffix)
  }

  /** A pattern with a star matches exactly what is its prefix, anything, and its suffix, case aside:
      the two never overlap. */
  lemma {:induction false} WildcardMatchesExactly(mime: Bytes, pattern: Bytes)
    requires STAR in pattern
    ensures var star := FirstStar(pattern);
            && star < |pattern|
            && (MimeMatches(mime, pattern) <==>
                Surrounds(pattern[..star], pattern[star + 1..], mime))
  {
    StarIsFound(pattern);
    var star := FirstStar(pattern);
    SurroundsExactly(mime, pattern[..star], pattern[star + 1..]);
  }

  lemma StarIsFound(pattern: Bytes)
    requires STAR in pattern
    ensures FirstStar(pattern) < |pattern|
  {
    assert pattern[..|pattern|] == pattern;
  }

  ghost predicate Surrounds(prefix: Bytes, suffix: Bytes, mime: Bytes) {
    exists middle: Bytes :: Reads(mime, prefix, middle, suffix)
  }

  lemma SurroundsExactly(mime: Bytes, prefix: Bytes, suffix: Bytes)
    ensures Around(mime, prefix, suffix) <==> Surrounds(prefix, suffix, mime)
  {
    if Around(mime, prefix, suffix) {
      MiddleOf(mime, prefix, suffix);
    }
    if middle: Bytes :| Reads(mime, prefix, middle, suffix) {
      AroundMiddle(mime, prefix, middle, suffix);
    }
  }

  predicate Reads(mime: Bytes, prefix: Bytes, middle: Bytes, suffix: Bytes) {
    Fold(mime) == Fold(prefix + middle + suffix)
  }

  lemma MiddleOf(mime: Bytes, prefix: Bytes, suffix: Bytes)
    requires Around(mime, prefix, suffix)
    ensures Reads(mime, prefix, mime[|prefix|..|mime| - |suffix|], suffix)
  {
  }

  lemma AroundMiddle(mime: Bytes, prefix: Bytes, middle: Bytes, suffix: Bytes)
    requires Reads(mime, prefix, middle, suffix)
    ensures Around(mime, prefix, suffix)
  {
  }

  // ---- the post-filter ---------------------------------------------------------------------

  predicate HasPostFilter(args: Args) {
    args.mimeTypes != [] || args.sizeMin.Some? || args.modifiedMin.Some?
  }

  predicate AtLeast(millis: int, min: Option<nat>) {
    min.None? || millis >= min.value
  }

  predicate Passes(hit: Hit, args: Args) {
    match hit
    case File(_, mime, size, modified) =>
      && (args.mimeTypes == [] || exists p :: p in args.mimeTypes && MimeMatches(mime, p))
      && (args.sizeMin.None? || size >= args.sizeMin.value)
      && AtLeast(modified, args.modifiedMin)
    case Dir(_, created) =>
      && args.mimeTypes == [] && args.sizeMin.None?
      && (args.modifiedMin.None? || (created.Some? && AtLeast(created.value, args.modifiedMin)))
  }

  function Filtered(hits: seq<Hit>, args: Args): seq<Hit> {
    if hits == [] then []
    else Filtered(hits[..|hits| - 1], args) +
         if Passes(hits[|hits| - 1], args) then [hits[|hits| - 1]] else []
  }

  /** A letter and its counterpart of the other case, or the same byte. */
  predicate SameLetter(a: Byte, b: Byte) {
    || a == b
    || (65 <= a <= 90 && b == a + 32)
    || (65 <= b <= 90 && a == b + 32)
  }

  predicate SameText(a: Bytes, b: Bytes) {
    |a| == |b| && forall i :: 0 <= i < |a| ==> SameLetter(a[i], b[i])
  }

  lemma FoldsAlike(a: Bytes, b: Bytes)
    ensures Fold(a) == Fold(b) <==> SameText(a, b)
  {
    if Fold(a) == Fold(b) {
      forall i | 0 <= i < |a|
        ensures SameLetter(a[i], b[i])
      {
        assert Fold(a)[i] == Fold(b)[i];
      }
    }
  }

  /** A pattern matches what is its text around one star, or its text, case aside. */
  ghost predicate Matches(mime: Bytes, pattern: Bytes) {
    if STAR in pattern
    then exists star: nat, middle: Bytes ::
           && star < |pattern| && pattern[star] == STAR && STAR !in pattern[..star]
           && SameText(mime, pattern[..star] + middle + pattern[star + 1..])
    else SameText(mime, pattern)
  }

  lemma MatchesExactly(mime: Bytes, pattern: Bytes)
    ensures MimeMatches(mime, pattern) <==> Matches(mime, pattern)
  {
    var star := FirstStar(pattern);
    if STAR in pattern {
      WildcardMatchesExactly(mime, pattern);
      var prefix, suffix := pattern[..star], pattern[star + 1..];
      if middle: Bytes :| Reads(mime, prefix, middle, suffix) {
        FoldsAlike(mime, prefix + middle + suffix);
      }
      if s: nat, middle: Bytes :|
        && s < |pattern| && pattern[s] == STAR && STAR !in pattern[..s]
        && SameText(mime, pattern[..s] + middle + pattern[s + 1..])
      {
        FirstStarIs(pattern, s);
        FoldsAlike(mime, prefix + middle + suffix);
        assert Reads(mime, prefix, middle, suffix);
      }
    } else {
      FoldsAlike(mime, pattern);
    }
  }

  lemma FirstStarIs(pattern: Bytes, star: nat)
    requires star < |pattern| && pattern[star] == STAR && STAR !in pattern[..star]
    ensures FirstStar(pattern) == star
  {
    forall k | 0 <= k < FirstStar(pattern)
      ensures pattern[k] != STAR
    {
      assert pattern[..FirstStar(pattern)][k] == pattern[k];
    }
    forall k | 0 <= k < star
      ensures pattern[k] != STAR
    {
      assert pattern[..star][k] == pattern[k];
    }
  }

  /** What the filter lets through: a file with a mime type asked for, at least the size and modified
      no earlier; a directory only where neither mime type nor size is asked for, created no earlier,
      and with a time asked for, only if it has one. */
  lemma {:induction false} FilteredExactly(hits: seq<Hit>, args: Args, h: Hit)
    ensures h in Filtered(hits, args) <==>
            && h in hits
            && (args.sizeMin.Some? ==> h.File? && args.sizeMin.value <= h.size)
            && (args.mimeTypes != [] ==> h.File? && exists p :: p in args.mimeTypes && Matches(h.mime, p))
            && (args.modifiedMin.Some? ==>
                  match h
                  case File(_, _, _, modified) => args.modifiedMin.value <= modified
                  case Dir(_, created) => created.Some? && args.modifiedMin.value <= created.value)
  {
    FilteredMembers(hits, args);
    if h.File? {
      forall p | p in args.mimeTypes
        ensures MimeMatches(h.mime, p) <==> Matches(h.mime, p)
      {
        MatchesExactly(h.mime, p);
      }
    }
  }

  lemma {:induction false} FilteredConcat(hits: seq<Hit>, a: seq<Hit>, b: seq<Hit>, args: Args)
    requires hits == a + b
    ensures Filtered(hits, args) == Filtered(a, args) + Filtered(b, args)
    decreases |b|
  {
    if b == [] {
      assert hits == a;
    } else {
      var init, last := hits[..|hits| - 1], hits[|hits| - 1];
      assert init == a + b[..|b| - 1] && last == b[|b| - 1];
      FilteredConcat(init, a, b[..|b| - 1], args);
    }
  }

  lemma {:induction false} FilteredMembers(hits: seq<Hit>, args: Args)
    ensures |Filtered(hits, args)| <= |hits|
    ensures forall h :: h in Filtered(hits, args) <==> h in hits && Passes(h, args)
    decreases |hits|
  {
    if hits != [] {
      FilteredMembers(hits[..|hits| - 1], args);
      assert hits == hits[..|hits| - 1] + [hits[|hits| - 1]];
    }
  }

  /** Without a constraint the engine cannot apply, the filter passes everything. */
  lemma {:induction false} NoPostFilterPassesAll(hits: seq<Hit>, args: Args)
    requires !HasPostFilter(args)
    ensures Filtered(hits, args) == hits
    decreases |hits|
  {
    if hits != [] {
      NoPostFilterPassesAll(hits[..|hits| - 1], args);
      assert hits == hits[..|hits| - 1] + [hits[|hits| - 1]];
    }
  }

  // ---- paging ------------------------------------------------------------------------------

  function Take<T>(s: seq<T>, n: nat): seq<T> {
    if |s| <= n then s else s[..n]
  }

  /** `get_range` on the table as it is at the time. */
  function Range(hits: seq<Hit>, offset: nat): seq<Hit> {
    if offset >= |hits| then [] else Take(hits[offset..], SEARCH_RESULT_LIMIT)
  }

  predicate DistinctPaths(hits: seq<Hit>) {
    forall i, j :: 0 <= i < j < |hits| ==> hits[i].path != hits[j].path
  }

  function Paths(hits: seq<Hit>): set<string> {
    set h | h in hits :: h.path
  }

  lemma PathsSnoc(hits: seq<Hit>, h: Hit)
    ensures Paths(hits + [h]) == Paths(hits) + {h.path}
    ensures DistinctPaths(hits) && h.path !in Paths(hits) ==> DistinctPaths(hits + [h])
  {
  }

  lemma {:induction false} FilteredDistinct(hits: seq<Hit>, args: Args)
    requires DistinctPaths(hits)
    ensures DistinctPaths(Filtered(hits, args))
    decreases |hits|
  {
    if hits != [] {
      var init, last := hits[..|hits| - 1], hits[|hits| - 1];
      FilteredDistinct(init, args);
      FilteredMembers(init, args);
      var r := Filtered(init, args);
      forall i | 0 <= i < |r|
        ensures r[i].path != last.path
      {
        assert r[i] in init;
      }
    }
  }

  /** The new entries of one page. */
  method AddPage(entries: seq<Hit>, page: seq<Hit>) returns (r: seq<Hit>)
    ensures DistinctPaths(entries) ==> DistinctPaths(r)
    ensures forall h :: h in r ==> h in entries || h in page
    ensures DistinctPaths(entries + page) ==> r == entries + page
  {
    r := entries;
    var seen := Paths(entries);
    for i := 0 to |page|
      invariant seen == Paths(r) && (DistinctPaths(entries) ==> DistinctPaths(r))
      invariant forall h :: h in r ==> h in entries || h in page
      invariant DistinctPaths(entries + page) ==> r == entries + page[..i]
    {
      PathsSnoc(r, page[i]);
      NextIsNew(entries, page, i);
      if page[i].path !in seen {
        seen := seen + {page[i].path};
        r := r + [page[i]];
      }
    }
    assert page[..|page|] == page;
  }

  lemma NextIsNew(entries: seq<Hit>, page: seq<Hit>, i: nat)
    requires i < |page|
    ensures DistinctPaths(entries + page) ==> page[i].path !in Paths(entries + page[..i])
    ensures entries + page[..i + 1] == entries + page[..i] + [page[i]]
  {
    var all, before := entries + page, entries + page[..i];
    assert all[|before|] == page[i];
    assert forall k :: 0 <= k < |before| ==> before[k] == all[k];
  }

  // ---- over an unchanging table ------------------------------------------------------------

  /** What the pages read up to `offset` have of a table. */
  function ReadUpTo(table: seq<Hit>, offset: nat, args: Args): seq<Hit> {
    Filtered(Take(table, offset), args)
  }

  lemma NextPage(table: seq<Hit>, offset: nat, args: Args)
    ensures ReadUpTo(table, offset + SEARCH_RESULT_LIMIT, args)
         == ReadUpTo(table, offset, args) + Filtered(Range(table, offset), args)
    ensures DistinctPaths(table) ==>
              DistinctPaths(ReadUpTo(table, offset + SEARCH_RESULT_LIMIT, args))
  {
    var longer := Take(table, offset + SEARCH_RESULT_LIMIT);
    assert longer == Take(table, offset) + Range(table, offset);
    FilteredConcat(longer, Take(table, offset), Range(table, offset), args);
    if DistinctPaths(table) {
      FilteredDistinct(longer, args);
    }
  }

  /** What was read is the beginning of what there is, and all of it once the table is read. */
  lemma ReadIsPrefix(table: seq<Hit>, offset: nat, args: Args)
    ensures ReadUpTo(table, offset, args) <= Filtered(table, args)
    ensures offset >= |table| ==> ReadUpTo(table, offset, args) == Filtered(table, args)
  {
    var head := Take(table, offset);
    var tail := if offset < |table| then table[offset..] else [];
    assert table == head + tail;
    FilteredConcat(table, head, tail, args);
  }

  lemma TakeOfPrefix(a: seq<Hit>, b: seq<Hit>, n: nat)
    requires a <= b && (|a| >= n || a == b)
    ensures Take(a, n) == Take(b, n)
  {
  }

  /** When the first page is enough: no post-filter, a full page, or no more matches. */
  lemma FirstPageIsEnough(table: seq<Hit>, args: Args)
    requires var n := |ReadUpTo(table, SEARCH_RESULT_LIMIT, args)|;
             !HasPostFilter(args) || n >= SEARCH_RESULT_LIMIT || |table| <= SEARCH_RESULT_LIMIT
    ensures ReadUpTo(table, SEARCH_RESULT_LIMIT, args)
         == Take(Filtered(table, args), SEARCH_RESULT_LIMIT)
  {
    var first := ReadUpTo(table, SEARCH_RESULT_LIMIT, args);
    ReadIsPrefix(table, SEARCH_RESULT_LIMIT, args);
    FilteredMembers(Take(table, SEARCH_RESULT_LIMIT), args);
    if !HasPostFilter(args) {
      NoPostFilterPassesAll(table, args);
      NoPostFilterPassesAll(Take(table, SEARCH_RESULT_LIMIT), args);
    } else {
      TakeOfPrefix(first, Filtered(table, args), SEARCH_RESULT_LIMIT);
    }
  }

  lemma FirstPage(table: seq<Hit>, args: Args)
    ensures var entries := Filtered(Range(table, 0), args);
            && entries == ReadUpTo(table, SEARCH_RESULT_LIMIT, args) && |entries| <= SEARCH_RESULT_LIMIT
            && (forall h :: h in entries ==> Passes(h, args))
            && (DistinctPaths(Range(table, 0)) ==> DistinctPaths(entries))
  {
    assert Range(table, 0) == Take(table, SEARCH_RESULT_LIMIT);
    FilteredMembers(Range(table, 0), args);
    if DistinctPaths(Range(table, 0)) {
      FilteredDistinct(Range(table, 0), args);
    }
  }

  lemma TakeFacts(entries: seq<Hit>, n: nat)
    ensures |Take(entries, n)| <= n && forall h :: h in Take(entries, n) ==> h in entries
    ensures DistinctPaths(entries) ==> DistinctPaths(Take(entries, n))
  {
  }

  // ---- the loop ----------------------------------------------------------------------------

  ghost predicate Steady(tables: nat -> seq<Hit>) {
    DistinctPaths(tables(0)) && forall k :: tables(k) == tables(0)
  }

  /** `collect_filtered`. `tables(k)` is the table at the `k`th read, `fails(k)` whether it fails.
      However it changes, no path comes twice if the first page has none twice; unchanging and with
      unique paths, exactly the first 1000 of the fully filtered table come, in order. */
  method CollectFiltered(tables: nat -> seq<Hit>, fails: nat -> bool, args: Args)
    returns (r: Result<seq<Hit>, ()>)
    ensures r.Ok? && DistinctPaths(Range(tables(0), 0)) ==> DistinctPaths(r.value)
    ensures r.Ok? ==> |r.value| <= SEARCH_RESULT_LIMIT && forall h :: h in r.value ==> Passes(h, args)
    ensures r.Ok? && Steady(tables) ==>
              r.value == Take(Filtered(tables(0), args), SEARCH_RESULT_LIMIT)
    ensures r.Err? ==> exists k :: fails(k)
    ensures fails(0) ==> r.Err?
  {
    if fails(0) {
      return Err(());
    }
    var table := tables(0);
    var entries := Filtered(Range(table, 0), args);
    FirstPage(table, args);
    if !HasPostFilter(args) || |entries| >= SEARCH_RESULT_LIMIT || |table| <= SEARCH_RESULT_LIMIT {
      FirstPageIsEnough(table, args);
      return Ok(entries);
    }
    var offset, k := SEARCH_RESULT_LIMIT, 1;
    while |entries| < SEARCH_RESULT_LIMIT && offset < |table|
      invariant forall h :: h in entries ==> Passes(h, args)
      invariant DistinctPaths(Range(table, 0)) ==> DistinctPaths(entries)
      invariant Steady(tables) ==> entries == ReadUpTo(table, offset, args)
      decreases |table| - offset
    {
      if fails(k) {
        return Err(());
      }
      var page := Filtered(Range(tables(k), offset), args);
      FilteredMembers(Range(tables(k), offset), args);
      NextPage(table, offset, args);
      entries := AddPage(entries, page);
      offset, k := offset + SEARCH_RESULT_LIMIT, k + 1;
    }
    if Steady(tables) {
      ReadIsPrefix(table, offset, args);
      TakeOfPrefix(entries, Filtered(table, args), SEARCH_RESULT_LIMIT);
    }
    TakeFacts(entries, SEARCH_RESULT_LIMIT);
    r := Ok(Take(entries, SEARCH_RESULT_LIMIT));
  }
}
