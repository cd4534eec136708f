/** Pruning the log directory (`log_files.rs`): expired files first, then the oldest of the others
    while the log files hold more than the cap together. */
module LogPrune {
  import opened Prelude

  const SECONDS_PER_DAY := 86400
  const NANOS := 1_000_000_000

  // ---- which files are log files -----------------------------------------------------------

  const LOG := ".log"
  const OLD := ".log.old"

  predicate Digits(s: string) {
    forall i :: 0 <= i < |s| ==> '0' <= s[i] <= '9'
  }

  predicate OldAt(name: string, i: nat) {
    i + |OLD| <= |name| && name[i..i + |OLD|] == OLD
  }

  /** `<name>.log`, or one moved aside from it: `<name>.log.old<digits>`. */
  ghost predicate LogName(name: string) {
    || (|name| >= |LOG| && name[|name| - |LOG|..] == LOG)
    || exists i: nat :: OldAt(name, i) && Digits(name[i + |OLD|..])
  }

  /** Only digits behind it, an occurrence is the last one. */
  lemma DigitsFollowLast(name: string, i: nat, j: nat)
    requires OldAt(name, i) && OldAt(name, j) && Digits(name[i + |OLD|..])
    ensures j <= i
  {
    OldChars(name, i);
    OldChars(name, j);
    var rest := name[i + |OLD|..];
    assert forall k :: i + |OLD| <= k < |name| ==> name[k] == rest[k - i - |OLD|];
    assert name[j] == '.' && name[j + 1] == 'l';
  }

  lemma OldChars(name: string, i: nat)
    requires OldAt(name, i)
    ensures forall k :: i <= k < i + |OLD| ==> name[k] == OLD[k - i]
  {
  }

  /** `is_log_file_name`: splits at the last `.log.old`. */
  method IsLogFileName(name: string) returns (r: bool)
    ensures r <==> LogName(name)
  {
    if |name| >= |LOG| && name[|name| - |LOG|..] == LOG {
      return true;
    }
    var i: int := |name| - |OLD|;
    while i >= 0 && name[i..i + |OLD|] != OLD
      invariant i + |OLD| <= |name|
      invariant forall j: nat :: j > i ==> !OldAt(name, j)
    {
      i := i - 1;
    }
    if i < 0 {
      return false;
    }
    assert OldAt(name, i);
    r := Digits(name[i + |OLD|..]);
    if j: nat :| !r && OldAt(name, j) && Digits(name[j + |OLD|..]) {
      DigitsFollowLast(name, j, i);
    }
  }

  // ---- the directory -----------------------------------------------------------------------

  /** A log file whose metadata can be read. `active`: one of the two being written. `expiring` and
      `shrinking`: whether deleting it leaves it gone, in the first pass and in the second. */
  datatype File = File(path: nat, size: U64, modified: nat, active: bool, expiring: bool,
                       shrinking: bool)

  datatype Limits = Limits(retentionDays: nat, maxTotal: U64)

  /** More than `retentionDays` whole days since it was last written. */
  predicate Expired(f: File, limits: Limits, now: nat) {
    now >= f.modified && (now - f.modified) / NANOS / SECONDS_PER_DAY > limits.retentionDays
  }

  function Total(files: seq<File>): nat {
    if files == [] then 0 else Total(files[..|files| - 1]) + files[|files| - 1].size
  }

  /** The order deletable files are sorted in: by time, then size, then path. */
  predicate Before(a: File, b: File) {
    || a.modified < b.modified
    || (a.modified == b.modified && (a.size < b.size || (a.size == b.size && a.path <= b.path)))
  }

  predicate Sorted(files: seq<File>) {
    forall i, j :: 0 <= i < j < |files| ==> Before(files[i], files[j])
  }

  function Insert(f: File, files: seq<File>): seq<File> {
    if files == [] || Before(files[|files| - 1], f) then files + [f]
    else Insert(f, files[..|files| - 1]) + [files[|files| - 1]]
  }

  lemma {:induction false} InsertIsPermutation(f: File, files: seq<File>)
    ensures multiset(Insert(f, files)) == multiset(files) + multiset{f}
    decreases |files|
  {
    if files != [] && !Before(files[|files| - 1], f) {
      var init, last := files[..|files| - 1], files[|files| - 1];
      InsertIsPermutation(f, init);
      assert files == init + [last];
      assert multiset(Insert(f, files)) == multiset(Insert(f, init)) + multiset{last};
    }
  }

  lemma {:induction false} InsertTotal(f: File, files: seq<File>)
    ensures Total(Insert(f, files)) == Total(files) + f.size
    decreases |files|
  {
    if files == [] || Before(files[|files| - 1], f) {
      TotalSnoc(files, f);
    } else {
      var init, last := files[..|files| - 1], files[|files| - 1];
      InsertTotal(f, init);
      TotalSnoc(Insert(f, init), last);
    }
  }

  lemma {:induction false} InsertSorts(f: File, files: seq<File>)
    requires Sorted(files)
    ensures Sorted(Insert(f, files))
    decreases |files|
  {
    if files != [] && !Before(files[|files| - 1], f) {
      var init, last := files[..|files| - 1], files[|files| - 1];
      var r := Insert(f, init);
      InsertSorts(f, init);
      InsertIsPermutation(f, init);
      SameMembers(r, init + [f]);
      forall i | 0 <= i < |r|
        ensures Before(r[i], last)
      {
        assert r[i] in init + [f];
      }
    }
  }

  lemma SameMembers(a: seq<File>, b: seq<File>)
    requires multiset(a) == multiset(b)
    ensures forall f :: f in a <==> f in b
  {
    forall f
      ensures f in a <==> f in b
    {
      assert f in multiset(a) <==> f in multiset(b);
    }
  }

  function SortByAge(files: seq<File>): seq<File> {
    if files == [] then []
    else Insert(files[|files| - 1], SortByAge(files[..|files| - 1]))
  }

  lemma {:induction false} SortByAgeSorts(files: seq<File>)
    ensures Sorted(SortByAge(files)) && multiset(SortByAge(files)) == multiset(files)
    decreases |files|
  {
    if files != [] {
      var init, last := files[..|files| - 1], files[|files| - 1];
      SortByAgeSorts(init);
      InsertSorts(last, SortByAge(init));
      InsertIsPermutation(last, SortByAge(init));
      assert files == init + [last];
      assert multiset(files) == multiset(init) + multiset{last};
    }
  }

  lemma {:induction false} SortByAgeTotal(files: seq<File>)
    ensures Total(SortByAge(files)) == Total(files)
    decreases |files|
  {
    if files != [] {
      SortByAgeTotal(files[..|files| - 1]);
      InsertTotal(files[|files| - 1], SortByAge(files[..|files| - 1]));
    }
  }

  // ---- pruning -----------------------------------------------------------------------------

  /** Whether the first pass deletes the file. */
  predicate Expires(f: File, limits: Limits, now: nat) {
    !f.active && Expired(f, limits, now) && f.expiring
  }

  function Expire(files: seq<File>, limits: Limits, now: nat): seq<File> {
    if files == [] then []
    else
      var f := files[|files| - 1];
      Expire(files[..|files| - 1], limits, now) + if Expires(f, limits, now) then [] else [f]
  }

  /** The files a deletion is tried of, and those it is not. */
  function Where(files: seq<File>, keep: File -> bool): seq<File> {
    if files == [] then []
    else
      var f := files[|files| - 1];
      Where(files[..|files| - 1], keep) + if keep(f) then [f] else []
  }

  function Deletable(files: seq<File>): seq<File> {
    Where(files, (f: File) => !f.active)
  }

  function Active(files: seq<File>): seq<File> {
    Where(files, (f: File) => f.active)
  }

  /** Those a deletion in the second pass succeeds for, and those it does not. */
  function Shrinking(files: seq<File>): seq<File> {
    Where(files, (f: File) => f.shrinking)
  }

  function Stubborn(files: seq<File>): seq<File> {
    Where(files, (f: File) => !f.shrinking)
  }

  lemma TotalSnoc(files: seq<File>, f: File)
    ensures Total(files + [f]) == Total(files) + f.size
  {
  }

  lemma WhereSnoc(files: seq<File>, f: File, keep: File -> bool)
    ensures Where(files + [f], keep) == Where(files, keep) + if keep(f) then [f] else []
  {
  }

  lemma {:induction false} WhereMembers(files: seq<File>, keep: File -> bool)
    ensures forall f :: f in Where(files, keep) <==> f in files && keep(f)
    decreases |files|
  {
    if files != [] {
      WhereMembers(files[..|files| - 1], keep);
      assert files == files[..|files| - 1] + [files[|files| - 1]];
    }
  }

  lemma {:induction false} TotalSplits(files: seq<File>, keep: File -> bool, drop: File -> bool)
    requires forall f :: drop(f) <==> !keep(f)
    ensures Total(Where(files, keep)) + Total(Where(files, drop)) == Total(files)
    decreases |files|
  {
    if files != [] {
      var init, f := files[..|files| - 1], files[|files| - 1];
      TotalSplits(init, keep, drop);
      TotalSnoc(Where(init, keep), f);
      TotalSnoc(Where(init, drop), f);
      assert Where(init, keep) + [] == Where(init, keep) && Where(init, drop) + [] == Where(init, drop);
    }
  }

  lemma {:induction false} TotalConcat(a: seq<File>, b: seq<File>)
    ensures Total(a + b) == Total(a) + Total(b)
    decreases |b|
  {
    if b == [] {
      assert a + b == a;
    } else {
      var init, f := b[..|b| - 1], b[|b| - 1];
      assert a + b == (a + init) + [f];
      TotalSnoc(a + init, f);
      TotalConcat(a, init);
    }
  }

  lemma PrefixTotal(files: seq<File>, i: nat)
    requires i <= |files|
    ensures Total(files[..i]) <= Total(files)
  {
    assert files == files[..i] + files[i..];
    TotalConcat(files[..i], files[i..]);
  }

  lemma {:induction false} ExpireTotal(files: seq<File>, limits: Limits, now: nat)
    ensures Total(Expire(files, limits, now)) <= Total(files)
    decreases |files|
  {
    if files != [] {
      var init, f := files[..|files| - 1], files[|files| - 1];
      ExpireTotal(init, limits, now);
      TotalSnoc(Expire(init, limits, now), f);
      assert Expire(init, limits, now) + [] == Expire(init, limits, now);
    }
  }

  // ---- pruning -----------------------------------------------------------------------------

  /** The first pass of `prune`, over the log files the directory has. */
  method ExpireFiles(files: seq<File>, limits: Limits, now: nat)
    returns (total: U64, deletable: seq<File>)
    requires Total(files) <= U64_MAX
    ensures total == Total(Expire(files, limits, now))
    ensures deletable == Deletable(Expire(files, limits, now))
  {
    total, deletable := 0, [];
    for i := 0 to |files|
      invariant total == Total(Expire(files[..i], limits, now))
      invariant deletable == Deletable(Expire(files[..i], limits, now))
    {
      var f := files[i];
      ghost var kept := Expire(files[..i], limits, now);
      assert files[..i + 1][..i] == files[..i];
      assert Expire(files[..i + 1], limits, now) == kept + if Expires(f, limits, now) then [] else [f];
      PrefixTotal(files, i + 1);
      ExpireTotal(files[..i + 1], limits, now);
      TotalSnoc(kept, f);
      WhereSnoc(kept, f, (f: File) => !f.active);
      assert kept + [] == kept && deletable + [] == deletable;
      if f.active {
        total := SaturatingAdd(total, f.size);
        continue;
      }
      if Expired(f, limits, now) && f.expiring {
        continue;
      }
      total := SaturatingAdd(total, f.size);
      deletable := deletable + [f];
    }
    assert files[..|files|] == files;
  }

  /** The bytes left after the second pass has tried the first `k` files. */
  function Left(kept: seq<File>, sorted: seq<File>, k: nat): int
    requires k <= |sorted|
  {
    Total(kept) - Total(Shrinking(sorted[..k]))
  }

  /** `prune`. The second pass has tried the `stop` oldest files left. */
  method Prune(files: seq<File>, limits: Limits, now: nat)
    returns (total: U64, sorted: seq<File>, stop: nat)
    requires Total(files) <= U64_MAX
    ensures var kept := Expire(files, limits, now);
            && sorted == SortByAge(Deletable(kept)) && stop <= |sorted|
            && total == Left(kept, sorted, stop)
            && (stop < |sorted| ==> total <= limits.maxTotal)
            && forall k :: 0 <= k < stop ==> Left(kept, sorted, k) > limits.maxTotal
    // the bytes present, within the cap unless only active and undeletable files are left
    ensures var present := Present(Expire(files, limits, now), sorted, stop);
            && total == Total(present)
            && (total <= limits.maxTotal || forall f :: f in present ==> f.active || !f.shrinking)
    // oldest first
    ensures forall gone, left :: gone in Shrinking(sorted[..stop]) && left in sorted[stop..] ==>
              Before(gone, left)
  {
    var deletable;
    total, deletable := ExpireFiles(files, limits, now);
    ghost var kept := Expire(files, limits, now);
    sorted := SortByAge(deletable);
    DeletableTotal(kept);
    total, stop := ShrinkFiles(sorted, total, limits.maxTotal, kept);
    PrunedToCap(kept, sorted, stop, limits.maxTotal);
    OldestGoFirst(kept, sorted, stop);
  }

  /** The second pass. */
  method ShrinkFiles(sorted: seq<File>, start: U64, cap: U64, ghost kept: seq<File>)
    returns (total: U64, stop: nat)
    requires Total(sorted) <= Total(kept) == start
    ensures stop <= |sorted| && total == Left(kept, sorted, stop)
    ensures stop < |sorted| ==> total <= cap
    ensures forall k :: 0 <= k < stop ==> Left(kept, sorted, k) > cap
  {
    assert Shrinking(sorted[..0]) == [];
    total, stop := start, 0;
    while stop < |sorted| && total > cap
      invariant stop <= |sorted| && total == Left(kept, sorted, stop)
      invariant forall k :: 0 <= k < stop ==> Left(kept, sorted, k) > cap
    {
      LeftStep(kept, sorted, stop);
      if sorted[stop].shrinking {
        total := SaturatingSub(total, sorted[stop].size);
      }
      stop := stop + 1;
    }
  }

  lemma OldestGoFirst(kept: seq<File>, sorted: seq<File>, stop: nat)
    requires sorted == SortByAge(Deletable(kept)) && stop <= |sorted|
    ensures forall gone, left :: gone in Shrinking(sorted[..stop]) && left in sorted[stop..] ==>
              Before(gone, left)
  {
    forall gone, left | gone in Shrinking(sorted[..stop]) && left in sorted[stop..]
      ensures Before(gone, left)
    {
      OldestFirst(kept, sorted, stop, gone, left);
    }
  }

  lemma {:induction false} LeftStep(kept: seq<File>, sorted: seq<File>, k: nat)
    requires k < |sorted| && Total(sorted) <= Total(kept)
    ensures 0 <= Left(kept, sorted, k + 1)
         == Left(kept, sorted, k) - if sorted[k].shrinking then sorted[k].size else 0
  {
    var f, tried := sorted[k], sorted[..k];
    assert sorted[..k + 1] == tried + [f];
    WhereSnoc(tried, f, (f: File) => f.shrinking);
    TotalSnoc(Shrinking(tried), f);
    assert Shrinking(tried) + [] == Shrinking(tried);
    ShrinkingTotal(sorted, k + 1);
  }

  lemma DeletableTotal(kept: seq<File>)
    ensures Total(SortByAge(Deletable(kept))) == Total(kept) - Total(Active(kept))
  {
    SortByAgeTotal(Deletable(kept));
    TotalSplits(kept, (f: File) => !f.active, (f: File) => f.active);
  }

  lemma {:induction false} ShrinkingTotal(sorted: seq<File>, k: nat)
    requires k <= |sorted|
    ensures Total(Shrinking(sorted[..k])) + Total(Stubborn(sorted[..k])) + Total(sorted[k..])
         == Total(sorted)
  {
    TriedTotal(sorted[..k]);
    CutTotal(sorted, k);
  }

  lemma TriedTotal(tried: seq<File>)
    ensures Total(Shrinking(tried)) + Total(Stubborn(tried)) == Total(tried)
  {
    TotalSplits(tried, (f: File) => f.shrinking, (f: File) => !f.shrinking);
  }

  lemma {:induction false} CutTotal(files: seq<File>, k: nat)
    requires k <= |files|
    ensures Total(files[..k]) + Total(files[k..]) == Total(files)
  {
    assert files == files[..k] + files[k..];
    TotalConcat(files[..k], files[k..]);
  }

  // ---- what it leaves ----------------------------------------------------------------------

  /** The log files present afterwards. */
  function Present(kept: seq<File>, sorted: seq<File>, stop: nat): seq<File>
    requires stop <= |sorted|
  {
    Active(kept) + Stubborn(sorted[..stop]) + sorted[stop..]
  }

  /** The tracked total is the bytes present, and within the cap unless only the active files and
      files that could not be deleted are left. */
  lemma PrunedToCap(kept: seq<File>, sorted: seq<File>, stop: nat, cap: nat)
    requires sorted == SortByAge(Deletable(kept)) && stop <= |sorted|
    requires stop < |sorted| ==> Left(kept, sorted, stop) <= cap
    ensures Total(Present(kept, sorted, stop)) == Left(kept, sorted, stop)
    ensures Left(kept, sorted, stop) <= cap ||
            forall f :: f in Present(kept, sorted, stop) ==> f.active || !f.shrinking
  {
    DeletableTotal(kept);
    ShrinkingTotal(sorted, stop);
    TotalConcat(Active(kept), Stubborn(sorted[..stop]));
    TotalConcat(Active(kept) + Stubborn(sorted[..stop]), sorted[stop..]);
    WhereMembers(kept, (f: File) => f.active);
    WhereMembers(sorted[..stop], (f: File) => !f.shrinking);
  }

  /** Unexpired files go oldest first: whatever is deleted in the second pass sorts before every
      file it did not get to. */
  lemma OldestFirst(kept: seq<File>, sorted: seq<File>, stop: nat, gone: File, left: File)
    requires sorted == SortByAge(Deletable(kept)) && stop <= |sorted|
    requires gone in Shrinking(sorted[..stop]) && left in sorted[stop..]
    ensures gone in kept && left in kept && !gone.active && !left.active
    ensures gone.modified <= left.modified
    ensures gone.modified == left.modified ==>
              gone.size <= left.size && (gone.size == left.size ==> gone.path <= left.path)
  {
    SortByAgeSorts(Deletable(kept));
    SameMembers(sorted, Deletable(kept));
    WhereMembers(kept, (f: File) => !f.active);
    WhereMembers(sorted[..stop], (f: File) => f.shrinking);
    CutIsOrdered(sorted, stop, gone, left);
  }

  lemma CutIsOrdered(sorted: seq<File>, stop: nat, early: File, late: File)
    requires Sorted(sorted) && stop <= |sorted| && early in sorted[..stop] && late in sorted[stop..]
    ensures Before(early, late) && early in sorted && late in sorted
  {
    var i :| 0 <= i < stop && sorted[i] == early;
    var j :| stop <= j < |sorted| && sorted[j] == late;
  }

  /** A file expires once the whole of one more day than it is to be kept has passed since it was last
      written; one written in the future never does. */
  lemma ExpiredExactly(f: File, limits: Limits, now: nat)
    ensures Expired(f, limits, now) <==>
            now >= f.modified + (limits.retentionDays + 1) * 86_400_000_000_000
  {
    var age := now - f.modified;
    if age >= 0 {
      DaysOf(age);
    }
  }

  lemma DaysOf(nanos: nat)
    ensures nanos / NANOS / SECONDS_PER_DAY == nanos / 86_400_000_000_000
  {
    var seconds, days := nanos / NANOS, nanos / NANOS / SECONDS_PER_DAY;
    assert nanos == seconds * NANOS + nanos % NANOS;
    assert seconds == days * SECONDS_PER_DAY + seconds % SECONDS_PER_DAY;
    assert 0 <= nanos - days * 86_400_000_000_000 < 86_400_000_000_000;
  }

  /** The first pass deletes exactly the inactive expired files it can, and nothing else goes while
      the rest is within the cap. */
  lemma {:induction false} ExpiresExactly(files: seq<File>, limits: Limits, now: nat)
    ensures forall f :: f in Expire(files, limits, now) <==> f in files && !Expires(f, limits, now)
    decreases |files|
  {
    if files != [] {
      ExpiresExactly(files[..|files| - 1], limits, now);
      assert files == files[..|files| - 1] + [files[|files| - 1]];
    }
  }
}
