/** Refreshing a directory (`remote.rs`): the probes of its missing subdirectories and files, then the
    sweep of its listing. */
module ReconcileDir {
  import opened Prelude
  import opened Reconcile

  /** The cached children of one kind that the listing lacks, in some order. */
  ghost predicate IsMissing(missing: seq<Id>, c: Cache, parent: Id, dirs: bool, listing: seq<Remote>) {
    && Distinct(missing)
    && forall i :: i in missing <==>
         i in c && InScope(c[i], Under(parent)) && c[i].dir == dirs && !Lists(listing, i)
  }

  /** `reconcile_missing_subdirs` and `reconcile_missing_files`: more than the cap, and the listing
      is trusted instead. */
  ghost function ProbeMissing(c: Cache, missing: seq<Id>, answers: Id -> Answer): (Cache, seq<Uuid>) {
    if |missing| > RECONCILE_PROBE_CAP then (c, []) else ProbeAll(c, [], missing, answers)
  }

  /** One refresh of a directory: the probes of both kinds, then the sweep. The missing rows come in
      the order their probes came back in. */
  datatype DirRefresh = DirRefresh(cache: Cache, parent: Id, listing: seq<Remote>, dirs: seq<Id>,
                                   files: seq<Id>, answers: Id -> Answer)
  {
    ghost function AfterDirs(): (Cache, seq<Uuid>) {
      ProbeMissing(cache, dirs, answers)
    }

    ghost function AfterFiles(): (Cache, seq<Uuid>) {
      ProbeMissing(AfterDirs().0, files, answers)
    }

    /** The cache the sweep starts from, and what it spares. */
    ghost function Probed(): (Cache, seq<Uuid>) {
      (AfterFiles().0, AfterDirs().1 + AfterFiles().1)
    }

    ghost predicate Valid() {
      && Wf(cache) && Own(answers)
      && (forall i :: i in cache && answers(i).Alive? ==> answers(i).remote.dir == cache[i].dir)
      && IsMissing(dirs, cache, parent, true, listing)
      && IsMissing(files, AfterDirs().0, parent, false, listing)
    }

    ghost predicate Swept(i: Id) {
      Target(Probed().0, Under(parent), listing, Probed().1, i)
    }

    ghost function Result(): Cache {
      Sweep(Probed().0, Under(parent), listing, Probed().1)
    }
  }

  lemma ProbeMissingFacts(c: Cache, missing: seq<Id>, answers: Id -> Answer)
    requires Wf(c) && Own(answers) && Distinct(missing)
    requires forall i :: i in missing ==> i in c
    ensures var (c', spare') := ProbeMissing(c, missing, answers);
            && Wf(c') && c'.Keys == c.Keys
            && (forall u :: u in spare' ==> u.id in missing)
            && (forall i :: i in c && i !in missing ==> Kept(c[i], c'[i]))
            && (forall i :: i in missing && |missing| <= RECONCILE_PROBE_CAP ==>
                  Probed(c, c', [], spare', missing, answers, i))
            && (|missing| > RECONCILE_PROBE_CAP ==> c' == c && spare' == [])
  {
    if |missing| <= RECONCILE_PROBE_CAP {
      ProbeAllFacts(c, [], missing, answers);
      var (c', spare') := ProbeAll(c, [], missing, answers);
      assert forall i :: i in c && i !in missing ==> Probed(c, c', [], spare', missing, answers, i);
    }
  }

  /** The sweep of a directory hits a row of a kind exactly when it was missing, its own probe said
      not found (or more than the cap of its kind were missing, and nobody asked), and no unsent
      edit is below it. */
  lemma SweptDirExactly(r: DirRefresh, i: Id)
    requires r.Valid() && i in r.cache && r.cache[i].dir
    ensures r.Swept(i) <==>
            && i in r.dirs && (|r.dirs| <= RECONCILE_PROBE_CAP ==> r.answers(i).NotFound?)
            && !Shelters(UpsertAll(r.Probed().0, r.listing), i)
  {
    ProbeMissingFacts(r.cache, r.dirs, r.answers);
    var (c1, spare1) := r.AfterDirs();
    ProbeMissingFacts(c1, r.files, r.answers);
    var (c2, spare2) := r.AfterFiles();
    assert i !in r.files && Kept(c1[i], c2[i]);
    assert c1[i].uuid.id == i && c1[i].uuid !in spare2;
    if |r.dirs| <= RECONCILE_PROBE_CAP && i in r.dirs {
      assert Probed(r.cache, c1, [], spare1, r.dirs, r.answers, i);
    } else {
      assert Kept(r.cache[i], c1[i]) && c1[i].uuid !in spare1;
    }
  }

  lemma SweptFileExactly(r: DirRefresh, i: Id)
    requires r.Valid() && i in r.cache && !r.cache[i].dir
    ensures r.Swept(i) <==>
            && i in r.files && (|r.files| <= RECONCILE_PROBE_CAP ==> r.answers(i).NotFound?)
            && !Shelters(UpsertAll(r.Probed().0, r.listing), i)
  {
    ProbeMissingFacts(r.cache, r.dirs, r.answers);
    var (c1, spare1) := r.AfterDirs();
    ProbeMissingFacts(c1, r.files, r.answers);
    var (c2, spare2) := r.AfterFiles();
    assert i !in r.dirs && Kept(r.cache[i], c1[i]);
    assert c1[i].uuid.id == i && c2[i].uuid.id == i && c2[i].uuid !in spare1;
    if |r.files| <= RECONCILE_PROBE_CAP && i in r.files {
      assert Probed(c1, c2, [], spare2, r.files, r.answers, i);
    } else {
      assert Kept(c1[i], c2[i]) && c2[i].uuid !in spare2;
    }
  }

  /** The rows a refresh may change beyond their markers: children of the directory, and what it
      lists. */
  ghost predicate Touched(r: DirRefresh, i: Id) {
    Lists(r.listing, i) || (i in r.cache && InScope(r.cache[i], Under(r.parent)))
  }

  ghost function Untouched(r: DirRefresh): Cache {
    map i | i in r.cache && !Touched(r, i) :: r.cache[i]
  }

  /** Every other row comes to the sweep as it was, but for its marker. */
  lemma UntouchedRow(r: DirRefresh, i: Id)
    requires r.Valid() && !Touched(r, i)
    ensures var c' := UpsertAll(r.Probed().0, r.listing);
            && (i in c' <==> i in r.cache)
            && (i in r.cache ==> Kept(r.cache[i], c'[i]))
  {
    ProbeMissingFacts(r.cache, r.dirs, r.answers);
    var (c1, spare1) := r.AfterDirs();
    ProbeMissingFacts(c1, r.files, r.answers);
    UnlistedUntouched(r.Probed().0, r.listing, i);
    if i in r.cache {
      assert i !in r.dirs && Kept(r.cache[i], c1[i]);
    }
  }

  // ---- who survives ------------------------------------------------------------------------

  ghost predicate Asked(r: DirRefresh, i: Id) {
    || (i in r.dirs && |r.dirs| <= RECONCILE_PROBE_CAP)
    || (i in r.files && |r.files| <= RECONCILE_PROBE_CAP)
  }

  /** The cache with every child the server was asked about and still has where the server has it. */
  ghost function Told(r: DirRefresh): Cache {
    map i | i in r.cache ::
      if Asked(r, i) && r.answers(i).Alive?
      then Row(r.answers(i).remote.dir, r.answers(i).remote.uuid, r.answers(i).remote.parent,
               r.answers(i).remote.trashed, r.cache[i].pending)
      else r.cache[i]
  }

  /** And with what the listing says. */
  ghost function Known(r: DirRefresh): Cache {
    UpsertAll(Told(r), r.listing)
  }

  /** An unsent edit whose marker no answer releases. */
  ghost predicate Unsent(r: DirRefresh, j: Id) {
    j in r.cache && r.cache[j].pending && !TakenByDirs(r, j) && !TakenByFiles(r, j)
  }

  /** A missing child that the server does not have, or was not asked about among too many, with no
      unsent edit below it. */
  ghost predicate GoneSibling(r: DirRefresh, t: Id) {
    && t in r.cache && InScope(r.cache[t], Under(r.parent)) && !Lists(r.listing, t)
    && (|if r.cache[t].dir then r.dirs else r.files| <= RECONCILE_PROBE_CAP ==> r.answers(t).NotFound?)
    && !exists j :: Unsent(r, j) && Below(Known(r), t, j)
  }

  ghost predicate BelowGone(r: DirRefresh, i: Id) {
    exists t :: GoneSibling(r, t) && Below(Known(r), t, i)
  }

  lemma ProbedIsTold(r: DirRefresh)
    requires r.Valid()
    ensures SameRows(r.Probed().0, Told(r))
  {
    ProbeMissingFacts(r.cache, r.dirs, r.answers);
    var (c1, spare1) := r.AfterDirs();
    ProbeMissingFacts(c1, r.files, r.answers);
    var (c2, spare2) := r.AfterFiles();
    forall i | i in r.cache
      ensures Alike(c2[i], Told(r)[i])
    {
      if i in r.dirs {
        assert i !in r.files && Kept(c1[i], c2[i]);
        if |r.dirs| <= RECONCILE_PROBE_CAP {
          assert Probed(r.cache, c1, [], spare1, r.dirs, r.answers, i);
        }
      } else {
        assert Kept(r.cache[i], c1[i]);
        if i in r.files && |r.files| <= RECONCILE_PROBE_CAP {
          assert Probed(c1, c2, [], spare2, r.files, r.answers, i);
        }
      }
    }
  }

  lemma SweepIsKnown(r: DirRefresh)
    requires r.Valid()
    ensures SameRows(UpsertAll(r.Probed().0, r.listing), Known(r))
  {
    ProbedIsTold(r);
    UpsertsKeepSameRows(r.Probed().0, Told(r), r.listing);
  }

  lemma SheltersUnsent(r: DirRefresh, t: Id)
    requires r.Valid()
    ensures Shelters(UpsertAll(r.Probed().0, r.listing), t) <==>
            exists j :: Unsent(r, j) && Below(Known(r), t, j)
  {
    var c := r.Probed().0;
    var c' := UpsertAll(c, r.listing);
    ProbedIsTold(r);
    SweepIsKnown(r);
    forall j
      ensures j in c' && c'[j].pending <==> Unsent(r, j)
      ensures Below(c', t, j) <==> Below(Known(r), t, j)
    {
      SameRowsSameBelow(c', Known(r), t, j);
      UpsertsKeepRows(c, r.listing, j);
      if j in c' {
        MarkerAfter(r, j);
      }
    }
  }

  /** What the sweep hits, by cache, listing and answers. */
  lemma SweptIsGoneSibling(r: DirRefresh, t: Id)
    requires r.Valid()
    ensures r.Swept(t) <==> GoneSibling(r, t)
  {
    SheltersUnsent(r, t);
    ProbedIsTold(r);
    if t in r.cache {
      ProbeMissingFacts(r.cache, r.dirs, r.answers);
      if r.cache[t].dir {
        SweptDirExactly(r, t);
      } else {
        SweptFileExactly(r, t);
        assert Kept(r.cache[t], r.AfterDirs().0[t]);
      }
    }
  }

  /** A row that is no gone sibling itself, as a live or an unverifiable one never is, survives the
      refresh exactly when it is trashed, or its parent, which for a live child the server names, is
      not below a gone sibling. */
  lemma SurvivesExactly(r: DirRefresh, i: Id)
    requires r.Valid() && i in Known(r) && !GoneSibling(r, i)
    ensures i in r.Result() <==> Known(r)[i].trashed || !BelowGone(r, Known(r)[i].parent)
  {
    var (c, spare) := r.Probed();
    SweepIsKnown(r);
    SweptIsGoneSibling(r, i);
    SweepSparesExactly(c, Under(r.parent), r.listing, spare, i);
    var parent := Known(r)[i].parent;
    forall t
      ensures r.Swept(t) && Below(UpsertAll(c, r.listing), t, parent) <==>
              GoneSibling(r, t) && Below(Known(r), t, parent)
    {
      SweptIsGoneSibling(r, t);
      SameRowsSameBelow(UpsertAll(c, r.listing), Known(r), t, parent);
    }
  }

  /** What a row the refresh leaves comes to be, but for its marker: what is known of it. The marker
      stays exactly if no answer released it. */
  lemma ResultIsKnown(r: DirRefresh, i: Id)
    requires r.Valid() && i in r.Result()
    ensures i in Known(r) && r.Result()[i] == Known(r)[i].(pending := Unsent(r, i))
  {
    SweepIsKnown(r);
    MarkerAfter(r, i);
  }

  lemma MarkerAfter(r: DirRefresh, i: Id)
    requires r.Valid() && i in UpsertAll(r.Probed().0, r.listing)
    ensures UpsertAll(r.Probed().0, r.listing)[i].pending <==> Unsent(r, i)
  {
    var c := r.Probed().0;
    ProbedIsTold(r);
    UpsertsKeepMarkers(c, r.listing, i);
    if i in r.cache {
      MarkersReleasedExactly(r, i);
    }
  }

  /** A listed item is there after the refresh exactly if the listing has it trashed or its listed
      parent is not below a gone sibling, and then its row is as listed. */
  lemma ListedExactly(r: DirRefresh, k: nat)
    requires r.Valid() && k < |r.listing| && LastMention(r.listing, k)
    ensures var l := r.listing[k];
            var i := l.uuid.id;
            && (i in r.Result() <==> l.trashed || !BelowGone(r, l.parent))
            && (i in r.Result() ==>
                  r.Result()[i] == Row(l.dir, l.uuid, l.parent, l.trashed, Unsent(r, i)))
  {
    var i := r.listing[k].uuid.id;
    assert Lists(r.listing, i);
    ListedAsLast(Told(r), r.listing, k);
    SurvivesExactly(r, i);
    if i in r.Result() {
      ResultIsKnown(r, i);
    }
  }

  /** Any other row the refresh leaves is as its own probe found it alive, or as the cache had it. */
  lemma UnlistedExactly(r: DirRefresh, i: Id)
    requires r.Valid() && i in r.Result() && !Lists(r.listing, i)
    ensures i in r.cache
    ensures r.Result()[i] ==
            if Asked(r, i) && r.answers(i).Alive?
            then var l := r.answers(i).remote; Row(l.dir, l.uuid, l.parent, l.trashed, Unsent(r, i))
            else r.cache[i].(pending := Unsent(r, i))
  {
    ResultIsKnown(r, i);
    UnlistedUntouched(Told(r), r.listing, i);
  }

  /** As the cache stands before the call: the directory hangs below none of its own children and
      of nothing it lists. In a tree it never does; a chain of cached parents may loop. */
  ghost predicate AboveItsChildren(r: DirRefresh) {
    forall x :: Touched(r, x) ==> !Below(r.cache, x, r.parent)
  }

  /** Climbing from a row leads the same way before and after, up to the first row touched. */
  lemma {:induction false} ClimbBefore(r: DirRefresh, t: Id, i: Id, n: nat)
    requires r.Valid() && Chain(Known(r), t, i, n, false)
    ensures Below(r.cache, t, i) || exists x :: Touched(r, x) && Below(r.cache, x, i)
    decreases n
  {
    assert Chain(r.cache, i, i, 0, false);
    if n > 0 && !Touched(r, i) {
      SweepIsKnown(r);
      UntouchedRow(r, i);
      var p := r.cache[i].parent;
      ClimbBefore(r, t, p, n - 1);
      if Below(r.cache, t, p) {
        BelowParent(r.cache, t, i);
      } else {
        var x :| Touched(r, x) && Below(r.cache, x, p);
        BelowParent(r.cache, x, i);
      }
    }
  }

  lemma ParentNotBelowGone(r: DirRefresh)
    requires r.Valid() && AboveItsChildren(r)
    ensures !BelowGone(r, r.parent)
  {
    if t :| GoneSibling(r, t) && Below(Known(r), t, r.parent) {
      var n: nat :| Chain(Known(r), t, r.parent, n, false);
      ClimbBefore(r, t, r.parent, n);
    }
  }

  /** With no more than the cap of its kind missing, a child the server could not be asked about
      survives, unchanged, exactly if the directory itself is not below a gone child, which it never is
      unless the cached parents loop. */
  lemma UnverifiableSurvives(r: DirRefresh, i: Id)
    requires r.Valid() && |r.dirs| <= RECONCILE_PROBE_CAP && |r.files| <= RECONCILE_PROBE_CAP
    requires i in r.cache && InScope(r.cache[i], Under(r.parent)) && !Lists(r.listing, i)
    requires r.answers(i).Unverifiable?
    ensures i in r.Result() <==> !BelowGone(r, r.parent)
    ensures AboveItsChildren(r) ==> i in r.Result()
    ensures i in r.Result() ==> Kept(r.cache[i], r.Result()[i])
  {
    UnlistedUntouched(Told(r), r.listing, i);
    UnlistedUntouched(r.Probed().0, r.listing, i);
    MarkersReleasedExactly(r, i);
    SweepIsKnown(r);
    SurvivesExactly(r, i);
    if AboveItsChildren(r) {
      ParentNotBelowGone(r);
    }
  }

  lemma ProbeOne(c: Cache, i: Id, answers: Id -> Answer)
    ensures ProbeAll(c, [], [i], answers) == ProbeStep(c, [], i, answers(i))
  {
  }

  /** A live row need not survive: the server moved file 3 into directory 2, and 2 out of 1 before 1
      was deleted for good. The cache still has 2 below 1, so the delete of 1 takes the file whose
      probe has just found it alive. */
  lemma LiveRowCanBeCascaded()
    ensures exists r: DirRefresh :: r.Valid() && 3 in r.cache && r.answers(3).Alive?
              && |r.dirs| == 1 && |r.files| == 1 && 3 !in r.Result()
  {
    var row1 := Row(true, Uuid(1, 0), 0, false, false);
    var row2 := Row(true, Uuid(2, 0), 1, false, false);
    var row3 := Row(false, Uuid(3, 0), 0, false, false);
    var c: Cache := map[1 := row1, 2 := row2, 3 := row3];
    var moved := Remote(false, Uuid(3, 0), 2, false);
    var answers := (i: Id) => if i == 3 then Alive(moved) else NotFound;
    var r := DirRefresh(c, 0, [], [1], [3], answers);
    ReleasedKeeps(c, 1);
    assert Released(c, 1) == c;
    ProbeOne(c, 1, answers);
    ProbeOne(c, 3, answers);
    var c2 := Upsert(c, moved);
    assert r.AfterDirs() == (c, []);
    assert r.AfterFiles() == (c2, [] + [Uuid(3, 0)]);
    assert r.Valid();
    SweptDirExactly(r, 1);
    assert r.Probed().0 == c2 && UpsertAll(c2, []) == c2;
    assert r.Swept(1);
    assert Chain(c2, 1, 1, 0, false) && Chain(c2, 1, 2, 1, false) && Chain(c2, 1, 3, 2, false);
    assert Below(c2, 1, 3);
    DeletedExactly(c2, Under(0), [], r.Probed().1, 3);
  }

  // ---- whose markers are released ----------------------------------------------------------

  ghost predicate TakenByDirs(r: DirRefresh, i: Id) {
    |r.dirs| <= RECONCILE_PROBE_CAP && Taken(r.cache, [], r.dirs, r.answers, i)
  }

  ghost predicate TakenByFiles(r: DirRefresh, i: Id) {
    |r.files| <= RECONCILE_PROBE_CAP && Taken(r.AfterDirs().0, [], r.files, r.answers, i)
  }

  /** In a refresh a row's marker goes if and only if it is, or at its turn is below, a row whose
      probe answers not-found. */
  lemma MarkersReleasedExactly(r: DirRefresh, i: Id)
    requires r.Valid() && i in r.cache
    ensures var c := r.Probed().0;
            i in c && (c[i].pending <==>
                       r.cache[i].pending && !TakenByDirs(r, i) && !TakenByFiles(r, i))
  {
    ProbeMissingFacts(r.cache, r.dirs, r.answers);
    var (c1, spare1) := r.AfterDirs();
    if |r.dirs| <= RECONCILE_PROBE_CAP {
      ReleasedExactly(r.cache, [], r.dirs, r.answers, i);
    }
    if |r.files| <= RECONCILE_PROBE_CAP {
      ReleasedExactly(c1, [], r.files, r.answers, i);
    }
  }

  /** A directory that is gone takes the marker of every row cached below it, through rows the refresh
      does not touch, and the row too, unless another unsent edit comes to be below the directory:
      nobody asks whether the file was moved out of it and lives on. */
  lemma GoneDirectoryTakesEditsBelow(r: DirRefresh, d: Id, i: Id, n: nat)
    requires r.Valid() && |r.dirs| <= RECONCILE_PROBE_CAP
    requires d in r.dirs && r.answers(d).NotFound? && i in r.cache
    requires Chain(Untouched(r), d, i, n, false)
    ensures i in r.Probed().0 && !r.Probed().0[i].pending
    ensures i in r.Result() ==> Shelters(UpsertAll(r.Probed().0, r.listing), d)
  {
    var rest := Untouched(r);
    var c' := UpsertAll(r.Probed().0, r.listing);
    forall j | j in rest
      ensures j in c' && Kept(rest[j], c'[j])
    {
      UntouchedRow(r, j);
    }
    ChainStands(rest, c', d, i, n);
    assert Below(c', d, i);
    SweptDirExactly(r, d);
    DeletedExactly(r.Probed().0, Under(r.parent), r.listing, r.Probed().1, i);
    var unasked := Without(r.cache, r.dirs);
    assert forall j :: j in rest ==> j in unasked && Kept(rest[j], unasked[j]);
    ChainStands(rest, unasked, d, i, n);
    GoneTakesBelow(r.cache, [], r.dirs, r.answers, d, i, n);
    MarkersReleasedExactly(r, i);
  }

  /** One such: directory 1 is gone, and file 2, with an unsent edit, was moved from it to directory 5
      before, as the server would have said. */
  ghost function MovedOut(): DirRefresh {
    DirRefresh(map[1 := Row(true, Uuid(1, 0), 0, false, false), 2 := Row(false, Uuid(2, 0), 1, false, true)],
               0, [], [1], [],
               (i: Id) => if i == 2 then Alive(Remote(false, Uuid(2, 0), 5, false)) else NotFound)
  }

  lemma MovedOutIsValid()
    ensures MovedOut().Valid() && MovedOut().Probed().0 == Released(MovedOut().cache, 1)
  {
    var r := MovedOut();
    ReleasedKeeps(r.cache, 1);
    ProbeOne(r.cache, 1, r.answers);
    assert r.AfterFiles() == (r.AfterDirs().0, []);
  }

  lemma LiveEditIsReleased()
    ensures var r := MovedOut();
            && r.Valid() && r.cache[2].pending && r.answers(2).Alive? && r.answers(2).remote.parent == 5
            && 2 in r.Probed().0 && !r.Probed().0[2].pending && 2 !in r.Result()
  {
    var r := MovedOut();
    MovedOutIsValid();
    var rest := Untouched(r);
    assert 2 in rest && Chain(rest, 1, 1, 0, false) && Chain(rest, 1, 2, 1, false);
    GoneDirectoryTakesEditsBelow(r, 1, 2, 1);
    ReleasedKeeps(r.cache, 1);
    assert forall i :: i in r.Probed().0 ==> !r.Probed().0[i].pending;
    assert UpsertAll(r.Probed().0, []) == r.Probed().0;
  }
}
