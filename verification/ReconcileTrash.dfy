/** Refreshing the trash (`remote.rs`): a bounded number of missing rows is asked about, the rest
    spared, and the sweep follows. */
module ReconcileTrash {
  import opened Prelude
  import opened Reconcile

  ghost predicate ListsUuid(listing: seq<Remote>, u: Uuid) {
    exists r :: r in listing && r.uuid == u
  }

  ghost function MissingTrash(c: Cache, listing: seq<Remote>): set<Id> {
    set i | i in c && c[i].trashed && !ListsUuid(listing, c[i].uuid)
  }

  function UuidsOf(c: Cache, ids: seq<Id>): seq<Uuid>
    requires forall i :: i in ids ==> i in c
  {
    seq(|ids|, k requires 0 <= k < |ids| => assert ids[k] in ids; c[ids[k]].uuid)
  }

  /** One refresh of the trash: the missing rows as the query lists them, of which at most the cap
      are asked about, in the order their probes came back in, and the rest spared. */
  datatype TrashRefresh = TrashRefresh(cache: Cache, listing: seq<Remote>, missing: seq<Id>,
                                       probed: seq<Id>, answers: Id -> Answer)
  {
    function Chunk(): seq<Id> {
      if |missing| > RECONCILE_PROBE_CAP then missing[..RECONCILE_PROBE_CAP] else missing
    }

    function Rest(): seq<Id> {
      missing[|Chunk()|..]
    }

    ghost predicate Valid() {
      && Wf(cache) && Own(answers)
      && (forall r :: r in listing ==> r.trashed)
      && Distinct(missing) && (forall i :: i in missing <==> i in MissingTrash(cache, listing))
      && Distinct(probed) && (forall i :: i in probed <==> i in Chunk())
    }

    ghost function Spared(): seq<Uuid>
      requires Valid()
    {
      assert forall i :: i in Rest() ==> i in missing;
      UuidsOf(cache, Rest())
    }

    ghost function Probed(): (Cache, seq<Uuid>)
      requires Valid()
    {
      ProbeAll(cache, Spared(), probed, answers)
    }

    ghost predicate Swept(i: Id)
      requires Valid()
    {
      Target(Probed().0, Trash, listing, Probed().1, i)
    }

    ghost function Result(): Cache
      requires Valid()
    {
      Sweep(Probed().0, Trash, listing, Probed().1)
    }
  }

  lemma ChunkAndRest(r: TrashRefresh, i: Id)
    requires r.Valid()
    ensures i in r.missing <==> i in r.probed || i in r.Rest()
    ensures !(i in r.probed && i in r.Rest())
    ensures |r.Rest()| == if |r.missing| > RECONCILE_PROBE_CAP then |r.missing| - RECONCILE_PROBE_CAP else 0
  {
  }

  lemma UuidsOfMembers(c: Cache, ids: seq<Id>, i: Id)
    requires Wf(c) && (forall j :: j in ids ==> j in c) && i in c
    ensures c[i].uuid in UuidsOf(c, ids) <==> i in ids
    ensures forall u :: u in UuidsOf(c, ids) ==> u.id in ids
  {
    var us := UuidsOf(c, ids);
    forall k | 0 <= k < |ids|
      ensures us[k].id == ids[k]
    {
      assert ids[k] in ids;
    }
    if i in ids {
      var k :| 0 <= k < |ids| && ids[k] == i;
      assert us[k] == c[i].uuid;
    }
  }

  lemma TrashProbes(r: TrashRefresh, i: Id)
    requires r.Valid() && i in r.cache
    ensures var (c', spare') := r.Probed();
            && Wf(c') && c'.Keys == r.cache.Keys
            && (i in r.Rest() ==> Kept(r.cache[i], c'[i]) && c'[i].uuid in spare')
            && (i !in r.missing ==> Kept(r.cache[i], c'[i]))
            && (i in r.probed ==>
                  Probed(r.cache, c', r.Spared(), spare', r.probed, r.answers, i))
  {
    assert forall j :: j in r.Rest() ==> j in r.missing;
    assert forall j :: j in r.probed ==> j in r.missing;
    var spare := r.Spared();
    forall u | u in spare
      ensures u.id !in r.probed
    {
      UuidsOfMembers(r.cache, r.Rest(), i);
      ChunkAndRest(r, u.id);
    }
    ProbeAllFacts(r.cache, spare, r.probed, r.answers);
    var (c', spare') := r.Probed();
    assert Probed(r.cache, c', spare, spare', r.probed, r.answers, i);
    ChunkAndRest(r, i);
    UuidsOfMembers(r.cache, r.Rest(), i);
  }

  /** Any number missing: the sweep of the trash hits a row exactly when its own probe said not
      found, the listing has it under no other uuid, and no unsent edit is below it. */
  lemma SweptTrashExactly(r: TrashRefresh, i: Id)
    requires r.Valid() && i in r.cache
    ensures r.Swept(i) <==>
            && i in r.probed && r.answers(i).NotFound? && !Lists(r.listing, i)
            && !Shelters(UpsertAll(r.Probed().0, r.listing), i)
  {
    TrashProbes(r, i);
    ChunkAndRest(r, i);
    assert ListsUuid(r.listing, r.cache[i].uuid) ==> Lists(r.listing, i);
  }

  // ---- who survives ------------------------------------------------------------------------

  ghost predicate BelowSwept(r: TrashRefresh, i: Id)
    requires r.Valid()
  {
    BelowTarget(r.Probed().0, Trash, r.listing, r.Probed().1, i)
  }

  /** A row that is still trashed survives exactly if the sweep does not hit it, a restored one
      exactly if its new parent is not below a row it hits. */
  lemma TrashSurvivesExactly(r: TrashRefresh, i: Id)
    requires r.Valid() && i in UpsertAll(r.Probed().0, r.listing)
    ensures var row := UpsertAll(r.Probed().0, r.listing)[i];
            i in r.Result() <==> if row.trashed then !r.Swept(i) else !BelowSwept(r, row.parent)
  {
    var (c, spare) := r.Probed();
    var c' := UpsertAll(c, r.listing);
    if r.Swept(i) {
      UnlistedUntouched(c, r.listing, i);
      assert Chain(c', i, i, 0, false) && Below(c', i, i);
      DeletedExactly(c, Trash, r.listing, spare, i);
    } else {
      SweepSparesExactly(c, Trash, r.listing, spare, i);
    }
  }

  /** A missing row that was not asked about, could not be verified, or is alive and still trashed
      survives. */
  lemma UnverifiableTrashSurvives(r: TrashRefresh, i: Id)
    requires r.Valid() && i in r.missing
    requires i in r.probed ==>
               r.answers(i).Unverifiable? || (r.answers(i).Alive? && r.answers(i).remote.trashed)
    ensures i in r.Result()
    ensures !Lists(r.listing, i) && (i in r.probed ==> r.answers(i).Unverifiable?) ==>
              Kept(r.cache[i], r.Result()[i])
  {
    var (c, spare) := r.Probed();
    TrashProbes(r, i);
    ChunkAndRest(r, i);
    SweptTrashExactly(r, i);
    if Lists(r.listing, i) {
      ListedRow(c, r.listing, i);
    } else {
      UnlistedUntouched(c, r.listing, i);
    }
    TrashSurvivesExactly(r, i);
  }

  /** A listed row ends up under a listed uuid. */
  lemma {:induction false} ListedRow(c: Cache, listing: seq<Remote>, i: Id)
    requires Lists(listing, i)
    ensures i in UpsertAll(c, listing) && ListsUuid(listing, UpsertAll(c, listing)[i].uuid)
    ensures (forall r :: r in listing ==> r.trashed) ==> UpsertAll(c, listing)[i].trashed
    decreases |listing|
  {
    var init, last := listing[..|listing| - 1], listing[|listing| - 1];
    assert listing == init + [last];
    if last.uuid.id != i {
      ListedRow(c, init, i);
    }
  }

  // ---- whose markers are released ----------------------------------------------------------

  lemma SparedNotProbed(r: TrashRefresh)
    requires r.Valid()
    ensures NotAmong(r.Spared(), r.probed) && forall i :: i in r.probed ==> i in r.cache
  {
    assert forall j :: j in r.Rest() ==> j in r.missing;
    assert forall j :: j in r.probed ==> j in r.missing;
    forall u | u in r.Spared()
      ensures u.id !in r.probed
    {
      ChunkAndRest(r, u.id);
      var k :| 0 <= k < |r.Spared()| && r.Spared()[k] == u;
      assert r.Rest()[k] in r.Rest();
    }
  }

  ghost predicate TakenByProbes(r: TrashRefresh, i: Id)
    requires r.Valid()
  {
    Taken(r.cache, r.Spared(), r.probed, r.answers, i)
  }

  /** A row's marker goes if and only if it is, or at its turn is below, a row whose probe answers
      not-found. */
  lemma TrashMarkersReleasedExactly(r: TrashRefresh, i: Id)
    requires r.Valid() && i in r.cache
    ensures var c := r.Probed().0;
            i in c && (c[i].pending <==> r.cache[i].pending && !TakenByProbes(r, i))
  {
    SparedNotProbed(r);
    ReleasedExactly(r.cache, r.Spared(), r.probed, r.answers, i);
  }

  /** A row that is gone takes the markers below it: the rows on the way are not trashed, so none of
      them is asked about. */
  lemma GoneTakesEditsBelow(r: TrashRefresh, g: Id, i: Id)
    requires r.Valid() && g in r.probed && r.answers(g).NotFound? && i in r.cache && Takes(r.cache, g, i)
    ensures i in r.Probed().0 && !r.Probed().0[i].pending
  {
    SparedNotProbed(r);
    TrashMarkersReleasedExactly(r, i);
    if r.cache[g].dir {
      var n: nat :| Chain(r.cache, g, i, n, false);
      UntrashedChain(r, g, i, n);
      GoneTakesBelow(r.cache, r.Spared(), r.probed, r.answers, g, i, n);
    } else {
      TrashProbes(r, g);
      OwnMarker(r, g);
    }
  }

  lemma OwnMarker(r: TrashRefresh, g: Id)
    requires r.Valid() && g in r.probed && r.answers(g).NotFound? && g in r.cache && !r.cache[g].dir
    ensures TakenByProbes(r, g)
  {
    SparedNotProbed(r);
    var k :| 0 <= k < |r.probed| && r.probed[k] == g;
    var before := r.probed[..k];
    assert forall i :: i in before ==> i in r.probed;
    assert g !in before;
    ProbeAllFacts(r.cache, r.Spared(), before, r.answers);
    var (c1, spare1) := ProbeAll(r.cache, r.Spared(), before, r.answers);
    assert Probed(r.cache, c1, r.Spared(), spare1, before, r.answers, g);
    assert TakenAt(r.cache, r.Spared(), r.probed, r.answers, k, g);
  }

  lemma {:induction false} UntrashedChain(r: TrashRefresh, g: Id, i: Id, n: nat)
    requires r.Valid() && Chain(r.cache, g, i, n, false)
    ensures Chain(Without(r.cache, r.probed), g, i, n, false)
    decreases n
  {
    if n > 0 {
      ChunkAndRest(r, i);
      UntrashedChain(r, g, r.cache[i].parent, n - 1);
    }
  }

  // ---- what the rows come to be ------------------------------------------------------------

  /** An unsent edit whose marker no answer releases. */
  ghost predicate Unsent(r: TrashRefresh, i: Id)
    requires r.Valid()
  {
    i in r.cache && r.cache[i].pending && !TakenByProbes(r, i)
  }

  /** Every listed item is in the trash afterwards, as listed. */
  lemma ListedTrashExactly(r: TrashRefresh, k: nat)
    requires r.Valid() && k < |r.listing| && LastMention(r.listing, k)
    ensures var l := r.listing[k];
            && l.uuid.id in r.Result()
            && r.Result()[l.uuid.id] == Row(l.dir, l.uuid, l.parent, true, Unsent(r, l.uuid.id))
  {
    var i := r.listing[k].uuid.id;
    assert Lists(r.listing, i);
    SparedNotProbed(r);
    ProbeAllFacts(r.cache, r.Spared(), r.probed, r.answers);
    ListedAsLast(r.Probed().0, r.listing, k);
    TrashSurvivesExactly(r, i);
    if i in r.cache {
      TrashMarkersReleasedExactly(r, i);
    }
  }

  /** Any other row the refresh leaves is as its own probe found it alive, or as the cache had it. */
  lemma UnlistedTrashExactly(r: TrashRefresh, i: Id)
    requires r.Valid() && i in r.Result() && !Lists(r.listing, i)
    ensures i in r.cache
    ensures r.Result()[i] ==
            if i in r.probed && r.answers(i).Alive?
            then var l := r.answers(i).remote; Row(l.dir, l.uuid, l.parent, l.trashed, Unsent(r, i))
            else r.cache[i].(pending := Unsent(r, i))
  {
    SparedNotProbed(r);
    ProbeAllFacts(r.cache, r.Spared(), r.probed, r.answers);
    UnlistedUntouched(r.Probed().0, r.listing, i);
    TrashProbes(r, i);
    ChunkAndRest(r, i);
    TrashMarkersReleasedExactly(r, i);
  }

  // ---- the trash settles -------------------------------------------------------------------

  /** Every missing row's probe finds it restored or gone. */
  ghost predicate Settling(c: Cache, listing: seq<Remote>, answers: Id -> Answer) {
    forall i :: i in MissingTrash(c, listing) ==>
      answers(i).NotFound? || (answers(i).Alive? && !answers(i).remote.trashed)
  }

  /** The cache with every missing row the server still has where the server has it. */
  ghost function Restored(c: Cache, listing: seq<Remote>, answers: Id -> Answer): Cache {
    map i | i in c ::
      if i in MissingTrash(c, listing) && answers(i).Alive?
      then Row(answers(i).remote.dir, answers(i).remote.uuid, answers(i).remote.parent,
               answers(i).remote.trashed, c[i].pending)
      else c[i]
  }

  /** No restored row brings an unsent edit below a gone one: whatever unsent edit is below a gone row
      then is one its own probe releases. */
  ghost predicate Unsheltered(c: Cache, listing: seq<Remote>, answers: Id -> Answer) {
    forall g, i :: (g in MissingTrash(c, listing) && answers(g).NotFound? && i in c && c[i].pending
                    && Below(Restored(c, listing, answers), g, i)) ==> Takes(c, g, i)
  }

  /** How a row stands when the sweep begins: where the server has it, listed, or still trashed. */
  lemma RowAtSweep(r: TrashRefresh, i: Id)
    requires r.Valid() && i in UpsertAll(r.Probed().0, r.listing)
    ensures var row := UpsertAll(r.Probed().0, r.listing)[i];
            !row.trashed ==>
              && i in r.cache && !Lists(r.listing, i)
              && Kept(Restored(r.cache, r.listing, r.answers)[i], row)
  {
    var (c, spare) := r.Probed();
    RefreshKeys(r);
    if Lists(r.listing, i) {
      ListedRow(c, r.listing, i);
    } else {
      UnlistedUntouched(c, r.listing, i);
      TrashProbes(r, i);
      ChunkAndRest(r, i);
      TrashMarkersReleasedExactly(r, i);
    }
  }

  lemma {:induction false} ChainAtSweep(r: TrashRefresh, g: Id, i: Id, n: nat)
    requires r.Valid() && Chain(UpsertAll(r.Probed().0, r.listing), g, i, n, false)
    ensures Chain(Restored(r.cache, r.listing, r.answers), g, i, n, false)
    decreases n
  {
    if n > 0 {
      RowAtSweep(r, i);
      ChainAtSweep(r, g, UpsertAll(r.Probed().0, r.listing)[i].parent, n - 1);
    }
  }

  /** A marker at the sweep is one the cache had, and no probe released. */
  lemma MarkerAtSweep(r: TrashRefresh, i: Id)
    requires r.Valid() && i in UpsertAll(r.Probed().0, r.listing)
    requires UpsertAll(r.Probed().0, r.listing)[i].pending
    ensures i in r.cache && r.cache[i].pending && i in r.Probed().0 && r.Probed().0[i].pending
  {
    UpsertsKeepMarkers(r.Probed().0, r.listing, i);
    RefreshKeys(r);
    TrashMarkersReleasedExactly(r, i);
  }

  lemma GoneIsUnsheltered(r: TrashRefresh, g: Id)
    requires r.Valid() && Unsheltered(r.cache, r.listing, r.answers)
    requires g in r.probed && r.answers(g).NotFound?
    ensures !Shelters(UpsertAll(r.Probed().0, r.listing), g)
  {
    var c' := UpsertAll(r.Probed().0, r.listing);
    if Shelters(c', g) {
      var i :| i in c' && c'[i].pending && Below(c', g, i);
      var n: nat :| Chain(c', g, i, n, false);
      ChainAtSweep(r, g, i, n);
      MarkerAtSweep(r, i);
      ChunkAndRest(r, g);
      assert Below(Restored(r.cache, r.listing, r.answers), g, i);
      GoneTakesEditsBelow(r, g, i);
    }
  }

  /** After a refresh, what is missing is among the rows this one did not get to. */
  lemma RefreshSettlesChunk(r: TrashRefresh, i: Id)
    requires r.Valid() && Settling(r.cache, r.listing, r.answers)
    requires Unsheltered(r.cache, r.listing, r.answers)
    requires i in MissingTrash(r.Result(), r.listing)
    ensures i in r.Rest() && !Lists(r.listing, i)
  {
    var (c, spare) := r.Probed();
    if Lists(r.listing, i) {
      ListedRow(c, r.listing, i);
    }
    UnlistedUntouched(c, r.listing, i);
    RefreshKeys(r);
    TrashProbes(r, i);
    ChunkAndRest(r, i);
    if i in r.probed && r.answers(i).NotFound? {
      GoneIsUnsheltered(r, i);
      GoneSettledExactly(r, i);
    }
  }

  // ---- and stays unsheltered ---------------------------------------------------------------

  /** A row the refresh leaves untrashed is as restored before it, and so after it. */
  lemma RowAfter(r: TrashRefresh, i: Id)
    requires r.Valid() && Settling(r.cache, r.listing, r.answers)
    requires Unsheltered(r.cache, r.listing, r.answers) && i in r.Result()
    requires !Restored(r.Result(), r.listing, r.answers)[i].trashed
    ensures i in r.cache
    ensures Kept(Restored(r.cache, r.listing, r.answers)[i], Restored(r.Result(), r.listing, r.answers)[i])
    ensures i !in MissingTrash(r.cache, r.listing) ==> Kept(r.cache[i], r.Result()[i])
  {
    RowAtSweep(r, i);
    if i in MissingTrash(r.Result(), r.listing) {
      RefreshSettlesChunk(r, i);
      ChunkAndRest(r, i);
      UnlistedUntouched(r.Probed().0, r.listing, i);
      TrashProbes(r, i);
    }
  }

  lemma {:induction false} ChainAfter(r: TrashRefresh, g: Id, i: Id, n: nat)
    requires r.Valid() && Settling(r.cache, r.listing, r.answers)
    requires Unsheltered(r.cache, r.listing, r.answers)
    requires Chain(Restored(r.Result(), r.listing, r.answers), g, i, n, false)
    ensures Chain(Restored(r.cache, r.listing, r.answers), g, i, n, false)
    decreases n
  {
    if n > 0 {
      RowAfter(r, i);
      ChainAfter(r, g, Restored(r.Result(), r.listing, r.answers)[i].parent, n - 1);
    }
  }

  /** A way down that the cache had and the restored rows still have, the refreshed cache has. */
  lemma {:induction false} WayAfter(r: TrashRefresh, g: Id, i: Id, n: nat, m: nat)
    requires r.Valid() && Settling(r.cache, r.listing, r.answers)
    requires Unsheltered(r.cache, r.listing, r.answers)
    requires Chain(Restored(r.Result(), r.listing, r.answers), g, i, n, false)
    requires Chain(r.cache, g, i, m, false)
    ensures Below(r.Result(), g, i)
    decreases n
  {
    assert Chain(r.Result(), i, i, 0, false);
    if i != g {
      RowAfter(r, i);
      WayAfter(r, g, r.cache[i].parent, n - 1, m - 1);
      BelowParent(r.Result(), g, i);
    }
  }

  lemma RefreshStaysUnsheltered(r: TrashRefresh)
    requires r.Valid() && Settling(r.cache, r.listing, r.answers)
    requires Unsheltered(r.cache, r.listing, r.answers)
    ensures Unsheltered(r.Result(), r.listing, r.answers)
  {
    var c' := r.Result();
    var restored := Restored(c', r.listing, r.answers);
    forall g, i | g in MissingTrash(c', r.listing) && r.answers(g).NotFound? && i in c' && c'[i].pending
                  && Below(restored, g, i)
      ensures Takes(c', g, i)
    {
      MarkerAtSweep(r, i);
      var n: nat :| Chain(restored, g, i, n, false);
      ChainAfter(r, g, i, n);
      assert Below(Restored(r.cache, r.listing, r.answers), g, i);
      RefreshSettlesChunk(r, g);
      ChunkAndRest(r, g);
      TrashProbes(r, g);
      UnlistedUntouched(r.Probed().0, r.listing, g);
      if r.cache[g].dir {
        var m: nat :| Chain(r.cache, g, i, m, false);
        WayAfter(r, g, i, n, m);
      }
    }
  }

  lemma RefreshKeys(r: TrashRefresh)
    requires r.Valid()
    ensures r.Probed().0.Keys == r.cache.Keys
  {
    var keys := r.cache.Keys;
    if keys != {} {
      var i :| i in keys;
      TrashProbes(r, i);
    } else {
      assert r.probed == [] by {
        assert r.probed != [] ==> r.probed[0] in r.probed;
        assert forall j :: j in r.Chunk() ==> j in r.missing;
      }
    }
  }

  lemma DistinctSize(s: seq<Id>, ids: set<Id>)
    requires Distinct(s) && forall i :: i in ids <==> i in s
    ensures |ids| == |s|
    decreases |s|
  {
    if s == [] {
      assert ids == {};
    } else {
      var init, last := s[..|s| - 1], s[|s| - 1];
      assert s == init + [last];
      assert last !in init;
      DistinctSize(init, ids - {last});
    }
  }

  /** Each refresh settles a whole chunk, or all that is left. */
  lemma RefreshProgress(r: TrashRefresh)
    requires r.Valid() && Settling(r.cache, r.listing, r.answers)
    requires Unsheltered(r.cache, r.listing, r.answers)
    ensures var before := MissingTrash(r.cache, r.listing);
            var after := MissingTrash(r.Result(), r.listing);
            && after <= before
            && |after| <= (if |before| > RECONCILE_PROBE_CAP then |before| - RECONCILE_PROBE_CAP else 0)
  {
    var before, after := MissingTrash(r.cache, r.listing), MissingTrash(r.Result(), r.listing);
    DistinctSize(r.missing, before);
    var rest := set i | i in r.Rest();
    forall i | i in after
      ensures i in rest
    {
      RefreshSettlesChunk(r, i);
    }
    forall i | i in rest
      ensures i in before
    {
      ChunkAndRest(r, i);
    }
    ChunkAndRest(r, 0);
    RestDistinct(r);
    DistinctSize(r.Rest(), rest);
    SubsetSize(after, rest);
  }

  lemma RestDistinct(r: TrashRefresh)
    requires r.Valid()
    ensures Distinct(r.Rest())
  {
  }

  /** Caches of a run of refreshes against the same listing and the same answers. */
  ghost predicate Refreshes(caches: seq<Cache>, listing: seq<Remote>, answers: Id -> Answer) {
    forall k :: 0 <= k < |caches| - 1 ==> RefreshedTo(caches[k], caches[k + 1], listing, answers)
  }

  ghost predicate RefreshedTo(c: Cache, c': Cache, listing: seq<Remote>, answers: Id -> Answer) {
    exists r: TrashRefresh ::
      r.cache == c && r.listing == listing && r.answers == answers && r.Valid() && r.Result() == c'
  }

  lemma {:induction false} RunProgress(caches: seq<Cache>, listing: seq<Remote>,
                                       answers: Id -> Answer, k: nat)
    requires k < |caches| && Refreshes(caches, listing, answers)
    requires Settling(caches[0], listing, answers) && Unsheltered(caches[0], listing, answers)
    ensures Settling(caches[k], listing, answers) && Unsheltered(caches[k], listing, answers)
    ensures var n := |MissingTrash(caches[0], listing)|;
            |MissingTrash(caches[k], listing)|
              <= (if n > k * RECONCILE_PROBE_CAP then n - k * RECONCILE_PROBE_CAP else 0)
  {
    if k > 0 {
      RunProgress(caches, listing, answers, k - 1);
      assert RefreshedTo(caches[k - 1], caches[k - 1 + 1], listing, answers);
      var r: TrashRefresh :| r.cache == caches[k - 1] && r.listing == listing
        && r.answers == answers && r.Valid() && r.Result() == caches[k];
      RefreshProgress(r);
      RefreshStaysUnsheltered(r);
    }
  }

  /** When every probe finds its item restored or gone, and no restored row brings an unsent edit
      below a gone one, `n` missing trashed rows are settled in ceil(n / 64) refreshes. */
  lemma TrashSettles(caches: seq<Cache>, listing: seq<Remote>, answers: Id -> Answer, rounds: nat)
    requires Refreshes(caches, listing, answers) && rounds < |caches|
    requires Settling(caches[0], listing, answers) && Unsheltered(caches[0], listing, answers)
    requires IsCeilDiv(rounds, |MissingTrash(caches[0], listing)|, RECONCILE_PROBE_CAP)
    ensures MissingTrash(caches[rounds], listing) == {}
  {
    RunProgress(caches, listing, answers, rounds);
  }

  /** With unsent edits, a probed row that is gone is settled exactly when none is below it once the
      other probes' answers and the listing are in. */
  lemma GoneSettledExactly(r: TrashRefresh, i: Id)
    requires r.Valid() && i in r.probed && r.answers(i).NotFound? && !Lists(r.listing, i)
    ensures i in MissingTrash(r.Result(), r.listing) <==>
            Shelters(UpsertAll(r.Probed().0, r.listing), i)
  {
    var (c, spare) := r.Probed();
    var c' := UpsertAll(c, r.listing);
    assert i in r.missing by {
      ChunkAndRest(r, i);
    }
    TrashProbes(r, i);
    SweptTrashExactly(r, i);
    UnlistedUntouched(c, r.listing, i);
    DeletedExactly(c, Trash, r.listing, spare, i);
    assert Chain(c', i, i, 0, false);
    assert i in c' && c'[i].trashed;
  }

  /** One that is not settled: the gone directory 1 still has 2 below it in the cache, and file 3,
      with an unsent edit, is restored into 2. */
  ghost function RestoredInto(): TrashRefresh {
    TrashRefresh(map[1 := Row(true, Uuid(1, 0), 0, true, false), 2 := Row(true, Uuid(2, 0), 1, false, false),
                     3 := Row(false, Uuid(3, 0), 0, true, true)],
                 [], [1, 3], [1, 3],
                 (i: Id) => if i == 3 then Alive(Remote(false, Uuid(3, 0), 2, false)) else NotFound)
  }

  lemma RestoredIntoIsValid()
    ensures var r := RestoredInto();
            && r.Valid() && Settling(r.cache, r.listing, r.answers)
            && r.Probed().0 == Upsert(r.cache, r.answers(3).remote)
  {
    var r := RestoredInto();
    assert MissingTrash(r.cache, []) == {1, 3};
    assert r.Chunk() == [1, 3] && r.Rest() == [];
    FileStaysMarked(r.cache);
    ProbeTwo(r.cache, r.Spared(), 1, 3, r.answers);
  }

  lemma FileStaysMarked(c: Cache)
    requires c == RestoredInto().cache
    ensures Released(c, 1) == c
  {
    forall n: nat
      ensures !Chain(c, 1, 3, n, false)
    {
    }
  }

  lemma ShelteredTrashStays()
    ensures var r := RestoredInto();
            && r.Valid() && Settling(r.cache, r.listing, r.answers)
            && IsCeilDiv(1, |r.missing|, RECONCILE_PROBE_CAP)
            && MissingTrash(r.Result(), r.listing) != {}
  {
    var r := RestoredInto();
    RestoredIntoIsValid();
    var c2 := r.Probed().0;
    assert UpsertAll(c2, []) == c2;
    assert Chain(c2, 1, 1, 0, false) && Chain(c2, 1, 2, 1, false) && Chain(c2, 1, 3, 2, false);
    assert Below(c2, 1, 3) && c2[3].pending;
    GoneSettledExactly(r, 1);
  }

  lemma ProbeTwo(c: Cache, spare: seq<Uuid>, i: Id, j: Id, answers: Id -> Answer)
    ensures var (c1, spare1) := ProbeStep(c, spare, i, answers(i));
            ProbeAll(c, spare, [i, j], answers) == ProbeStep(c1, spare1, j, answers(j))
  {
    assert [i, j][..1] == [i] && [i][..0] == [];
    assert ProbeAll(c, spare, [], answers) == (c, spare);
    assert ProbeAll(c, spare, [i], answers) == ProbeStep(c, spare, i, answers(i));
  }
}
