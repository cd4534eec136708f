/** Refreshing a listing (`remote.rs`): cached rows the fresh listing lacks are asked about one by
    one, then the sweep deletes what is neither listed, spared nor sheltering an unsent edit. */
module Reconcile {
  import opened Prelude

  /** Above this many missing rows, not every one is asked about. */
  const RECONCILE_PROBE_CAP := 64

  /** An item's whole-life id: a directory's uuid, a file's stable uuid. */
  type Id = nat

  /** A uuid belongs to one item for good; an edit of a file mints its next one. */
  datatype Uuid = Uuid(id: Id, version: nat)

  /** A trashed row keeps its original parent. `pending`: it holds an edit not yet sent. */
  datatype Row = Row(dir: bool, uuid: Uuid, parent: Id, trashed: bool, pending: bool)

  type Cache = map<Id, Row>

  /** An item as the server describes it. */
  datatype Remote = Remote(dir: bool, uuid: Uuid, parent: Id, trashed: bool)

  /** What a probe by identity comes back with. */
  datatype Answer = Alive(remote: Remote) | NotFound | Unverifiable

  ghost predicate Wf(c: Cache) {
    forall i :: i in c ==> c[i].uuid.id == i
  }

  /** A probe answers about the item it was asked about. */
  ghost predicate Own(answers: Id -> Answer) {
    forall i :: answers(i).Alive? ==> answers(i).remote.uuid.id == i
  }

  predicate Distinct<T(==)>(s: seq<T>) {
    forall i, j :: 0 <= i < j < |s| ==> s[i] != s[j]
  }

  function Upsert(c: Cache, r: Remote): Cache {
    var i := r.uuid.id;
    c[i := Row(r.dir, r.uuid, r.parent, r.trashed, i in c && c[i].pending)]
  }

  // ---- what hangs below a row --------------------------------------------------------------

  /** `i` is `n` levels below `top`, through rows that are not trashed: what a delete of `top`
      cascades through. A guarded chain also stops at unsent edits, as the cascade does. */
  ghost predicate Chain(c: Cache, top: Id, i: Id, n: nat, guarded: bool)
    decreases n
  {
    if n == 0 then i == top
    else && i in c && !c[i].trashed && (guarded ==> !c[i].pending)
         && Chain(c, top, c[i].parent, n - 1, guarded)
  }

  ghost predicate Below(c: Cache, top: Id, i: Id) {
    exists n: nat :: Chain(c, top, i, n, false)
  }

  lemma {:induction false} ChainsJoin(c: Cache, top: Id, mid: Id, i: Id, m: nat, n: nat)
    requires Chain(c, top, mid, m, false) && Chain(c, mid, i, n, false)
    ensures Chain(c, top, i, n + m, false)
    decreases n
  {
    if n > 0 {
      ChainsJoin(c, top, mid, c[i].parent, m, n - 1);
    }
  }

  lemma BelowParent(c: Cache, top: Id, i: Id)
    requires i in c && !c[i].trashed && Below(c, top, c[i].parent)
    ensures Below(c, top, i)
  {
    var n: nat :| Chain(c, top, c[i].parent, n, false);
    assert Chain(c, top, i, n + 1, false);
  }

  /** The recursive walk of `clear_pending_upload_subtree`, generation after generation. */
  method Walk(c: Cache, top: Id) returns (doomed: set<Id>)
    ensures forall i :: i in doomed <==> Below(c, top, i)
  {
    doomed := {top};
    assert Chain(c, top, top, 0, false);
    var added := {top};
    while added != {}
      invariant top in doomed && doomed <= c.Keys + {top}
      invariant added <= doomed
      invariant forall i :: i in doomed ==> Below(c, top, i)
      invariant forall i :: i in c && !c[i].trashed && c[i].parent in doomed - added ==> i in doomed
      decreases c.Keys + {top} - doomed, added
    {
      var next := set i | i in c && !c[i].trashed && c[i].parent in added && i !in doomed;
      forall i | i in next
        ensures Below(c, top, i)
      {
        var n: nat :| Chain(c, top, c[i].parent, n, false);
        assert Chain(c, top, i, n + 1, false);
      }
      if next != {} {
        var x :| x in next;
        assert x in (c.Keys + {top} - doomed) && x !in (c.Keys + {top} - (doomed + next));
      }
      doomed, added := doomed + next, next;
    }
    forall i, n: nat | Chain(c, top, i, n, false)
      ensures i in doomed
    {
      ClosedUnderChains(c, top, i, n, doomed);
    }
  }

  lemma {:induction false} ClosedUnderChains(c: Cache, top: Id, i: Id, n: nat, doomed: set<Id>)
    requires top in doomed && Chain(c, top, i, n, false)
    requires forall j :: j in c && !c[j].trashed && c[j].parent in doomed ==> j in doomed
    ensures i in doomed
    decreases n
  {
    if n > 0 {
      ClosedUnderChains(c, top, c[i].parent, n - 1, doomed);
    }
  }

  function ClearMarkers(c: Cache, ids: set<Id>): Cache {
    map i | i in c :: if i in ids then c[i].(pending := false) else c[i]
  }

  /** The lineage is gone: no unsent edit of the row, or below the directory, has a target left. */
  ghost function Released(c: Cache, i: Id): Cache {
    if i in c && c[i].dir then ClearMarkers(c, set j | j in c && Below(c, i, j))
    else ClearMarkers(c, {i})
  }

  // ---- asking about the missing rows -------------------------------------------------------

  ghost function ProbeStep(c: Cache, spare: seq<Uuid>, i: Id, answer: Answer): (Cache, seq<Uuid>) {
    match answer
    case Alive(remote) => (Upsert(c, remote), spare + [remote.uuid])
    case NotFound => (Released(c, i), spare)
    case Unverifiable => (c, if i in c then spare + [c[i].uuid] else spare)
  }

  ghost function ProbeAll(c: Cache, spare: seq<Uuid>, probed: seq<Id>, answers: Id -> Answer)
    : (Cache, seq<Uuid>)
  {
    if probed == [] then (c, spare)
    else
      var last := probed[|probed| - 1];
      var (c', spare') := ProbeAll(c, spare, probed[..|probed| - 1], answers);
      ProbeStep(c', spare', last, answers(last))
  }

  /** The cache's rows and the loop over the probes' answers, in the order they came in. */
  class Items {
    var rows: Cache

    constructor (rows: Cache)
      ensures this.rows == rows
    {
      this.rows := rows;
    }

    method Release(i: Id)
      modifies this
      ensures rows == Released(old(rows), i)
    {
      if i in rows && rows[i].dir {
        var doomed := Walk(rows, i);
        ghost var below := set j | j in rows && Below(rows, i, j);
        assert ClearMarkers(rows, doomed) == ClearMarkers(rows, below);
        rows := ClearMarkers(rows, doomed);
      } else {
        rows := ClearMarkers(rows, {i});
      }
    }

    method Probe(spared: seq<Uuid>, probed: seq<Id>, answers: Id -> Answer) returns (spare: seq<Uuid>)
      modifies this
      ensures (rows, spare) == ProbeAll(old(rows), spared, probed, answers)
    {
      spare := spared;
      for k := 0 to |probed|
        invariant (rows, spare) == ProbeAll(old(rows), spared, probed[..k], answers)
      {
        assert probed[..k + 1][..k] == probed[..k];
        var i := probed[k];
        match answers(i) {
          case Alive(remote) =>
            rows := Upsert(rows, remote);
            spare := spare + [remote.uuid];
          case NotFound => Release(i);
          case Unverifiable =>
            if i in rows {
              spare := spare + [rows[i].uuid];
            }
        }
      }
      assert probed[..|probed|] == probed;
    }
  }

  // ---- the sweep ---------------------------------------------------------------------------

  /** What one listing is of. */
  datatype Scope = Under(parent: Id) | Trash

  predicate InScope(row: Row, scope: Scope) {
    match scope
    case Under(parent) => row.parent == parent && !row.trashed
    case Trash => row.trashed
  }

  function UpsertAll(c: Cache, listing: seq<Remote>): Cache {
    if listing == [] then c
    else Upsert(UpsertAll(c, listing[..|listing| - 1]), listing[|listing| - 1])
  }

  /** The listing says nothing later about the item: always so where it has each item once. */
  predicate LastMention(listing: seq<Remote>, k: nat)
    requires k < |listing|
  {
    forall j :: k < j < |listing| ==> listing[j].uuid.id != listing[k].uuid.id
  }

  ghost predicate Lists(listing: seq<Remote>, i: Id) {
    exists r :: r in listing && r.uuid.id == i
  }

  /** `i` holds an unsent edit, or one would go with it. */
  ghost predicate Shelters(c: Cache, i: Id) {
    exists r :: r in c && c[r].pending && Below(c, i, r)
  }

  /** The rows the sweep itself deletes: in scope when it marks, not listed, not spared, and
      sheltering no unsent edit once the listing is in. */
  ghost predicate Target(c: Cache, scope: Scope, listing: seq<Remote>, spare: seq<Uuid>, i: Id) {
    && i in c && InScope(c[i], scope)
    && !Lists(listing, i) && c[i].uuid !in spare
    && !Shelters(UpsertAll(c, listing), i)
  }

  ghost predicate Deleted(c: Cache, scope: Scope, listing: seq<Remote>, spare: seq<Uuid>, i: Id) {
    exists t, n: nat :: Target(c, scope, listing, spare, t) && Chain(UpsertAll(c, listing), t, i, n, true)
  }

  /** `update_items_with_parent` and `update_trashed_items`, cascade included. */
  ghost function Sweep(c: Cache, scope: Scope, listing: seq<Remote>, spare: seq<Uuid>): Cache {
    var c' := UpsertAll(c, listing);
    map i | i in c' && !Deleted(c, scope, listing, spare, i) :: c'[i]
  }

  lemma {:induction false} GuardedIsChain(c: Cache, top: Id, i: Id, n: nat)
    requires Chain(c, top, i, n, true)
    ensures Chain(c, top, i, n, false)
    decreases n
  {
    if n > 0 {
      GuardedIsChain(c, top, c[i].parent, n - 1);
    }
  }

  /** Nothing the sweep deletes, cascade included, holds an unsent edit or has one below it: no edit
      is deleted and none is orphaned. */
  lemma SweepKeepsUnsentEdits(c: Cache, scope: Scope, listing: seq<Remote>, spare: seq<Uuid>, i: Id)
    requires Deleted(c, scope, listing, spare, i)
    ensures !Shelters(UpsertAll(c, listing), i)
  {
    var c' := UpsertAll(c, listing);
    var t, n: nat :| Target(c, scope, listing, spare, t) && Chain(c', t, i, n, true);
    GuardedIsChain(c', t, i, n);
    if Shelters(c', i) {
      var r :| r in c' && c'[r].pending && Below(c', i, r);
      var m: nat :| Chain(c', i, r, m, false);
      ChainsJoin(c', t, i, r, n, m);
      assert Below(c', t, r);
    }
  }

  lemma {:induction false} UnlistedUntouched(c: Cache, listing: seq<Remote>, i: Id)
    requires !Lists(listing, i)
    ensures i in UpsertAll(c, listing) <==> i in c
    ensures i in c ==> UpsertAll(c, listing)[i] == c[i]
  {
    if listing != [] {
      assert listing[|listing| - 1] in listing;
      var rest := listing[..|listing| - 1];
      assert forall r :: r in rest ==> r in listing;
      UnlistedUntouched(c, rest, i);
    }
  }

  lemma {:induction false} UpsertsKeepMarkers(c: Cache, listing: seq<Remote>, i: Id)
    requires i in UpsertAll(c, listing)
    ensures UpsertAll(c, listing)[i].pending <==> i in c && c[i].pending
    decreases |listing|
  {
    if listing != [] {
      var init, last := listing[..|listing| - 1], listing[|listing| - 1];
      if i in UpsertAll(c, init) {
        UpsertsKeepMarkers(c, init, i);
      } else {
        UpsertsKeepRows(c, init, i);
      }
    }
  }

  lemma {:induction false} UpsertsKeepRows(c: Cache, listing: seq<Remote>, i: Id)
    ensures i in c ==> i in UpsertAll(c, listing)
    decreases |listing|
  {
    if listing != [] {
      UpsertsKeepRows(c, listing[..|listing| - 1], i);
    }
  }

  /** A listed row is as the listing has it last, but for its marker, which stays as it was. */
  lemma {:induction false} ListedAsLast(c: Cache, listing: seq<Remote>, k: nat)
    requires k < |listing| && LastMention(listing, k)
    ensures var r := listing[k];
            && r.uuid.id in UpsertAll(c, listing)
            && UpsertAll(c, listing)[r.uuid.id] ==
               Row(r.dir, r.uuid, r.parent, r.trashed, r.uuid.id in c && c[r.uuid.id].pending)
    decreases |listing|
  {
    var init, i := listing[..|listing| - 1], listing[k].uuid.id;
    if k < |init| {
      ListedAsLast(c, init, k);
    } else if i in UpsertAll(c, init) {
      UpsertsKeepMarkers(c, init, i);
    } else {
      UpsertsKeepRows(c, init, i);
    }
  }

  lemma ShelterStopsNothingElse(c: Cache, top: Id, i: Id, n: nat)
    requires Chain(c, top, i, n, false) && !Shelters(c, top)
    ensures Chain(c, top, i, n, true)
    decreases n
  {
    if n > 0 {
      assert i in c && c[i].pending ==> Below(c, top, i);
      ShelterStopsNothingElse(c, top, c[i].parent, n - 1);
    }
  }

  /** A row is gone exactly when it is a target or below one, through rows not trashed. */
  lemma DeletedExactly(c: Cache, scope: Scope, listing: seq<Remote>, spare: seq<Uuid>, i: Id)
    ensures Deleted(c, scope, listing, spare, i) <==>
            exists t :: Target(c, scope, listing, spare, t) && Below(UpsertAll(c, listing), t, i)
  {
    var c' := UpsertAll(c, listing);
    if Deleted(c, scope, listing, spare, i) {
      var t, n: nat :| Target(c, scope, listing, spare, t) && Chain(c', t, i, n, true);
      GuardedIsChain(c', t, i, n);
      assert Below(c', t, i);
    }
    if t :| Target(c, scope, listing, spare, t) && Below(c', t, i) {
      var n: nat :| Chain(c', t, i, n, false);
      ShelterStopsNothingElse(c', t, i, n);
    }
  }

  // ---- what the probes leave behind --------------------------------------------------------

  /** The same row, but for a released marker. */
  predicate Kept(row: Row, row': Row) {
    row' == row || row' == row.(pending := false)
  }

  /** What a round of probes did about row `i`. */
  ghost predicate Probed(c: Cache, c': Cache, spare: seq<Uuid>, spare': seq<Uuid>, probed: seq<Id>,
                         answers: Id -> Answer, i: Id)
    requires i in c && i in c'
  {
    if i !in probed then Kept(c[i], c'[i]) && (c'[i].uuid in spare' <==> c[i].uuid in spare)
    else match answers(i)
      case Alive(r) =>
        && c'[i].uuid in spare'
        && (c'[i].dir, c'[i].uuid, c'[i].parent, c'[i].trashed) == (r.dir, r.uuid, r.parent, r.trashed)
      case NotFound => Kept(c[i], c'[i]) && c'[i].uuid !in spare'
      case Unverifiable => Kept(c[i], c'[i]) && c'[i].uuid in spare'
  }

  predicate NotAmong(spare: seq<Uuid>, ids: seq<Id>) {
    forall u :: u in spare ==> u.id !in ids
  }

  lemma ReleasedKeeps(c: Cache, i: Id)
    ensures Released(c, i).Keys == c.Keys
    ensures forall j :: j in c ==> Kept(c[j], Released(c, i)[j])
  {
  }

  lemma ProbeStepKeys(c: Cache, spare: seq<Uuid>, i: Id, answer: Answer)
    requires Wf(c) && i in c && (answer.Alive? ==> answer.remote.uuid.id == i)
    ensures var (c', spare') := ProbeStep(c, spare, i, answer);
            && Wf(c') && c'.Keys == c.Keys
            && spare <= spare' && (forall u :: u in spare' ==> u in spare || u.id == i)
            && forall j :: j in c && j != i ==> Kept(c[j], c'[j])
  {
  }

  /** Only its own probe spares a row, and only a live one changes more than its marker. */
  ghost predicate ProbeFacts(c: Cache, c': Cache, spare: seq<Uuid>, spare': seq<Uuid>,
                             probed: seq<Id>, answers: Id -> Answer)
  {
    && Wf(c') && c'.Keys == c.Keys
    && (forall u :: u in spare' ==> u in spare || u.id in probed)
    && forall i :: i in c ==> Probed(c, c', spare, spare', probed, answers, i)
  }

  lemma {:induction false} ProbeAllFacts(c: Cache, spare: seq<Uuid>, probed: seq<Id>,
                                         answers: Id -> Answer)
    requires Wf(c) && Own(answers) && Distinct(probed) && NotAmong(spare, probed)
    requires forall i :: i in probed ==> i in c
    ensures var (c', spare') := ProbeAll(c, spare, probed, answers);
            ProbeFacts(c, c', spare, spare', probed, answers)
    decreases |probed|
  {
    if probed != [] {
      var init, last := probed[..|probed| - 1], probed[|probed| - 1];
      assert forall i :: i in init ==> i in probed;
      ProbeAllFacts(c, spare, init, answers);
      var (c1, spare1) := ProbeAll(c, spare, init, answers);
      assert last in probed && last !in init;
      ProbeFactsStep(c, c1, spare, spare1, probed, answers);
    }
  }

  lemma ProbeFactsStep(c: Cache, c1: Cache, spare: seq<Uuid>, spare1: seq<Uuid>, probed: seq<Id>,
                       answers: Id -> Answer)
    requires Wf(c) && Own(answers) && NotAmong(spare, probed)
    requires probed != [] && probed[|probed| - 1] in c
    requires probed[|probed| - 1] !in probed[..|probed| - 1]
    requires ProbeFacts(c, c1, spare, spare1, probed[..|probed| - 1], answers)
    ensures var last := probed[|probed| - 1];
            var (c2, spare2) := ProbeStep(c1, spare1, last, answers(last));
            ProbeFacts(c, c2, spare, spare2, probed, answers)
  {
    var init, last := probed[..|probed| - 1], probed[|probed| - 1];
    assert probed == init + [last];
    ProbeStepKeys(c1, spare1, last, answers(last));
    var (c2, spare2) := ProbeStep(c1, spare1, last, answers(last));
    forall i | i in c
      ensures Probed(c, c2, spare, spare2, probed, answers, i)
    {
      assert Probed(c, c1, spare, spare1, init, answers, i);
      if i == last {
        LastProbe(c, c1, spare, spare1, probed, answers);
      } else {
        OtherProbe(c, c1, c2, spare, spare1, spare2, init, last, answers, i);
      }
    }
  }

  lemma OtherProbe(c: Cache, c1: Cache, c2: Cache, spare: seq<Uuid>, spare1: seq<Uuid>,
                   spare2: seq<Uuid>, init: seq<Id>, last: Id, answers: Id -> Answer, i: Id)
    requires i in c && i in c1 && i in c2 && i != last && c1[i].uuid.id == i
    requires Probed(c, c1, spare, spare1, init, answers, i) && Kept(c1[i], c2[i])
    requires spare1 <= spare2 && forall u :: u in spare2 ==> u in spare1 || u.id == last
    ensures Probed(c, c2, spare, spare2, init + [last], answers, i)
  {
  }

  lemma LastProbe(c: Cache, c1: Cache, spare: seq<Uuid>, spare1: seq<Uuid>, probed: seq<Id>,
                  answers: Id -> Answer)
    requires Wf(c) && Wf(c1) && c1.Keys == c.Keys && Own(answers) && NotAmong(spare, probed)
    requires probed != [] && probed[|probed| - 1] in c
    requires var last := probed[|probed| - 1];
             && last !in probed[..|probed| - 1] && Kept(c[last], c1[last])
             && (forall u :: u in spare1 ==> u in spare || u.id in probed[..|probed| - 1])
    ensures var last := probed[|probed| - 1];
            var (c2, spare2) := ProbeStep(c1, spare1, last, answers(last));
            last in c2 && Probed(c, c2, spare, spare2, probed, answers, last)
  {
  }

  // ---- whose markers a round of probes releases --------------------------------------------

  /** A not-found answer about `i` releases the marker of `j`. */
  ghost predicate Takes(c: Cache, i: Id, j: Id) {
    if i in c && c[i].dir then j in c && Below(c, i, j) else j == i
  }

  /** The `k`th answer of the round is not-found, and `j` is its row or, as the cache then stands,
      below it. */
  ghost predicate TakenAt(c: Cache, spare: seq<Uuid>, probed: seq<Id>, answers: Id -> Answer, k: nat,
                          j: Id)
    requires k < |probed|
  {
    answers(probed[k]).NotFound? && Takes(ProbeAll(c, spare, probed[..k], answers).0, probed[k], j)
  }

  ghost predicate Taken(c: Cache, spare: seq<Uuid>, probed: seq<Id>, answers: Id -> Answer, j: Id) {
    exists k: nat :: k < |probed| && TakenAt(c, spare, probed, answers, k, j)
  }

  lemma ProbeStepMarker(c: Cache, spare: seq<Uuid>, i: Id, answer: Answer, j: Id)
    requires j in c && i in c && (answer.Alive? ==> answer.remote.uuid.id == i)
    ensures var c' := ProbeStep(c, spare, i, answer).0;
            j in c' && (c'[j].pending <==> c[j].pending && !(answer.NotFound? && Takes(c, i, j)))
  {
  }

  /** A row's marker goes if and only if, at the turn of some row answered not-found, it is that row
      or below it. */
  lemma {:induction false} ReleasedExactly(c: Cache, spare: seq<Uuid>, probed: seq<Id>,
                                           answers: Id -> Answer, j: Id)
    requires Wf(c) && Own(answers) && Distinct(probed) && NotAmong(spare, probed)
    requires (forall i :: i in probed ==> i in c) && j in c
    ensures var c' := ProbeAll(c, spare, probed, answers).0;
            j in c' && (c'[j].pending <==> c[j].pending && !Taken(c, spare, probed, answers, j))
    decreases |probed|
  {
    if probed != [] {
      var init, last := probed[..|probed| - 1], probed[|probed| - 1];
      assert forall i :: i in init ==> i in probed;
      ReleasedExactly(c, spare, init, answers, j);
      ProbeAllFacts(c, spare, init, answers);
      assert last in probed;
      var (c1, spare1) := ProbeAll(c, spare, init, answers);
      ProbeStepMarker(c1, spare1, last, answers(last), j);
      TakenSnoc(c, spare, probed, answers, j);
    }
  }

  lemma TakenSnoc(c: Cache, spare: seq<Uuid>, probed: seq<Id>, answers: Id -> Answer, j: Id)
    requires probed != []
    ensures var init := probed[..|probed| - 1];
            Taken(c, spare, probed, answers, j) <==>
            Taken(c, spare, init, answers, j) || TakenAt(c, spare, probed, answers, |probed| - 1, j)
  {
    var init := probed[..|probed| - 1];
    forall k: nat | k < |init|
      ensures TakenAt(c, spare, init, answers, k, j) <==> TakenAt(c, spare, probed, answers, k, j)
    {
      assert init[..k] == probed[..k];
    }
  }

  /** The rows that are not among the given. */
  function Without(c: Cache, ids: seq<Id>): Cache {
    map i | i in c && i !in ids :: c[i]
  }

  /** Markers aside, a chain of rows that a round does not ask about stands at every turn of it: so
      a row gone takes the markers below it. */
  lemma GoneTakesBelow(c: Cache, spare: seq<Uuid>, probed: seq<Id>, answers: Id -> Answer, g: Id, j: Id,
                       n: nat)
    requires Wf(c) && Own(answers) && Distinct(probed) && NotAmong(spare, probed)
    requires (forall i :: i in probed ==> i in c) && g in probed && answers(g).NotFound? && j in c
    requires c[g].dir && Chain(Without(c, probed), g, j, n, false)
    ensures Taken(c, spare, probed, answers, j)
  {
    var k :| 0 <= k < |probed| && probed[k] == g;
    var before := probed[..k];
    assert forall i :: i in before ==> i in probed;
    assert g !in before;
    ProbeAllFacts(c, spare, before, answers);
    var (c1, spare1) := ProbeAll(c, spare, before, answers);
    var rest := Without(c, probed);
    assert Probed(c, c1, spare, spare1, before, answers, g);
    forall i | i in rest
      ensures i in c1 && Kept(rest[i], c1[i])
    {
      assert Probed(c, c1, spare, spare1, before, answers, i);
    }
    ChainStands(rest, c1, g, j, n);
    assert Below(c1, g, j);
    assert TakenAt(c, spare, probed, answers, k, j);
  }

  /** Markers aside, the same rows make the same chains. */
  lemma {:induction false} ChainStands(c: Cache, c': Cache, top: Id, i: Id, n: nat)
    requires Chain(c, top, i, n, false)
    requires forall j :: j in c ==> j in c' && Kept(c[j], c'[j])
    ensures Chain(c', top, i, n, false)
    decreases n
  {
    if n > 0 {
      ChainStands(c, c', top, c[i].parent, n - 1);
    }
  }

  // ---- which rows survive a sweep ----------------------------------------------------------

  ghost predicate BelowTarget(c: Cache, scope: Scope, listing: seq<Remote>, spare: seq<Uuid>, i: Id) {
    exists t :: Target(c, scope, listing, spare, t) && Below(UpsertAll(c, listing), t, i)
  }

  /** A row the sweep does not hit itself survives it exactly when it is trashed or its parent is not
      below one it hits. */
  lemma SweepSparesExactly(c: Cache, scope: Scope, listing: seq<Remote>, spare: seq<Uuid>, i: Id)
    requires i in UpsertAll(c, listing) && !Target(c, scope, listing, spare, i)
    ensures var row := UpsertAll(c, listing)[i];
            i in Sweep(c, scope, listing, spare) <==>
            row.trashed || !BelowTarget(c, scope, listing, spare, row.parent)
  {
    var c' := UpsertAll(c, listing);
    DeletedExactly(c, scope, listing, spare, i);
    if t :| Target(c, scope, listing, spare, t) && Below(c', t, i) {
      var n: nat :| Chain(c', t, i, n, false);
      assert n > 0 && Chain(c', t, c'[i].parent, n - 1, false);
    }
    if t :| !c'[i].trashed && Target(c, scope, listing, spare, t) && Below(c', t, c'[i].parent) {
      var n: nat :| Chain(c', t, c'[i].parent, n, false);
      assert Chain(c', t, i, n + 1, false);
    }
  }

  // ---- caches that differ in markers only --------------------------------------------------

  predicate Alike(a: Row, b: Row) {
    a.(pending := false) == b.(pending := false)
  }

  ghost predicate SameRows(c: Cache, c': Cache) {
    c.Keys == c'.Keys && forall i :: i in c ==> Alike(c[i], c'[i])
  }

  lemma {:induction false} UpsertsKeepSameRows(c: Cache, c': Cache, listing: seq<Remote>)
    requires SameRows(c, c')
    ensures SameRows(UpsertAll(c, listing), UpsertAll(c', listing))
    decreases |listing|
  {
    if listing != [] {
      UpsertsKeepSameRows(c, c', listing[..|listing| - 1]);
    }
  }

  lemma {:induction false} SameRowsSameChain(c: Cache, c': Cache, top: Id, i: Id, n: nat)
    requires SameRows(c, c') && Chain(c, top, i, n, false)
    ensures Chain(c', top, i, n, false)
    decreases n
  {
    if n > 0 {
      SameRowsSameChain(c, c', top, c[i].parent, n - 1);
    }
  }

  lemma SameRowsSameBelow(c: Cache, c': Cache, top: Id, i: Id)
    requires SameRows(c, c')
    ensures Below(c, top, i) <==> Below(c', top, i)
  {
    if Below(c, top, i) {
      var n: nat :| Chain(c, top, i, n, false);
      SameRowsSameChain(c, c', top, i, n);
    }
    if Below(c', top, i) {
      var n: nat :| Chain(c', top, i, n, false);
      SameRowsSameChain(c', c, top, i, n);
    }
  }
}
