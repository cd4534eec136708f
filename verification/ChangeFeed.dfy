/** The change feed of the mobile cache: one pooled, strictly increasing change sequence over live
    rows and tombstones, served in bounded pages by `changes_since` while other writers move on. */
module ChangeFeed {
  import opened Prelude
  import opened AnchorCodec

  type Id = nat
  type Value = nat

  /** What the store says about a provider id. A live row is incomplete between the insert of its
      `items` half and of its `files`/`dirs` half; the second insert stamps it again. */
  datatype Item = Live(value: Value, complete: bool) | Retired

  datatype Entry = Entry(id: Id, stamp: nat, item: Item)

  /** `log` holds the current stamp of every stamped id, in stamp order (`items` and `tombstones`
      pooled). `phantoms` are the ids whose row was deleted while it held an unsent edit: their
      tombstone is suppressed, so no table says anything about them. */
  datatype Store = Store(instance: Instance, counter: nat, log: seq<Entry>, phantoms: set<Id>)

  predicate Ordered(log: seq<Entry>) {
    forall i, j :: 0 <= i < j < |log| ==> log[i].stamp < log[j].stamp
  }

  predicate DistinctIds(log: seq<Entry>) {
    forall i, j :: 0 <= i < j < |log| ==> log[i].id != log[j].id
  }

  ghost predicate ValidStore(st: Store) {
    && Ordered(st.log)
    && DistinctIds(st.log)
    && st.counter <= I64_MAX
    && forall e :: e in st.log ==> 0 < e.stamp <= st.counter && e.id !in st.phantoms
  }

  function Filter(log: seq<Entry>, keep: Entry -> bool): seq<Entry> {
    if log == [] then []
    else Filter(log[..|log| - 1], keep) + if keep(log[|log| - 1]) then [log[|log| - 1]] else []
  }

  lemma {:induction false} FilterMembers(log: seq<Entry>, keep: Entry -> bool)
    ensures forall e :: e in Filter(log, keep) <==> e in log && keep(e)
  {
    if log != [] {
      FilterMembers(log[..|log| - 1], keep);
      assert log == log[..|log| - 1] + [log[|log| - 1]];
    }
  }

  lemma {:induction false} FilterKeepsOrder(log: seq<Entry>, keep: Entry -> bool)
    ensures Ordered(log) ==> Ordered(Filter(log, keep))
    ensures DistinctIds(log) ==> DistinctIds(Filter(log, keep))
  {
    if log != [] {
      var init := log[..|log| - 1];
      FilterKeepsOrder(init, keep);
      FilterMembers(init, keep);
      var r := Filter(init, keep);
      forall i | 0 <= i < |r|
        ensures Ordered(log) ==> r[i].stamp < log[|log| - 1].stamp
        ensures DistinctIds(log) ==> r[i].id != log[|log| - 1].id
      {
        assert r[i] in init;
      }
    }
  }

  lemma BeforeLast(log: seq<Entry>, e: Entry)
    requires Ordered(log) && log != []
    ensures var last := log[|log| - 1];
            && (e in log[..|log| - 1] <==> e in log && e != last)
            && (e in log && e != last ==> e.stamp < last.stamp)
  {
  }

  ghost predicate SameEntries(a: seq<Entry>, b: seq<Entry>) {
    forall e :: e in a <==> e in b
  }

  lemma SameLast(a: seq<Entry>, b: seq<Entry>)
    requires Ordered(a) && Ordered(b) && a != [] && b != []
    requires SameEntries(a, b)
    ensures a[|a| - 1] == b[|b| - 1]
    ensures SameEntries(a[..|a| - 1], b[..|b| - 1])
  {
    var x, y := a[|a| - 1], b[|b| - 1];
    assert x in b && y in a;
    BeforeLast(a, y);
    BeforeLast(b, x);
    var a', b' := a[..|a| - 1], b[..|b| - 1];
    forall e
      ensures e in a' <==> e in b'
    {
      BeforeLast(a, e);
      BeforeLast(b, e);
    }
  }

  lemma EmptyOrMember(log: seq<Entry>)
    ensures log == [] || exists e :: e in log
  {
    assert log != [] ==> log[0] in log;
  }

  /** An ordered log is determined by its entries. */
  lemma {:induction false} OrderedUnique(a: seq<Entry>, b: seq<Entry>)
    requires Ordered(a) && Ordered(b)
    requires SameEntries(a, b)
    ensures a == b
  {
    assert a != [] ==> a[0] in b;
    assert b != [] ==> b[0] in a;
    if a != [] {
      SameLast(a, b);
      var a', b' := a[..|a| - 1], b[..|b| - 1];
      OrderedUnique(a', b');
      assert a == a' + [a[|a| - 1]] && b == b' + [b[|b| - 1]];
    }
  }

  // ---- the store's reads -------------------------------------------------------------------

  /** The entries stamped strictly above `floor` and at or below `cutoff`, oldest first. */
  function Between(log: seq<Entry>, floor: int, cutoff: int): (r: seq<Entry>)
    ensures forall e :: e in r <==> e in log && floor < e.stamp <= cutoff
  {
    FilterMembers(log, (e: Entry) => floor < e.stamp <= cutoff);
    Filter(log, (e: Entry) => floor < e.stamp <= cutoff)
  }

  /** `select_change_seqs_page`: at most `k` entries above `floor`, oldest first. */
  function FirstAbove(log: seq<Entry>, floor: int, k: nat): (r: seq<Entry>)
    ensures |r| <= k
  {
    var all := Between(log, floor, I64_MAX);
    if |all| <= k then all else all[..k]
  }

  function SelectChangedItems(log: seq<Entry>, floor: int, cutoff: int): (r: seq<Entry>)
    ensures forall e :: e in r <==>
              e in log && floor < e.stamp <= cutoff && e.item.Live? && e.item.complete
  {
    FilterMembers(Between(log, floor, cutoff), (e: Entry) => e.item.Live? && e.item.complete);
    Filter(Between(log, floor, cutoff), (e: Entry) => e.item.Live? && e.item.complete)
  }

  function SelectRetired(log: seq<Entry>, floor: int, cutoff: int): (r: seq<Entry>)
    ensures forall e :: e in r <==> e in log && floor < e.stamp <= cutoff && e.item.Retired?
  {
    FilterMembers(Between(log, floor, cutoff), (e: Entry) => e.item.Retired?);
    Filter(Between(log, floor, cutoff), (e: Entry) => e.item.Retired?)
  }

  // ---- the store's writes ------------------------------------------------------------------

  function Without(log: seq<Entry>, id: Id): (r: seq<Entry>)
    ensures forall e :: e in r <==> e in log && e.id != id
  {
    FilterMembers(log, (e: Entry) => e.id != id);
    Filter(log, (e: Entry) => e.id != id)
  }

  /** A write raises the counter, then stamps the one id it changed with it; a row adopting a
      retired id drops the tombstone, a retired id drops the row. */
  function Stamp(st: Store, id: Id, item: Item): Store {
    Store(st.instance, st.counter + 1,
          Without(st.log, id) + [Entry(id, st.counter + 1, item)], st.phantoms - {id})
  }

  /** A row deleted while it holds an unsent edit: no tombstone, no stamp. */
  function SuppressDelete(st: Store, id: Id): Store {
    Store(st.instance, st.counter, Without(st.log, id), st.phantoms + {id})
  }

  lemma StampValid(st: Store, id: Id, item: Item)
    requires ValidStore(st) && st.counter < I64_MAX
    ensures ValidStore(Stamp(st, id, item))
    ensures forall e :: e in Stamp(st, id, item).log <==>
              (e in st.log && e.id != id) || e == Entry(id, st.counter + 1, item)
  {
    FilterKeepsOrder(st.log, (e: Entry) => e.id != id);
    var rest := Without(st.log, id);
    forall i | 0 <= i < |rest|
      ensures rest[i].stamp < st.counter + 1 && rest[i].id != id
    {
      assert rest[i] in rest;
    }
  }

  lemma SuppressValid(st: Store, id: Id)
    requires ValidStore(st)
    ensures ValidStore(SuppressDelete(st, id))
  {
    FilterKeepsOrder(st.log, (e: Entry) => e.id != id);
  }

  lemma SameId(log: seq<Entry>, a: Entry, b: Entry)
    requires DistinctIds(log) && a in log && b in log && a.id == b.id
    ensures a == b
  {
  }

  // ---- one uninterrupted call --------------------------------------------------------------

  datatype Page = Page(updated: seq<Entry>, deleted: seq<Entry>, anchor: I64, more: bool)

  /** The page cutoff: a partial page ends at its last change, a final page is unbounded. */
  function CutoffOf(log: seq<Entry>, floor: int, limit: nat): (c: (int, bool))
    ensures c.1 ==> limit > 0
  {
    if limit == 0 then (I64_MAX, false)
    else
      var seqs := FirstAbove(log, floor, limit + 1);
      if |seqs| > limit then (seqs[limit - 1].stamp, true) else (I64_MAX, false)
  }

  /** The anchor handed back: the cutoff of a partial page, else the counter read first. */
  function NextAnchor(seqNo: int, cutoff: int, more: bool): int {
    if more then cutoff else seqNo
  }

  lemma CutoffBounded(st: Store, floor: int, limit: nat)
    requires ValidStore(st)
    ensures var (cutoff, more) := CutoffOf(st.log, floor, limit);
            && (more ==> floor < cutoff <= st.counter)
            && (!more ==> cutoff == I64_MAX)
  {
  }

  /** `changes_since` with nothing written between its reads, above an anchor or from scratch. */
  function PageAbove(st: Store, floor: I64, anchored: bool, limit: nat): Page
    requires ValidStore(st)
  {
    CutoffBounded(st, floor, limit);
    var (cutoff, more) := CutoffOf(st.log, floor, limit);
    Page(SelectChangedItems(st.log, floor, cutoff),
         RetiredFor(st.log, anchored, floor, cutoff),
         NextAnchor(st.counter, cutoff, more), more)
  }

  function ChangesSince(st: Store, anchor: Option<seq<Byte>>, limit: nat): Result<Page, AnchorError>
    requires ValidStore(st)
  {
    match anchor
    case None => Ok(PageAbove(st, 0, false, limit))
    case Some(bytes) =>
      match DecodeAnchor(bytes, st.instance)
      case Err(e) => Err(e)
      case Ok(floor) => Ok(PageAbove(st, floor, true, limit))
  }

  // ---- the replica -------------------------------------------------------------------------

  type Replica = map<Id, Value>

  function ApplyUpdates(replica: Replica, updated: seq<Entry>): Replica
    requires forall e :: e in updated ==> e.item.Live?
  {
    if updated == [] then replica
    else
      var last := updated[|updated| - 1];
      ApplyUpdates(replica, updated[..|updated| - 1])[last.id := last.item.value]
  }

  ghost predicate Mentions(updated: seq<Entry>, id: Id) {
    exists e :: e in updated && e.id == id
  }

  lemma {:induction false} Applied(replica: Replica, updated: seq<Entry>, id: Id)
    requires forall e :: e in updated ==> e.item.Live?
    ensures var r := ApplyUpdates(replica, updated);
            && (id in r <==> id in replica || Mentions(updated, id))
            && (id in r && !Mentions(updated, id) ==> r[id] == replica[id])
  {
    if updated != [] {
      var init, last := updated[..|updated| - 1], updated[|updated| - 1];
      Applied(replica, init, id);
      assert updated == init + [last];
      assert Mentions(updated, id) <==> Mentions(init, id) || id == last.id by {
        assert last in updated;
      }
    }
  }

  lemma {:induction false} AppliedEntry(replica: Replica, updated: seq<Entry>, e: Entry)
    requires forall e :: e in updated ==> e.item.Live?
    requires DistinctIds(updated) && e in updated
    ensures var r := ApplyUpdates(replica, updated); e.id in r && r[e.id] == e.item.value
  {
    var init, last := updated[..|updated| - 1], updated[|updated| - 1];
    assert updated == init + [last];
    if e != last {
      SameId(updated, last, if last.id == e.id then e else last);
      AppliedEntry(replica, init, e);
    }
  }

  /** A replica applies a page's updates, then its deletions. */
  function ApplyPage(replica: Replica, updated: seq<Entry>, deleted: seq<Entry>): Replica
    requires forall e :: e in updated ==> e.item.Live?
  {
    ApplyUpdates(replica, updated) - set e | e in deleted :: e.id
  }

  ghost predicate Known(st: Store, id: Id) {
    id in st.phantoms || exists e :: e in st.log && e.id == id
  }

  /** The replica agrees with the store on everything stamped at or below `upTo`, and holds nothing
      the store never heard of. An incomplete row is not yet anything a replica could be shown. */
  ghost predicate Agrees(st: Store, replica: Replica, upTo: int) {
    && (forall e :: e in st.log && e.stamp <= upTo && e.item.Live? && e.item.complete ==>
          e.id in replica && replica[e.id] == e.item.value)
    && (forall e :: e in st.log && e.stamp <= upTo && e.item.Retired? ==> e.id !in replica)
    && (forall id :: id in replica ==> Known(st, id))
  }

  // ---- calls interleaved with writes -------------------------------------------------------

  /** Where a call of `changes_since` is: its reads are separate, so writes land between them. */
  datatype Phase =
    | Idle
    | Counted(anchored: bool, floor: I64, seqNo: I64, limit: nat)
    | Bounded(anchored: bool, floor: I64, seqNo: I64, cutoff: int, more: bool)
    | ItemsRead(anchored: bool, floor: I64, seqNo: I64, cutoff: int, more: bool, updated: seq<Entry>)

  datatype World = World(store: Store, used: set<Instance>, replica: Replica,
                         anchor: Option<seq<Byte>>, phase: Phase)

  datatype Event =
    | Write(id: Id, item: Item)
    | Suppress(id: Id)
    | Wipe(instance: Instance)
    | ReadMeta(limit: nat)
    | ReadCutoff
    | ReadItems
    | ReadRetired
    | Abandon

  function Start(instance: Instance): World {
    World(Store(instance, 0, [], {}), {instance}, map[], None, Idle)
  }

  /** The retired ids of a page: none for a replica that starts from scratch. */
  function RetiredFor(log: seq<Entry>, anchored: bool, floor: int, cutoff: int): seq<Entry> {
    if anchored then SelectRetired(log, floor, cutoff) else []
  }

  /** The replica applies the page and keeps its anchor. */
  function Served(w: World, updated: seq<Entry>, deleted: seq<Entry>, upTo: I64): World
    requires forall e :: e in updated ==> e.item.Live?
  {
    w.(replica := ApplyPage(w.replica, updated, deleted),
       anchor := Some(EncodeAnchor(w.store.instance, upTo)), phase := Idle)
  }

  /** One atomic step; an event that cannot happen in this state changes nothing. A wipe runs with
      no connection open, hence between calls. A replica whose anchor expired starts over. */
  function Step(w: World, ev: Event): World
    requires Inv(w)
  {
    match ev
    case Write(id, item) =>
      if w.store.counter < I64_MAX then w.(store := Stamp(w.store, id, item)) else w
    case Suppress(id) => w.(store := SuppressDelete(w.store, id))
    case Wipe(instance) =>
      if w.phase.Idle? && instance !in w.used
      then w.(store := Store(instance, 0, [], {}), used := w.used + {instance})
      else w
    case ReadMeta(limit) =>
      if !w.phase.Idle? then w
      else if w.anchor.None? then w.(phase := Counted(false, 0, w.store.counter, limit))
      else (
        match DecodeAnchor(w.anchor.value, w.store.instance)
        case Err(_) => w.(replica := map[], anchor := None)
        case Ok(floor) => w.(phase := Counted(true, floor, w.store.counter, limit)))
    case ReadCutoff =>
      if !w.phase.Counted? then w
      else
        var p := w.phase;
        var (cutoff, more) := CutoffOf(w.store.log, p.floor, p.limit);
        w.(phase := Bounded(p.anchored, p.floor, p.seqNo, cutoff, more))
    case ReadItems =>
      if !w.phase.Bounded? then w
      else
        var p := w.phase;
        w.(phase := ItemsRead(p.anchored, p.floor, p.seqNo, p.cutoff, p.more,
                              SelectChangedItems(w.store.log, p.floor, p.cutoff)))
    case ReadRetired =>
      if !w.phase.ItemsRead? then w
      else
        var p := w.phase;
        Served(w, p.updated, RetiredFor(w.store.log, p.anchored, p.floor, p.cutoff),
               NextAnchor(p.seqNo, p.cutoff, p.more))
    case Abandon => w.(phase := Idle)
  }

  // ---- the invariant -----------------------------------------------------------------------

  /** What the replica's own anchor promises about it. */
  ghost predicate AnchorInv(w: World) {
    match w.anchor
    case None => w.replica == map[]
    case Some(bytes) =>
      && |bytes| >= DB_INSTANCE_LEN
      && bytes[..DB_INSTANCE_LEN] in w.used
      && (DecodeAnchor(bytes, w.store.instance).Ok? ==>
            var upTo := DecodeAnchor(bytes, w.store.instance).value;
            upTo <= w.store.counter && Agrees(w.store, w.replica, upTo))
  }

  /** A call in flight started from the replica's anchor, or from an empty replica. */
  ghost predicate CallFrom(w: World, anchored: bool, floor: int) {
    if anchored
    then w.anchor.Some? && DecodeAnchor(w.anchor.value, w.store.instance) == Ok(floor)
    else w.anchor.None? && floor == 0
  }

  /** The read items carry every current live entry up to the anchor about to be handed back, and
      disagree with the store only about ids stamped above it. */
  ghost predicate ItemsInv(st: Store, updated: seq<Entry>, floor: int, upTo: int) {
    && DistinctIds(updated)
    && (forall e :: e in updated ==> e.item.Live? && floor < e.stamp && Known(st, e.id))
    && (forall e :: e in st.log && floor < e.stamp <= upTo && e.item.Live? && e.item.complete ==>
          e in updated)
    && (forall e, u :: e in st.log && u in updated && e.id == u.id && e.stamp <= upTo ==> e == u)
  }

  ghost predicate PhaseInv(w: World) {
    match w.phase
    case Idle => true
    case Counted(anchored, floor, seqNo, _) =>
      CallFrom(w, anchored, floor) && 0 <= seqNo <= w.store.counter
    case Bounded(anchored, floor, seqNo, cutoff, more) =>
      && CallFrom(w, anchored, floor)
      && 0 <= seqNo <= w.store.counter
      && BoundInv(w.store, cutoff, more)
    case ItemsRead(anchored, floor, seqNo, cutoff, more, updated) =>
      && CallFrom(w, anchored, floor)
      && 0 <= seqNo <= w.store.counter
      && BoundInv(w.store, cutoff, more)
      && ItemsInv(w.store, updated, floor, NextAnchor(seqNo, cutoff, more))
  }

  predicate BoundInv(st: Store, cutoff: int, more: bool) {
    if more then I64_MIN <= cutoff <= st.counter else cutoff == I64_MAX
  }

  ghost predicate Inv(w: World) {
    && ValidStore(w.store)
    && w.store.instance in w.used
    && AnchorInv(w)
    && PhaseInv(w)
  }

  lemma StampKeepsAgreement(st: Store, id: Id, item: Item, replica: Replica, upTo: int)
    requires ValidStore(st) && st.counter < I64_MAX
    requires upTo <= st.counter && Agrees(st, replica, upTo)
    ensures Agrees(Stamp(st, id, item), replica, upTo)
  {
  }

  lemma StampKeepsItems(st: Store, id: Id, item: Item, updated: seq<Entry>, floor: int, upTo: int)
    requires ValidStore(st) && st.counter < I64_MAX
    requires upTo <= st.counter && ItemsInv(st, updated, floor, upTo)
    ensures ItemsInv(Stamp(st, id, item), updated, floor, upTo)
  {
  }

  lemma SuppressKeepsKnown(st: Store, id: Id, i: Id)
    requires Known(st, i)
    ensures Known(SuppressDelete(st, id), i)
  {
  }

  lemma WriteKeepsInv(w: World, id: Id, item: Item)
    requires Inv(w) && w.store.counter < I64_MAX
    ensures Inv(Step(w, Write(id, item)))
  {
    StampValid(w.store, id, item);
    var w' := Step(w, Write(id, item));
    if w.anchor.Some? && DecodeAnchor(w.anchor.value, w.store.instance).Ok? {
      var upTo := DecodeAnchor(w.anchor.value, w.store.instance).value;
      StampKeepsAgreement(w.store, id, item, w.replica, upTo);
    }
    assert AnchorInv(w');
    if w.phase.ItemsRead? {
      var p := w.phase;
      StampKeepsItems(w.store, id, item, p.updated, p.floor, NextAnchor(p.seqNo, p.cutoff, p.more));
    }
  }

  lemma SuppressKeepsInv(w: World, id: Id)
    requires Inv(w)
    ensures Inv(Step(w, Suppress(id)))
  {
    SuppressValid(w.store, id);
    forall i | Known(w.store, i)
      ensures Known(SuppressDelete(w.store, id), i)
    {
      SuppressKeepsKnown(w.store, id, i);
    }
  }

  lemma SelectedItems(st: Store, floor: int, cutoff: int, upTo: int)
    requires ValidStore(st) && upTo <= cutoff
    ensures ItemsInv(st, SelectChangedItems(st.log, floor, cutoff), floor, upTo)
  {
    var log := st.log;
    var updated := SelectChangedItems(log, floor, cutoff);
    FilterKeepsOrder(log, (e: Entry) => floor < e.stamp <= cutoff);
    FilterKeepsOrder(Between(log, floor, cutoff), (e: Entry) => e.item.Live? && e.item.complete);
    forall e, u | e in log && u in updated && e.id == u.id
      ensures e == u
    {
      SameId(log, e, u);
    }
  }

  lemma ReadItemsKeepsInv(w: World)
    requires Inv(w) && w.phase.Bounded?
    ensures Inv(Step(w, ReadItems))
  {
    var p := w.phase;
    SelectedItems(w.store, p.floor, p.cutoff, NextAnchor(p.seqNo, p.cutoff, p.more));
  }

  /** The heart of the feed: whatever was written since the counter was read, applying the page
      extends the agreement from the old anchor to the new one. */
  lemma PageExtendsAgreement(st: Store, replica: Replica, updated: seq<Entry>, deleted: seq<Entry>,
                             anchored: bool, floor: int, cutoff: int, upTo: int)
    requires ValidStore(st) && upTo <= cutoff && (anchored || replica == map[])
    requires Agrees(st, replica, floor)
    requires ItemsInv(st, updated, floor, upTo)
    requires deleted == RetiredFor(st.log, anchored, floor, cutoff)
    ensures Agrees(st, ApplyPage(replica, updated, deleted), upTo)
  {
    var replica' := ApplyPage(replica, updated, deleted);
    forall e | e in st.log && e.stamp <= upTo
      ensures e.item.Live? && e.item.complete ==> e.id in replica' && replica'[e.id] == e.item.value
      ensures e.item.Retired? ==> e.id !in replica'
    {
      Applied(replica, updated, e.id);
      if e in updated {
        AppliedEntry(replica, updated, e);
      }
      forall d | d in deleted && d.id == e.id
        ensures d == e
      {
        SameId(st.log, d, e);
      }
      if e.item.Retired? && e.stamp > floor && anchored {
        assert e in deleted;
      }
    }
    forall id | id in replica'
      ensures Known(st, id)
    {
      Applied(replica, updated, id);
    }
  }

  lemma FinishAgrees(w: World)
    requires Inv(w) && w.phase.ItemsRead?
    ensures var p := w.phase;
            && (forall e :: e in p.updated ==> e.item.Live?)
            && Agrees(w.store, ApplyPage(w.replica, p.updated,
                                         RetiredFor(w.store.log, p.anchored, p.floor, p.cutoff)),
                      NextAnchor(p.seqNo, p.cutoff, p.more))
  {
    var p := w.phase;
    assert Agrees(w.store, w.replica, p.floor) by {
      assert AnchorInv(w);
    }
    PageExtendsAgreement(w.store, w.replica, p.updated,
                         RetiredFor(w.store.log, p.anchored, p.floor, p.cutoff), p.anchored, p.floor,
                         p.cutoff, NextAnchor(p.seqNo, p.cutoff, p.more));
  }

  lemma FinishKeepsInv(w: World)
    requires Inv(w) && w.phase.ItemsRead?
    ensures Inv(Step(w, ReadRetired))
  {
    var p := w.phase;
    FinishAgrees(w);
    NewAnchor(w, p.updated, RetiredFor(w.store.log, p.anchored, p.floor, p.cutoff),
              NextAnchor(p.seqNo, p.cutoff, p.more));
  }

  lemma NewAnchor(w: World, updated: seq<Entry>, deleted: seq<Entry>, upTo: I64)
    requires ValidStore(w.store) && w.store.instance in w.used
    requires forall e :: e in updated ==> e.item.Live?
    requires upTo <= w.store.counter && Agrees(w.store, ApplyPage(w.replica, updated, deleted), upTo)
    ensures Inv(Served(w, updated, deleted, upTo))
  {
    var bytes := EncodeAnchor(w.store.instance, upTo);
    DecodeInvertsEncode(bytes, w.store.instance, upTo);
    assert bytes[..DB_INSTANCE_LEN] == w.store.instance;
  }

  lemma StepKeepsInv(w: World, ev: Event)
    requires Inv(w)
    ensures Inv(Step(w, ev))
  {
    match ev
    case Write(id, item) =>
      if w.store.counter < I64_MAX {
        WriteKeepsInv(w, id, item);
      }
    case Suppress(id) => SuppressKeepsInv(w, id);
    case Wipe(instance) =>
    case ReadMeta(limit) =>
    case ReadCutoff =>
      if w.phase.Counted? {
        CutoffBounded(w.store, w.phase.floor, w.phase.limit);
      }
    case ReadItems =>
      if w.phase.Bounded? {
        ReadItemsKeepsInv(w);
      }
    case ReadRetired =>
      if w.phase.ItemsRead? {
        FinishKeepsInv(w);
      }
    case Abandon =>
  }

  function Run(w: World, events: seq<Event>): World
    requires Inv(w)
    ensures Inv(Run(w, events))
    decreases |events|
  {
    if events == [] then w
    else
      StepKeepsInv(w, events[0]);
      Run(Step(w, events[0]), events[1..])
  }

  /** The four reads of a call with nothing written between them are `changes_since`: the replica is
      handed that page and that anchor, or starts over. */
  lemma {:induction false} UninterruptedCall(w: World, limit: nat)
    requires Inv(w) && w.phase.Idle?
    ensures var w' := Run(w, [ReadMeta(limit), ReadCutoff, ReadItems, ReadRetired]);
            var r := ChangesSince(w.store, w.anchor, limit);
            if r.Err? then w' == w.(replica := map[], anchor := None)
            else && (forall e :: e in r.value.updated ==> e.item.Live?)
                 && w' == Served(w, r.value.updated, r.value.deleted, r.value.anchor)
  {
    var events := [ReadMeta(limit), ReadCutoff, ReadItems, ReadRetired];
    RunFour(w, events);
    if w.anchor.Some? && DecodeAnchor(w.anchor.value, w.store.instance).Err? {
      ExpiredCall(w, limit);
    } else {
      AnsweredCall(w, limit);
    }
  }

  lemma ExpiredCall(w: World, limit: nat)
    requires Inv(w) && w.phase.Idle?
    requires w.anchor.Some? && DecodeAnchor(w.anchor.value, w.store.instance).Err?
    ensures var w1 := Step(w, ReadMeta(limit));
            && w1 == w.(replica := map[], anchor := None) && Inv(w1)
            && Step(w1, ReadCutoff) == w1 && Step(w1, ReadItems) == w1 && Step(w1, ReadRetired) == w1
  {
    StepKeepsInv(w, ReadMeta(limit));
  }

  lemma AnsweredCall(w: World, limit: nat)
    requires Inv(w) && w.phase.Idle?
    requires w.anchor.Some? ==> DecodeAnchor(w.anchor.value, w.store.instance).Ok?
    ensures var w1 := Step(w, ReadMeta(limit));
            && Inv(w1) && w1.phase.Counted? && w1 == w.(phase := w1.phase)
            && Inv(Step(w1, ReadCutoff)) && Inv(Step(Step(w1, ReadCutoff), ReadItems))
            && var page := PageAbove(w.store, w1.phase.floor, w1.phase.anchored, limit);
               && ChangesSince(w.store, w.anchor, limit) == Ok(page)
               && (forall e :: e in page.updated ==> e.item.Live?)
               && Step(Step(Step(w1, ReadCutoff), ReadItems), ReadRetired)
                  == Served(w, page.updated, page.deleted, page.anchor)
  {
    StepKeepsInv(w, ReadMeta(limit));
    var w1 := Step(w, ReadMeta(limit));
    RestOfCall(w1, w1.phase.anchored, w1.phase.floor, limit);
  }

  lemma RestOfCall(w: World, anchored: bool, floor: I64, limit: nat)
    requires Inv(w) && w.phase == Counted(anchored, floor, w.store.counter, limit)
    ensures Inv(Step(w, ReadCutoff)) && Inv(Step(Step(w, ReadCutoff), ReadItems))
    ensures var page := PageAbove(w.store, floor, anchored, limit);
            && (forall e :: e in page.updated ==> e.item.Live?)
            && Step(Step(Step(w, ReadCutoff), ReadItems), ReadRetired)
               == Served(w, page.updated, page.deleted, page.anchor)
  {
    StepKeepsInv(w, ReadCutoff);
    StepKeepsInv(Step(w, ReadCutoff), ReadItems);
    CutoffBounded(w.store, floor, limit);
    var (cutoff, more) := CutoffOf(w.store.log, floor, limit);
    LastTwoReads(w, anchored, floor, cutoff, more);
  }

  lemma LastTwoReads(w: World, anchored: bool, floor: I64, cutoff: int, more: bool)
    requires 0 <= w.store.counter <= I64_MAX
    requires var w1 := w.(phase := Bounded(anchored, floor, w.store.counter, cutoff, more));
             Inv(w1) && Inv(Step(w1, ReadItems))
    ensures var w1 := w.(phase := Bounded(anchored, floor, w.store.counter, cutoff, more));
            Step(Step(w1, ReadItems), ReadRetired)
            == Served(w, SelectChangedItems(w.store.log, floor, cutoff),
                      RetiredFor(w.store.log, anchored, floor, cutoff),
                      NextAnchor(w.store.counter, cutoff, more))
  {
  }

  lemma {:induction false} RunFour(w: World, events: seq<Event>)
    requires Inv(w) && |events| == 4
    ensures Inv(Step(w, events[0])) && Inv(Step(Step(w, events[0]), events[1]))
    ensures Inv(Step(Step(Step(w, events[0]), events[1]), events[2]))
    ensures Run(w, events) == Step(Step(Step(Step(w, events[0]), events[1]), events[2]), events[3])
  {
    StepKeepsInv(w, events[0]);
    var w1 := Step(w, events[0]);
    StepKeepsInv(w1, events[1]);
    var w2 := Step(w1, events[1]);
    StepKeepsInv(w2, events[2]);
    var w3 := Step(w2, events[2]);
    StepKeepsInv(w3, events[3]);
    assert Run(Step(w3, events[3]), events[4..]) == Step(w3, events[3]);
    assert events[3..][1..] == events[4..] && Run(w3, events[3..]) == Step(w3, events[3]);
    assert events[2..][1..] == events[3..] && Run(w2, events[2..]) == Run(w3, events[3..]);
    assert events[1..][1..] == events[2..] && Run(w1, events[1..]) == Run(w2, events[2..]);
  }

  /** Convergence over every run: paged or unpaged calls, writes between any two of their reads,
      abandoned calls, wipes. No change at or below the anchor was ever skipped. */
  lemma NoChangeIsSkipped(instance: Instance, events: seq<Event>)
    ensures Inv(Start(instance))
    ensures var w := Run(Start(instance), events);
            w.anchor.Some? && DecodeAnchor(w.anchor.value, w.store.instance).Ok? ==>
              Agrees(w.store, w.replica, DecodeAnchor(w.anchor.value, w.store.instance).value)
  {
  }

  /** Why the counter is read first: read last, after one more write, it would name a change that
      the items just read do not carry, and the replica would never be told. */
  lemma CounterReadLastWouldSkip(st: Store, replica: Replica, id: Id, value: Value)
    requires ValidStore(st) && st.counter < I64_MAX && Agrees(st, replica, st.counter)
    requires id !in replica || replica[id] != value
    ensures var read := SelectChangedItems(st.log, st.counter, I64_MAX);
            var st' := Stamp(st, id, Live(value, true));
            !Agrees(st', ApplyPage(replica, read, []), st'.counter)
  {
  }

  function Contents(st: Store): Replica
    requires ValidStore(st)
  {
    map e | e in st.log && e.item.Live? && (forall f :: f in st.log && f.id == e.id ==> f == e)
      :: e.id := e.item.value
  }

  /** The rows whose second half is not in yet. */
  function Incomplete(st: Store): set<Id> {
    set e | e in st.log && e.item.Live? && !e.item.complete :: e.id
  }

  /** Caught up, the replica is the store, except exactly for the phantoms a suppressed delete left
      and rows not yet complete. */
  lemma {:induction false} CaughtUpReplicaIsStore(st: Store, replica: Replica)
    requires ValidStore(st) && Agrees(st, replica, st.counter)
    ensures replica - st.phantoms - Incomplete(st) == Contents(st) - Incomplete(st)
  {
    forall e, f | e in st.log && f in st.log && f.id == e.id
      ensures e == f
    {
      SameId(st.log, e, f);
    }
    var c := Contents(st) - Incomplete(st);
    var r := replica - st.phantoms - Incomplete(st);
    forall id
      ensures id in r <==> id in c
      ensures id in r ==> r[id] == c[id]
    {
      if id in r {
        assert Known(st, id);
        var e :| e in st.log && e.id == id;
        assert e.item.Live?;
      }
    }
  }

  // ---- paging an unchanging store ----------------------------------------------------------

  function Pages(st: Store, floor: I64, limit: nat): (pages: seq<Page>)
    requires ValidStore(st) && limit > 0
    decreases st.counter - floor
  {
    CutoffBounded(st, floor, limit);
    var page := PageAbove(st, floor, true, limit);
    if page.more then [page] + Pages(st, page.anchor, limit) else [page]
  }

  function Updates(pages: seq<Page>): seq<Entry> {
    if pages == [] then [] else pages[0].updated + Updates(pages[1..])
  }

  function Deletions(pages: seq<Page>): seq<Entry> {
    if pages == [] then [] else pages[0].deleted + Deletions(pages[1..])
  }

  /** A cutoff taken at the `limit`th change above the floor splits the diff right behind it. */
  lemma CutoffSplits(st: Store, floor: int, limit: nat)
    requires ValidStore(st) && 0 < limit <= |Between(st.log, floor, I64_MAX)|
    ensures var all := Between(st.log, floor, I64_MAX);
            var cutoff := all[limit - 1].stamp;
            && Between(st.log, floor, cutoff) == all[..limit]
            && Between(st.log, cutoff, I64_MAX) == all[limit..]
  {
    var all := Between(st.log, floor, I64_MAX);
    var cutoff := all[limit - 1].stamp;
    var page, rest := Between(st.log, floor, cutoff), Between(st.log, cutoff, I64_MAX);
    FilterKeepsOrder(st.log, (e: Entry) => floor < e.stamp <= I64_MAX);
    FilterKeepsOrder(st.log, (e: Entry) => floor < e.stamp <= cutoff);
    FilterKeepsOrder(st.log, (e: Entry) => cutoff < e.stamp <= I64_MAX);
    assert all[limit - 1] in all;
    forall e
      ensures e in page <==> e in all[..limit]
      ensures e in rest <==> e in all[limit..]
    {
      SplitMembers(all, limit, e);
    }
    OrderedUnique(page, all[..limit]);
    OrderedUnique(rest, all[limit..]);
  }

  /** Split behind its `k`th entry, an ordered log is split by that entry's stamp. */
  lemma SplitMembers(log: seq<Entry>, k: nat, e: Entry)
    requires Ordered(log) && 0 < k <= |log|
    ensures e in log[..k] <==> e in log && e.stamp <= log[k - 1].stamp
    ensures e in log[k..] <==> e in log && e.stamp > log[k - 1].stamp
  {
  }

  lemma {:induction false} FilterConcat(ab: seq<Entry>, a: seq<Entry>, b: seq<Entry>,
                                        keep: Entry -> bool)
    requires ab == a + b
    ensures Filter(ab, keep) == Filter(a, keep) + Filter(b, keep)
    decreases |b|
  {
    if b == [] {
      assert ab == a;
    } else {
      var init, last := b[..|b| - 1], b[|b| - 1];
      var ab' := ab[..|ab| - 1];
      FilterConcat(ab', a, init, keep);
      var end := if keep(last) then [last] else [];
      assert Filter(ab, keep) == Filter(ab', keep) + end;
      assert Filter(b, keep) == Filter(init, keep) + end;
    }
  }

  /** A full page serves the next `limit` changes and leaves the rest. */
  lemma FullPage(st: Store, floor: I64, limit: nat)
    requires ValidStore(st) && 0 < limit < |Between(st.log, floor, I64_MAX)|
    ensures var page := PageAbove(st, floor, true, limit);
            && page.more && floor < page.anchor <= st.counter
            && SelectChangedItems(st.log, floor, I64_MAX)
                 == page.updated + SelectChangedItems(st.log, page.anchor, I64_MAX)
            && SelectRetired(st.log, floor, I64_MAX)
                 == page.deleted + SelectRetired(st.log, page.anchor, I64_MAX)
            && |Between(st.log, page.anchor, I64_MAX)| == |Between(st.log, floor, I64_MAX)| - limit
            && |page.updated| + |page.deleted| <= limit
  {
    CutoffBounded(st, floor, limit);
    var cutoff := Between(st.log, floor, I64_MAX)[limit - 1].stamp;
    assert CutoffOf(st.log, floor, limit) == (cutoff, true);
    CutoffSplitsSelects(st, floor, limit);
  }

  lemma CutoffSplitsSelects(st: Store, floor: int, limit: nat)
    requires ValidStore(st) && 0 < limit <= |Between(st.log, floor, I64_MAX)|
    ensures var log, cutoff := st.log, Between(st.log, floor, I64_MAX)[limit - 1].stamp;
            && SelectChangedItems(log, floor, I64_MAX)
                 == SelectChangedItems(log, floor, cutoff) + SelectChangedItems(log, cutoff, I64_MAX)
            && SelectRetired(log, floor, I64_MAX)
                 == SelectRetired(log, floor, cutoff) + SelectRetired(log, cutoff, I64_MAX)
            && |Between(log, cutoff, I64_MAX)| == |Between(log, floor, I64_MAX)| - limit
            && |SelectChangedItems(log, floor, cutoff)| + |SelectRetired(log, floor, cutoff)| <= limit
  {
    CutoffSplits(st, floor, limit);
    var all := Between(st.log, floor, I64_MAX);
    PageSize(all[..limit]);
    FilterConcat(all, all[..limit], all[limit..], (e: Entry) => e.item.Live? && e.item.complete);
    FilterConcat(all, all[..limit], all[limit..], (e: Entry) => e.item.Retired?);
  }

  /** The last page serves everything left, and its anchor is the counter. */
  lemma LastPage(st: Store, floor: I64, limit: nat)
    requires ValidStore(st) && limit >= |Between(st.log, floor, I64_MAX)| && limit > 0
    ensures var page := PageAbove(st, floor, true, limit);
            && !page.more && page.anchor == st.counter
            && page.updated == SelectChangedItems(st.log, floor, I64_MAX)
            && page.deleted == SelectRetired(st.log, floor, I64_MAX)
            && |page.updated| + |page.deleted| <= limit
  {
    PageSize(Between(st.log, floor, I64_MAX));
  }

  /** `pages` serve exactly the changes above `floor`, at most `limit` each, as few as can be. */
  ghost predicate ServeDiff(pages: seq<Page>, st: Store, floor: int, limit: nat) {
    && pages != []
    && Updates(pages) == SelectChangedItems(st.log, floor, I64_MAX)
    && Deletions(pages) == SelectRetired(st.log, floor, I64_MAX)
    && pages[|pages| - 1].anchor == st.counter && !pages[|pages| - 1].more
    && forall p :: p in pages ==> |p.updated| + |p.deleted| <= limit
  }

  lemma ServeDiffStep(page: Page, rest: seq<Page>, st: Store, floor: int, limit: nat)
    requires ServeDiff(rest, st, page.anchor, limit)
    requires SelectChangedItems(st.log, floor, I64_MAX)
          == page.updated + SelectChangedItems(st.log, page.anchor, I64_MAX)
    requires SelectRetired(st.log, floor, I64_MAX)
          == page.deleted + SelectRetired(st.log, page.anchor, I64_MAX)
    requires |page.updated| + |page.deleted| <= limit
    ensures ServeDiff([page] + rest, st, floor, limit)
  {
  }

  /** max(1, ceil(n / limit)). */
  function PageCount(n: nat, limit: nat): nat
    requires limit > 0
  {
    if n <= limit then 1 else 1 + PageCount(n - limit, limit)
  }

  lemma {:induction false} PageCountIsCeil(n: nat, limit: nat)
    requires limit > 0
    ensures if n == 0 then PageCount(n, limit) == 1 else IsCeilDiv(PageCount(n, limit), n, limit)
  {
    if n > limit {
      PageCountIsCeil(n - limit, limit);
      CeilDivStep(PageCount(n - limit, limit), n, limit);
    }
  }

  /** With a positive limit the pages end, in max(1, ceil(n / limit)) of them, and together serve
      the unbounded diff: each change once, in sequence order. Half-written rows count towards a
      page but are in no diff. */
  lemma {:induction false} PagesAreTheDiff(st: Store, floor: I64, limit: nat)
    requires ValidStore(st) && limit > 0
    ensures |Pages(st, floor, limit)| == PageCount(|Between(st.log, floor, I64_MAX)|, limit)
    ensures ServeDiff(Pages(st, floor, limit), st, floor, limit)
    decreases st.counter - floor
  {
    if |Between(st.log, floor, I64_MAX)| <= limit {
      OnePage(st, floor, limit);
    } else {
      FullPage(st, floor, limit);
      PagesAreTheDiff(st, PageAbove(st, floor, true, limit).anchor, limit);
      MorePages(st, floor, limit);
    }
  }

  lemma OnePage(st: Store, floor: I64, limit: nat)
    requires ValidStore(st) && 0 < limit && |Between(st.log, floor, I64_MAX)| <= limit
    ensures |Pages(st, floor, limit)| == PageCount(|Between(st.log, floor, I64_MAX)|, limit)
    ensures ServeDiff(Pages(st, floor, limit), st, floor, limit)
  {
    LastPage(st, floor, limit);
    var page := PageAbove(st, floor, true, limit);
    assert Pages(st, floor, limit) == [page] && [page][1..] == [];
  }

  lemma MorePages(st: Store, floor: I64, limit: nat)
    requires ValidStore(st) && 0 < limit < |Between(st.log, floor, I64_MAX)|
    requires var page := PageAbove(st, floor, true, limit);
             var rest := Pages(st, page.anchor, limit);
             && |rest| == PageCount(|Between(st.log, page.anchor, I64_MAX)|, limit)
             && ServeDiff(rest, st, page.anchor, limit)
    ensures |Pages(st, floor, limit)| == PageCount(|Between(st.log, floor, I64_MAX)|, limit)
    ensures ServeDiff(Pages(st, floor, limit), st, floor, limit)
  {
    FullPage(st, floor, limit);
    var page := PageAbove(st, floor, true, limit);
    var rest := Pages(st, page.anchor, limit);
    assert Pages(st, floor, limit) == [page] + rest;
    ServeDiffStep(page, rest, st, floor, limit);
  }

  /** The pages of a replica that starts with no anchor: the first has no deletions. */
  function PagesFromScratch(st: Store, limit: nat): seq<Page>
    requires ValidStore(st) && limit > 0
  {
    CutoffBounded(st, 0, limit);
    var page := PageAbove(st, 0, false, limit);
    if page.more then [page] + Pages(st, page.anchor, limit) else [page]
  }

  /** From scratch, the pages carry every live item once, in order; of the deletions
      only those stamped above the first page's anchor. */
  ghost predicate ServeAll(pages: seq<Page>, st: Store) {
    && pages != [] && pages[0].deleted == []
    && Updates(pages) == SelectChangedItems(st.log, 0, I64_MAX)
    && Deletions(pages) == SelectRetired(st.log, pages[0].anchor, I64_MAX)
    && pages[|pages| - 1].anchor == st.counter && !pages[|pages| - 1].more
  }

  lemma ScratchPagesAreTheDiff(st: Store, limit: nat)
    requires ValidStore(st) && limit > 0
    ensures ServeAll(PagesFromScratch(st, limit), st)
  {
    if |Between(st.log, 0, I64_MAX)| <= limit {
      FirstScratchPage(st, limit);
      LastPage(st, 0, limit);
      OneScratchPage(PageAbove(st, 0, false, limit), st);
    } else {
      FirstScratchPage(st, limit);
      FullPage(st, 0, limit);
      var page := PageAbove(st, 0, false, limit);
      var rest := Pages(st, page.anchor, limit);
      PagesAreTheDiff(st, page.anchor, limit);
      assert PagesFromScratch(st, limit) == [page] + rest;
      MoreScratchPages(page, rest, st, limit);
    }
  }

  /** They are as many as an anchored replica's. */
  lemma ScratchPageCount(st: Store, limit: nat)
    requires ValidStore(st) && limit > 0
    ensures |PagesFromScratch(st, limit)| == |Pages(st, 0, limit)|
  {
    FirstScratchPage(st, limit);
  }

  lemma FirstScratchPage(st: Store, limit: nat)
    requires ValidStore(st)
    ensures PageAbove(st, 0, false, limit) == PageAbove(st, 0, true, limit).(deleted := [])
  {
  }

  lemma OneScratchPage(page: Page, st: Store)
    requires ValidStore(st) && page.deleted == [] && page.anchor == st.counter && !page.more
    requires page.updated == SelectChangedItems(st.log, 0, I64_MAX)
    ensures ServeAll([page], st)
  {
    NothingAboveCounter(st);
    assert [page][1..] == [];
    assert page.updated + [] == page.updated;
  }

  lemma MoreScratchPages(page: Page, rest: seq<Page>, st: Store, limit: nat)
    requires page.deleted == [] && ServeDiff(rest, st, page.anchor, limit)
    requires SelectChangedItems(st.log, 0, I64_MAX)
          == page.updated + SelectChangedItems(st.log, page.anchor, I64_MAX)
    ensures ServeAll([page] + rest, st)
  {
    assert ([page] + rest)[1..] == rest;
    assert [] + Deletions(rest) == Deletions(rest);
  }

  lemma NothingAboveCounter(st: Store)
    requires ValidStore(st)
    ensures SelectRetired(st.log, st.counter, I64_MAX) == []
  {
    EmptyOrMember(SelectRetired(st.log, st.counter, I64_MAX));
  }

  lemma {:induction false} PageSize(log: seq<Entry>)
    ensures |Filter(log, (e: Entry) => e.item.Live? && e.item.complete)|
         + |Filter(log, (e: Entry) => e.item.Retired?)| <= |log|
  {
    if log != [] {
      PageSize(log[..|log| - 1]);
    }
  }

  /** The one deletion a replica is never told of: from a caught-up state a suppressed delete leaves
      an empty diff, paged or not, so the replica keeps the item as a phantom. */
  lemma SuppressedDeleteIsNeverServed(st: Store, replica: Replica, e: Entry, limit: nat)
    requires ValidStore(st) && Agrees(st, replica, st.counter)
    requires e in st.log && e.item.Live? && e.item.complete
    ensures var st' := SuppressDelete(st, e.id);
            && ValidStore(st')
            && var page := PageAbove(st', st.counter, true, limit);
               && page.updated == [] && page.deleted == [] && page.anchor == st.counter && !page.more
               && e.id in ApplyPage(replica, page.updated, page.deleted)
               && e.id !in Contents(st')
  {
    SuppressValid(st, e.id);
    var st' := SuppressDelete(st, e.id);
    forall cutoff: int
      ensures Between(st'.log, st.counter, cutoff) == []
    {
      EmptyOrMember(Between(st'.log, st.counter, cutoff));
    }
  }
}
