/** Which account the on-disk cache belongs to (`auth.rs`): opening it, re-initialising it step by
    step, adopting another session, and rewriting `db_state.json`. One process; a crash may come
    between any two steps. */
module AccountCache {
  import opened Prelude

  /** An account's root uuid, the owner stamp of the cache. */
  type Owner = nat
  type User = nat

  /** Anything cached: a row, the bytes of a file, a search entry, and the account that wrote it. */
  datatype Row = Row(key: nat, writer: Owner)

  /** What this build of the app expects of the cache. */
  datatype App = App(schemaHash: nat, cacheVersion: nat)

  /** `SavedDBState`. `marks` stands for the gap bookkeeping (watermark, cursor, reconcile debt,
      materialized set): the database it was recorded over, if it was. */
  datatype Saved = Saved(schemaHash: nat, version: Option<nat>, owner: Option<Owner>,
                         marks: Option<nat>)

  datatype StateFile = Absent | Unparseable | Parsed(saved: Saved)

  /** `instance` tells databases apart; one file is never mistaken for a recreated one. */
  datatype Db = Db(instance: nat, rows: set<Row>, schema: bool, corrupt: bool)

  /** A write-ahead log left beside a recreated database is replayed into it. */
  datatype Disk = Disk(db: Option<Db>, wal: set<Row>, dirs: set<Row>, search: set<Row>,
                       state: StateFile)

  /** The steps of `db_from_dir`, `init_db` and `wipe_account_data`; `failed`: a removal has. */
  datatype Todo =
    | Check
    | WipeDirs
    | WipeDb(failed: bool)
    | WipeWal(failed: bool)
    | WipeSearch(failed: bool)
    | Create
    | Schema
    | WriteState

  /** `marks`: the bookkeeping the session was seeded from. */
  datatype Phase =
    | Closed
    | Opening(user: User, owner: Owner, todo: Todo)
    | Open(user: User, owner: Owner, marks: Option<nat>)

  /** `update`: what `update_saved_db_state` has read and is about to write back. */
  datatype World = World(app: App, disk: Disk, next: nat, phase: Phase, update: Option<StateFile>)

  datatype Outcome = Works | Fails | Tears

  datatype Event =
    | Authenticate(user: User, owner: Owner)
    | Refresh(user: User, owner: Owner)
    | Proceed(outcome: Outcome, left: set<Row>)
    | Demote
    | DisabledWipe(dirs: set<Row>, keepDb: bool, wal: set<Row>, search: set<Row>)
    | WriteRow(key: nat)
    | Checkpoint
    | StoreFile(key: nat)
    | IndexSearch(key: nat)
    | BeginUpdate(works: bool)
    | FinishUpdate(works: bool, marked: bool)
    | StateLost(absent: bool)
    | DbCorrupts
    | Upgrade(app: App)
    | Crash

  // ---- opening -----------------------------------------------------------------------------

  /** Whether `db_from_dir` uses the database it finds. */
  predicate Trusts(app: App, disk: Disk, owner: Owner) {
    && disk.state.Parsed? && disk.db.Some?
    && var saved := disk.state.saved;
       && saved.schemaHash == app.schemaHash
       && saved.version.Some? && saved.version.value >= app.cacheVersion
       && saved.owner == Some(owner)
  }

  function Close(w: World): World {
    w.(phase := Closed)
  }

  function Next(w: World, todo: Todo): World
    requires w.phase.Opening?
  {
    w.(phase := w.phase.(todo := todo))
  }

  function CheckStep(w: World, works: bool): World
    requires w.phase.Opening?
  {
    if !works then Close(w)
    else if !Trusts(w.app, w.disk, w.phase.owner) then Next(w, WipeDirs)
    else if w.disk.db.value.corrupt then Next(w, WipeDirs)
    else if !w.disk.db.value.schema then Close(w)
    else w.(phase := Open(w.phase.user, w.phase.owner, w.disk.state.saved.marks))
  }

  /** The file `init_db` writes. */
  function Default(app: App, owner: Option<Owner>): Saved {
    Saved(app.schemaHash, Some(app.cacheVersion), owner, None)
  }

  function WriteStateStep(w: World, outcome: Outcome): World
    requires w.phase.Opening?
  {
    match outcome
    case Fails => Close(w)
    case Tears => Close(w.(disk := w.disk.(state := Unparseable)))
    case Works =>
      w.(disk := w.disk.(state := Parsed(Default(w.app, Some(w.phase.owner)))),
         phase := Open(w.phase.user, w.phase.owner, None))
  }

  /** A removal that fails may leave part of what it was to remove. */
  function Remove(rows: set<Row>, works: bool, left: set<Row>): set<Row> {
    if works then {} else rows * left
  }

  function OpeningStep(w: World, outcome: Outcome, left: set<Row>): World
    requires w.phase.Opening?
  {
    var works := outcome.Works?;
    match w.phase.todo
    case Check => CheckStep(w, works)
    case WipeDirs =>
      Next(w.(disk := w.disk.(dirs := Remove(w.disk.dirs, works, left))), WipeDb(!works))
    case WipeDb(failed) =>
      Next(if works then w.(disk := w.disk.(db := None)) else w, WipeWal(failed || !works))
    case WipeWal(failed) =>
      Next(w.(disk := w.disk.(wal := Remove(w.disk.wal, works, left))), WipeSearch(failed || !works))
    case WipeSearch(failed) =>
      var w := w.(disk := w.disk.(search := Remove(w.disk.search, works, left)));
      if failed || !works then Close(w) else Next(w, Create)
    case Create =>
      if !works then Close(w)
      else Next(w.(disk := w.disk.(db := Some(Db(w.next, {}, false, false))), next := w.next + 1), Schema)
    case Schema =>
      if !works || w.disk.db.None? then Close(w)
      else Next(w.(disk := w.disk.(db := Some(w.disk.db.value.(schema := true)))), WriteState)
    case WriteState => WriteStateStep(w, outcome)
  }

  // ---- one step ----------------------------------------------------------------------------

  predicate SameAccount(phase: Phase, user: User, owner: Owner) {
    phase.Open? && phase.user == user && phase.owner == owner
  }

  function UpdatedState(w: World, read: StateFile, marked: bool): Saved {
    var saved := if read.Parsed? then read.saved else Default(w.app, None);
    if marked && w.disk.db.Some? then saved.(marks := Some(w.disk.db.value.instance)) else saved
  }

  /** What an open session does. The state lock keeps a change of session waiting for it. */
  function SessionStep(w: World, ev: Event): World
    requires w.phase.Open?
  {
    var owner := w.phase.owner;
    match ev
    case Refresh(user, owner') =>
      if w.update.Some? || SameAccount(w.phase, user, owner') then w
      else w.(phase := Opening(user, owner', Check))
    case Demote => if w.update.Some? then w else Close(w)
    case WriteRow(key) => w.(disk := w.disk.(wal := w.disk.wal + {Row(key, owner)}))
    case Checkpoint =>
      if w.disk.db.None? then w
      else w.(disk := w.disk.(db := Some(w.disk.db.value.(rows := w.disk.db.value.rows + w.disk.wal)),
                              wal := {}))
    case StoreFile(key) => w.(disk := w.disk.(dirs := w.disk.dirs + {Row(key, owner)}))
    case IndexSearch(key) => w.(disk := w.disk.(search := w.disk.search + {Row(key, owner)}))
    case BeginUpdate(works) =>
      if w.update.Some? || !works then w else w.(update := Some(w.disk.state))
    case FinishUpdate(works, marked) =>
      if w.update.None? then w
      else if !works then w.(update := None)
      else w.(disk := w.disk.(state := Parsed(UpdatedState(w, w.update.value, marked))), update := None)
    case _ => w
  }

  /** What happens between sessions. */
  function ClosedStep(w: World, ev: Event): World {
    match ev
    case Authenticate(user, owner) => w.(phase := Opening(user, owner, Check))
    case Refresh(user, owner) => w.(phase := Opening(user, owner, Check))
    case DisabledWipe(dirs, keepDb, wal, search) =>
      w.(disk := Disk(if keepDb then w.disk.db else None, w.disk.wal * wal, w.disk.dirs * dirs,
                      w.disk.search * search, w.disk.state))
    case Upgrade(app) => w.(app := app)
    case _ => w
  }

  function Step(w: World, ev: Event): World {
    if ev.Crash? then w.(phase := Closed, update := None)
    else if ev.StateLost? then w.(disk := w.disk.(state := if ev.absent then Absent else Unparseable))
    else if ev.DbCorrupts? then
      if w.disk.db.None? then w
      else w.(disk := w.disk.(db := Some(w.disk.db.value.(corrupt := true))))
    else if w.phase.Open? then SessionStep(w, ev)
    else if w.phase.Closed? then ClosedStep(w, ev)
    else if ev.Proceed? then OpeningStep(w, ev.outcome, ev.left)
    else w
  }

  function Start(app: App): World {
    World(app, Disk(None, {}, {}, {}, Absent), 0, Closed, None)
  }

  function Run(w: World, events: seq<Event>): World
    decreases |events|
  {
    if events == [] then w else Run(Step(w, events[0]), events[1..])
  }

  // ---- whose rows --------------------------------------------------------------------------

  function Cached(disk: Disk): set<Row> {
    (if disk.db.Some? then disk.db.value.rows else {}) + disk.wal + disk.dirs + disk.search
  }

  predicate AllBy(rows: set<Row>, owner: Owner) {
    forall r :: r in rows ==> r.writer == owner
  }

  /** The account a state file names. */
  function Named(state: StateFile): Option<Owner> {
    if state.Parsed? then state.saved.owner else None
  }

  /** What a re-initialisation has removed so far, as long as no removal failed. */
  ghost predicate Removed(disk: Disk, todo: Todo) {
    match todo
    case Check => true
    case WipeDirs => true
    case WipeDb(failed) => failed || disk.dirs == {}
    case WipeWal(failed) => failed || (disk.dirs == {} && disk.db.None?)
    case WipeSearch(failed) => failed || (disk.dirs == {} && disk.db.None? && disk.wal == {})
    case Create => Cached(disk) == {} && disk.db.None?
    case Schema => Cached(disk) == {} && disk.db.Some?
    case WriteState => Cached(disk) == {} && disk.db.Some?
  }

  /** A database beside a state file that names an account holds only that account's data, whatever
      was interrupted; an open session has its own data and no state file that names another. */
  ghost predicate Inv(w: World) {
    && (Named(w.disk.state).Some? && w.disk.db.Some? ==>
          AllBy(Cached(w.disk), Named(w.disk.state).value))
    && (w.update.Some? ==> w.phase.Open?)
    && match w.phase
       case Closed => true
       case Opening(_, _, todo) => Removed(w.disk, todo)
       case Open(_, owner, _) =>
         && w.disk.db.Some? && AllBy(Cached(w.disk), owner)
         && (Named(w.disk.state).Some? ==> Named(w.disk.state).value == owner)
         && (w.update.Some? && Named(w.update.value).Some? ==> Named(w.update.value).value == owner)
  }

  lemma OpeningKeepsInv(w: World, outcome: Outcome, left: set<Row>)
    requires Inv(w) && w.phase.Opening?
    ensures Inv(OpeningStep(w, outcome, left))
  {
  }

  lemma SessionKeepsInv(w: World, ev: Event)
    requires Inv(w) && w.phase.Open?
    ensures Inv(SessionStep(w, ev))
  {
  }

  lemma ClosedKeepsInv(w: World, ev: Event)
    requires Inv(w) && w.phase.Closed?
    ensures Inv(ClosedStep(w, ev))
  {
  }

  lemma StepKeepsInv(w: World, ev: Event)
    requires Inv(w)
    ensures Inv(Step(w, ev))
  {
    if w.phase.Open? {
      SessionKeepsInv(w, ev);
    } else if w.phase.Closed? {
      ClosedKeepsInv(w, ev);
    } else if ev.Proceed? {
      OpeningKeepsInv(w, ev.outcome, ev.left);
    }
  }

  lemma {:induction false} RunKeepsInv(w: World, events: seq<Event>)
    requires Inv(w)
    ensures Inv(Run(w, events))
    decreases |events|
  {
    if events != [] {
      StepKeepsInv(w, events[0]);
      RunKeepsInv(Step(w, events[0]), events[1..]);
    }
  }

  /** In every run of opens, account swaps, session refreshes, wipes and state-file updates, with a
      crash or a failure at any step: everything a session can read was written by a session of the
      same account. */
  lemma SessionsReadTheirOwn(app: App, events: seq<Event>, row: Row)
    ensures var w := Run(Start(app), events);
            w.phase.Open? && row in Cached(w.disk) ==> row.writer == w.phase.owner
  {
    RunKeepsInv(Start(app), events);
  }

  /** A session opens on the cache exactly as it was, which its state file trusts it with, or on an
      empty one that the state file now names it for. */
  lemma OpensTrustedOrEmpty(w: World, outcome: Outcome, left: set<Row>)
    requires Inv(w) && w.phase.Opening? && OpeningStep(w, outcome, left).phase.Open?
    ensures var w' := OpeningStep(w, outcome, left);
            && (w'.phase.user, w'.phase.owner) == (w.phase.user, w.phase.owner)
            && Named(w'.disk.state) == Some(w.phase.owner)
            && (|| (w'.disk == w.disk && Trusts(w.app, w.disk, w.phase.owner))
                || (Cached(w'.disk) == {} && w'.phase.marks.None?))
  {
  }

  /** Why a change of session waits for state-file updates in flight: written back after the swap,
      one read before it names the old account over the new account's data, and the old account
      opens on it. */
  lemma LateUpdateWouldLeak(w: World, stale: Saved, row: Row, user: User)
    requires Inv(w) && w.phase.Open? && w.update.None? && row in Cached(w.disk)
    requires w.disk.db.value.schema && !w.disk.db.value.corrupt
    requires stale.owner.Some? && stale.owner.value != w.phase.owner
    requires stale.schemaHash == w.app.schemaHash
    requires stale.version.Some? && stale.version.value >= w.app.cacheVersion
    ensures var late := w.(update := Some(Parsed(stale)));
            var w' := Run(late, [FinishUpdate(true, true), Crash,
                                 Authenticate(user, stale.owner.value), Proceed(Works, {})]);
            && w'.phase.Open? && w'.phase.owner == stale.owner.value
            && row in Cached(w'.disk) && row.writer != w'.phase.owner
  {
    var late := w.(update := Some(Parsed(stale)));
    var open := Authenticate(user, stale.owner.value);
    Run4(late, FinishUpdate(true, true), Crash, open, Proceed(Works, {}));
  }

  lemma Run4(w: World, a: Event, b: Event, c: Event, d: Event)
    ensures Run(w, [a, b, c, d]) == Step(Step(Step(Step(w, a), b), c), d)
  {
    assert [a, b, c, d][1..] == [b, c, d] && [b, c, d][1..] == [c, d];
    assert [c, d][1..] == [d] && [d][1..] == [];
    var w1 := Step(w, a);
    var w2 := Step(w1, b);
    var w3 := Step(w2, c);
    assert Run(w3, [d]) == Run(Step(w3, d), []);
    assert Run(w2, [c, d]) == Run(w3, [d]);
    assert Run(w1, [b, c, d]) == Run(w2, [c, d]);
  }

  // ---- what the state file describes -------------------------------------------------------

  function MarksOf(state: StateFile): Option<nat> {
    if state.Parsed? then state.saved.marks else None
  }

  /** Bookkeeping names only databases that have existed, and a database just created is none. */
  ghost predicate Fresh(w: World) {
    && (MarksOf(w.disk.state).Some? ==> MarksOf(w.disk.state).value < w.next)
    && (w.update.Some? && MarksOf(w.update.value).Some? ==> MarksOf(w.update.value).value < w.next)
    && (w.disk.db.Some? ==> w.disk.db.value.instance < w.next)
    && (w.phase.Opening? && InWindow(w.phase.todo) && w.disk.db.Some? ==>
          MarksOf(w.disk.state) != Some(w.disk.db.value.instance))
  }

  /** Between creating the database and writing the state file beside it. */
  predicate InWindow(todo: Todo) {
    todo.Schema? || todo.WriteState?
  }

  predicate Describes(marks: Option<nat>, db: Option<Db>) {
    marks.Some? && db.Some? ==> marks.value == db.value.instance
  }

  /** The bookkeeping on disk, about to be written and in the session is about the database there. */
  ghost predicate Described(w: World) {
    && ((w.phase.Opening? && InWindow(w.phase.todo))
        || Describes(MarksOf(w.disk.state), w.disk.db))
    && (w.update.Some? ==> Describes(MarksOf(w.update.value), w.disk.db))
    && (w.phase.Open? ==> Describes(w.phase.marks, w.disk.db))
  }

  /** The re-initialisation stops in the window, with bookkeeping still in the old state file. */
  predicate StopsInWindow(w: World, ev: Event) {
    && w.phase.Opening? && InWindow(w.phase.todo)
    && MarksOf(w.disk.state).Some?
    && (ev.Crash? || (ev.Proceed? && (ev.outcome.Fails? || (ev.outcome.Tears? && w.phase.todo.Schema?))))
  }

  lemma StepKeepsFresh(w: World, ev: Event)
    requires Inv(w) && Fresh(w)
    ensures Fresh(Step(w, ev))
  {
  }

  /** A step keeps the state file about its database exactly when it is not a re-initialisation
      stopping between creating the database and writing its state file. */
  lemma StepKeepsDescribed(w: World, ev: Event)
    requires Inv(w) && Fresh(w) && Described(w)
    ensures Described(Step(w, ev)) <==> !StopsInWindow(w, ev)
  {
    if w.phase.Opening? && ev.Proceed? {
      OpeningKeepsDescribed(w, ev);
    }
  }

  lemma OpeningKeepsDescribed(w: World, ev: Event)
    requires Inv(w) && Fresh(w) && Described(w) && w.phase.Opening? && ev.Proceed?
    ensures Described(Step(w, ev)) <==> !StopsInWindow(w, ev)
  {
  }

  ghost predicate NeverStopsInWindow(w: World, events: seq<Event>)
    decreases |events|
  {
    events == [] ||
    (!StopsInWindow(w, events[0]) && NeverStopsInWindow(Step(w, events[0]), events[1..]))
  }

  /** While no re-initialisation stops in that window, a session is only ever seeded with the
      bookkeeping of the database it opens. */
  lemma {:induction false} SeedsDescribeDatabase(w: World, events: seq<Event>)
    requires Inv(w) && Fresh(w) && Described(w) && NeverStopsInWindow(w, events)
    ensures Described(Run(w, events))
    decreases |events|
  {
    if events != [] {
      StepKeepsInv(w, events[0]);
      StepKeepsFresh(w, events[0]);
      StepKeepsDescribed(w, events[0]);
      SeedsDescribeDatabase(Step(w, events[0]), events[1..]);
    }
  }

  /** One that does: the same account opens on the fresh, empty database and is handed the old
      database's bookkeeping, as if caught up. */
  lemma StopInWindowSeedsStale(w: World, user: User)
    requires Inv(w) && Fresh(w) && w.phase.Opening? && w.phase.todo.WriteState?
    requires Trusts(w.app, w.disk, w.phase.owner) && w.disk.state.saved.marks.Some?
    requires w.disk.db.value.schema && !w.disk.db.value.corrupt
    ensures var w' := Step(Step(Step(w, Crash), Authenticate(user, w.phase.owner)), Proceed(Works, {}));
            && w'.phase.Open? && Cached(w'.disk) == {}
            && w'.phase.marks.Some? && w'.phase.marks.value != w'.disk.db.value.instance
  {
  }

  /** Opening, or trying to, as the account whose trusted state file stands beside a database that
      never got its schema. */
  ghost predicate Stuck(w: World, owner: Owner) {
    && Trusts(w.app, w.disk, owner) && !w.disk.db.value.schema && !w.disk.db.value.corrupt
    && w.update.None?
    && (w.phase.Closed? || (w.phase.Opening? && w.phase.owner == owner && w.phase.todo.Check?))
  }

  predicate ByAccount(ev: Event, owner: Owner) {
    match ev
    case Authenticate(_, o) => o == owner
    case Refresh(_, o) => o == owner
    case DisabledWipe(_, _, _, _) => false
    case StateLost(_) => false
    case DbCorrupts => false
    case Upgrade(_) => false
    case _ => true
  }

  /** The other end of that window: stopped before the schema is in place, the cache never opens
      for that account again by itself, since a database without a schema is not a corrupt one. */
  lemma {:induction false} SchemalessNeverOpens(w: World, events: seq<Event>, owner: Owner)
    requires Stuck(w, owner)
    requires forall ev :: ev in events ==> ByAccount(ev, owner)
    ensures Stuck(Run(w, events), owner) && Run(w, events).disk == w.disk
    decreases |events|
  {
    if events != [] {
      assert events[0] in events && forall ev :: ev in events[1..] ==> ev in events;
      SchemalessStep(w, events[0], owner);
      SchemalessNeverOpens(Step(w, events[0]), events[1..], owner);
    }
  }

  lemma SchemalessStep(w: World, ev: Event, owner: Owner)
    requires Stuck(w, owner) && ByAccount(ev, owner)
    ensures Stuck(Step(w, ev), owner) && Step(w, ev).disk == w.disk
  {
  }

  lemma StopBeforeSchemaIsStuck(w: World)
    requires Inv(w) && w.phase.Opening? && w.phase.todo.Schema? && w.update.None?
    requires Trusts(w.app, w.disk, w.phase.owner)
    requires !w.disk.db.value.schema && !w.disk.db.value.corrupt
    ensures Stuck(Step(w, Crash), w.phase.owner)
  {
  }

  function Proceeds(w: World, n: nat): World {
    if n == 0 then w else Step(Proceeds(w, n - 1), Proceed(Works, {}))
  }

  /** The window is reached whenever the account's database is missing, as after a wipe for a
      disabled provider, which leaves the state file. */
  lemma WindowIsReached(w: World, user: User, owner: Owner)
    requires w.phase.Closed? && w.update.None? && w.disk.db.None? && w.disk.state.Parsed?
    ensures var w' := Proceeds(Step(w, Authenticate(user, owner)), 7);
            && w'.phase == Opening(user, owner, WriteState)
            && w'.disk == Disk(Some(Db(w.next, {}, true, false)), {}, {}, {}, w.disk.state)
    ensures var w' := Proceeds(Step(w, Authenticate(user, owner)), 6);
            && w'.phase == Opening(user, owner, Schema)
            && w'.disk == Disk(Some(Db(w.next, {}, false, false)), {}, {}, {}, w.disk.state)
  {
    var a := Step(w, Authenticate(user, owner));
    assert Proceeds(a, 1) == Step(Proceeds(a, 0), Proceed(Works, {}));
    assert Proceeds(a, 1).phase.todo == WipeDirs;
    assert Proceeds(a, 2).phase.todo == WipeDb(false);
    assert Proceeds(a, 3).phase.todo == WipeWal(false);
    assert Proceeds(a, 4).phase.todo == WipeSearch(false);
    assert Proceeds(a, 5).phase.todo == Create;
    assert Proceeds(a, 6).phase.todo == Schema;
  }

  // ---- what an opening comes to ------------------------------------------------------------

  /** The state file this build leaves beside a database it has just created. */
  function FreshState(app: App, owner: Owner): StateFile {
    Parsed(Saved(app.schemaHash, Some(app.cacheVersion), Some(owner), None))
  }

  /** What a re-initialisation in which nothing fails makes of any disk. */
  function Rebuilt(w: World, user: User, owner: Owner): World {
    w.(disk := Disk(Some(Db(w.next, {}, true, false)), {}, {}, {}, FreshState(w.app, owner)),
       next := w.next + 1, phase := Open(user, owner, None))
  }

  lemma RebuildSteps(w: World, user: User, owner: Owner)
    requires w.phase == Opening(user, owner, WipeDirs)
    ensures Proceeds(w, 7) == Rebuilt(w, user, owner)
  {
    assert Proceeds(w, 0) == w;
    var w1 := Next(w.(disk := w.disk.(dirs := {})), WipeDb(false));
    assert Proceeds(w, 1) == w1;
    var w2 := Next(w1.(disk := w1.disk.(db := None)), WipeWal(false));
    assert Proceeds(w, 2) == w2;
    var w3 := Next(w2.(disk := w2.disk.(wal := {})), WipeSearch(false));
    assert Proceeds(w, 3) == w3;
    var w4 := Next(w3.(disk := w3.disk.(search := {})), Create);
    assert Proceeds(w, 4) == w4;
    var w5 := Next(w4.(disk := w4.disk.(db := Some(Db(w.next, {}, false, false))), next := w.next + 1),
                   Schema);
    assert Proceeds(w, 5) == w5;
    var w6 := Next(w5.(disk := w5.disk.(db := Some(Db(w.next, {}, true, false)))), WriteState);
    assert Proceeds(w, 6) == w6;
    assert Proceeds(w, 7) == Step(w6, Proceed(Works, {}));
  }

  lemma {:induction false} ProceedsFrom(w: World, n: nat)
    requires n > 0
    ensures Proceeds(w, n) == Proceeds(Step(w, Proceed(Works, {})), n - 1)
  {
    if n > 1 {
      ProceedsFrom(w, n - 1);
    } else {
      assert Proceeds(w, 0) == w;
    }
  }

  /** With nothing failing, an account opens on the cache as it is if the state file says this schema,
      a version no older than this build's and this account, and the database is there, sound and with
      its schema. It does not open on one that only lacks the schema. In every other case the cache is
      rebuilt empty, and the state file names this build and this account. */
  lemma OpeningExactly(w: World, user: User, owner: Owner)
    requires w.phase.Closed? && w.update.None?
    ensures var opening := Step(w, Authenticate(user, owner));
            var db, state := w.disk.db, w.disk.state;
            if db.Some? && !db.value.corrupt && state.Parsed?
               && state.saved.schemaHash == w.app.schemaHash
               && state.saved.version.Some? && w.app.cacheVersion <= state.saved.version.value
               && state.saved.owner == Some(owner)
            then Proceeds(opening, 1) ==
                 if db.value.schema then w.(phase := Open(user, owner, state.saved.marks)) else w
            else Proceeds(opening, 8) == Rebuilt(w, user, owner)
  {
    var opening := Step(w, Authenticate(user, owner));
    assert Proceeds(opening, 0) == opening;
    var checked := CheckStep(opening, true);
    assert Proceeds(opening, 1) == checked;
    if checked.phase == Opening(user, owner, WipeDirs) {
      ProceedsFrom(opening, 8);
      RebuildSteps(checked, user, owner);
    }
  }

  /** So what a session leaves is kept for the next one exactly if that is of the same account, by a
      build with the same schema that asks for no newer version. */
  lemma ReopensExactly(w: World, app: App, user: User, owner: Owner, user': User, owner': Owner)
    requires w.phase.Opening? && w.update.None?
    ensures var closed := Step(Step(Rebuilt(w, user, owner), Crash), Upgrade(app));
            if app.schemaHash == w.app.schemaHash && app.cacheVersion <= w.app.cacheVersion && owner' == owner
            then Proceeds(Step(closed, Authenticate(user', owner')), 1) ==
                 closed.(phase := Open(user', owner', None))
            else Proceeds(Step(closed, Authenticate(user', owner')), 8) == Rebuilt(closed, user', owner')
  {
    OpeningExactly(Step(Step(Rebuilt(w, user, owner), Crash), Upgrade(app)), user', owner');
  }

  // ---- what a session does -----------------------------------------------------------------

  function CachedBy(ev: Event, owner: Owner): set<Row> {
    match ev
    case WriteRow(key) => {Row(key, owner)}
    case StoreFile(key) => {Row(key, owner)}
    case IndexSearch(key) => {Row(key, owner)}
    case _ => {}
  }

  /** An open session reads what it cached, and keeps all that was there: a checkpoint, a state-file
      update and a refresh of the same account change nothing of it. */
  lemma SessionKeepsWhatItCaches(w: World, ev: Event)
    requires Inv(w) && w.phase.Open?
    ensures Cached(Step(w, ev).disk) == Cached(w.disk) + CachedBy(ev, w.phase.owner)
  {
    var w' := Step(w, ev);
    match ev
    case Checkpoint => assert Cached(w'.disk) == Cached(w.disk);
    case DbCorrupts => assert Cached(w'.disk) == Cached(w.disk);
    case _ =>
  }

  /** A refresh or a logout waits for a state-file update in flight. The session of the same account
      goes on; another is opened as if from scratch; a logout closes it, and the cache stays. */
  lemma SwapExactly(w: World, user: User, owner: Owner)
    requires w.phase.Open?
    ensures Step(w, Refresh(user, owner)) ==
            if w.update.Some? || (w.phase.user == user && w.phase.owner == owner) then w
            else Step(w.(phase := Closed), Authenticate(user, owner))
    ensures Step(w, Demote) == if w.update.Some? then w else w.(phase := Closed)
    ensures Step(w.(phase := Closed), Refresh(user, owner)) ==
            Step(w.(phase := Closed), Authenticate(user, owner))
  {
  }

  /** An update that succeeds replaces the bookkeeping by that of the open database and nothing else of
      the state file; one that cannot be read names no account, so the next opening rebuilds. */
  lemma UpdateExactly(w: World, marked: bool)
    requires Inv(w) && w.phase.Open? && w.update.None?
    ensures var w' := Step(Step(w, BeginUpdate(true)), FinishUpdate(true, marked));
            && w' == w.(disk := w.disk.(state := w'.disk.state)) && w'.disk.state.Parsed?
            && var saved := w'.disk.state.saved;
               && saved.marks == (if marked then Some(w.disk.db.value.instance) else MarksOf(w.disk.state))
               && if w.disk.state.Parsed? then saved.(marks := w.disk.state.saved.marks) == w.disk.state.saved
                  else saved.owner.None?
    ensures Step(Step(w, BeginUpdate(true)), FinishUpdate(false, marked)) == w
    ensures Step(w, BeginUpdate(false)) == w
  {
  }

  /** What the wipe for a disabled provider leaves: the state file, and at most what it failed to
      remove. */
  lemma DisabledWipeExactly(w: World, dirs: set<Row>, keepDb: bool, wal: set<Row>, search: set<Row>)
    requires w.phase.Closed?
    ensures var w' := Step(w, DisabledWipe(dirs, keepDb, wal, search));
            && w'.disk.state == w.disk.state && Cached(w'.disk) <= Cached(w.disk)
            && (!keepDb ==> w'.disk.db.None? && Cached(w'.disk) <= dirs + wal + search)
            && w' == w.(disk := w'.disk)
  {
  }
}
