/** Per-item locks (`file_locks.rs`): a map of shared mutexes whose unheld entries are pruned on the
    way in. Pruning looks at one entry at a time, while guards and waiters elsewhere are dropped. */
module FileLocks {
  import opened Prelude

  type Uuid = nat
  type Task = nat

  /** A mutex in the heap; the map and every task using it hold a reference each. */
  type Mutex = nat

  /** `Released`: the guard has unlocked the mutex but not yet dropped its reference. */
  datatype Stage = Waiting | Holding | Released

  datatype Use = Use(uuid: Uuid, mutex: Mutex, stage: Stage)

  /** Inside the map's own lock: the entries pruning has still to look at. `inFlight`: the tasks that
      were using a lock when it started, and whose. */
  datatype Entering = Entering(task: Task, uuid: Uuid, todo: set<Uuid>, inFlight: map<Task, Uuid>)

  datatype World = World(locks: map<Uuid, Mutex>, next: Mutex, uses: map<Task, Use>,
                         entering: Option<Entering>)

  datatype Event =
    | LockMap(task: Task, uuid: Uuid)
    | PruneEntry(uuid: Uuid)
    | TakeEntry
    | AbandonMap             // dropped while it held the map
    | Acquire(task: Task)
    | Unlock(task: Task)
    | DropUse(task: Task)    // the last of a guard, or a waiter that gave up

  function Start(): World {
    World(map[], 0, map[], None)
  }

  /** Whether anything but the map has a reference: `strong_count > 1`. */
  predicate Referenced(w: World, m: Mutex) {
    exists t :: t in w.uses && w.uses[t].mutex == m
  }

  predicate Locked(w: World, m: Mutex) {
    exists t :: t in w.uses && w.uses[t].mutex == m && w.uses[t].stage.Holding?
  }

  function ItemsOf(uses: map<Task, Use>): map<Task, Uuid> {
    map t | t in uses :: uses[t].uuid
  }

  /** `entry(uuid).or_default()`, cloned. */
  function TakeStep(w: World, e: Entering): World {
    var w' := if e.uuid in w.locks then w
              else w.(locks := w.locks[e.uuid := w.next], next := w.next + 1);
    w'.(uses := w'.uses[e.task := Use(e.uuid, w'.locks[e.uuid], Waiting)], entering := None)
  }

  function PruneStep(w: World, e: Entering, uuid: Uuid): World
    requires uuid in w.locks
  {
    w.(locks := if Referenced(w, w.locks[uuid]) then w.locks else w.locks - {uuid},
       entering := Some(e.(todo := e.todo - {uuid})))
  }

  function SetStage(w: World, t: Task, stage: Stage): World
    requires t in w.uses
  {
    w.(uses := w.uses[t := w.uses[t].(stage := stage)])
  }

  /** One step; an event that cannot happen in this state changes nothing. */
  function Step(w: World, ev: Event): World {
    match ev
    case LockMap(t, uuid) =>
      if w.entering.Some? || t in w.uses then w
      else w.(entering := Some(Entering(t, uuid, w.locks.Keys, ItemsOf(w.uses))))
    case PruneEntry(uuid) =>
      if w.entering.None? || uuid !in w.entering.value.todo || uuid !in w.locks then w
      else PruneStep(w, w.entering.value, uuid)
    case TakeEntry =>
      if w.entering.None? || w.entering.value.todo != {} then w else TakeStep(w, w.entering.value)
    case AbandonMap => w.(entering := None)
    case Acquire(t) =>
      if t !in w.uses || !w.uses[t].stage.Waiting? || Locked(w, w.uses[t].mutex) then w
      else SetStage(w, t, Holding)
    case Unlock(t) =>
      if t !in w.uses || !w.uses[t].stage.Holding? then w else SetStage(w, t, Released)
    case DropUse(t) =>
      if t !in w.uses || w.uses[t].stage.Holding? then w else w.(uses := w.uses - {t})
  }

  // ---- the invariant -----------------------------------------------------------------------

  /** Everyone using the lock of an item, waiting or holding, uses the mutex the map has for it. */
  ghost predicate Shared(w: World) {
    forall t :: t in w.uses ==> w.uses[t].uuid in w.locks && w.locks[w.uses[t].uuid] == w.uses[t].mutex
  }

  ghost predicate MutexesDiffer(w: World) {
    && (forall u :: u in w.locks ==> w.locks[u] < w.next)
    && (forall u, v :: u in w.locks && v in w.locks && w.locks[u] == w.locks[v] ==> u == v)
  }

  ghost predicate OneHolder(w: World) {
    forall t, t' :: t in w.uses && t' in w.uses && w.uses[t].mutex == w.uses[t'].mutex ==>
                      (w.uses[t].stage.Holding? && w.uses[t'].stage.Holding? ==> t == t')
  }

  /** No task starts using a lock while the map is locked, and every entry pruning is through with
      was in use by a task in flight when it started. */
  ghost predicate Pruned(w: World) {
    w.entering.Some? ==>
      var e := w.entering.value;
      && e.todo <= w.locks.Keys && e.task !in w.uses
      && (forall t :: t in w.uses ==> t in e.inFlight && e.inFlight[t] == w.uses[t].uuid)
      && w.locks.Keys - e.todo <= e.inFlight.Values
  }

  ghost predicate Inv(w: World) {
    Shared(w) && MutexesDiffer(w) && OneHolder(w) && Pruned(w)
  }

  lemma PruneKeepsInv(w: World, uuid: Uuid)
    requires Inv(w) && w.entering.Some? && uuid in w.entering.value.todo
    ensures Inv(PruneStep(w, w.entering.value, uuid))
  {
  }

  lemma TakeKeepsInv(w: World)
    requires Inv(w) && w.entering.Some? && w.entering.value.todo == {}
    ensures Inv(TakeStep(w, w.entering.value))
  {
  }

  lemma AcquireKeepsInv(w: World, t: Task)
    requires Inv(w) && t in w.uses && !Locked(w, w.uses[t].mutex)
    ensures Inv(SetStage(w, t, Holding))
  {
  }

  lemma LeaveKeepsInv(w: World, ev: Event)
    requires Inv(w) && (ev.AbandonMap? || ev.Unlock? || ev.DropUse?)
    ensures Inv(Step(w, ev))
  {
  }

  lemma LockMapKeepsInv(w: World, t: Task, uuid: Uuid)
    requires Inv(w)
    ensures Inv(Step(w, LockMap(t, uuid)))
  {
  }

  lemma StepKeepsInv(w: World, ev: Event)
    requires Inv(w)
    ensures Inv(Step(w, ev))
  {
    match ev
    case LockMap(t, uuid) => LockMapKeepsInv(w, t, uuid);
    case PruneEntry(uuid) =>
      if w.entering.Some? && uuid in w.entering.value.todo {
        PruneKeepsInv(w, uuid);
      }
    case TakeEntry =>
      if w.entering.Some? && w.entering.value.todo == {} {
        TakeKeepsInv(w);
      }
    case AbandonMap => LeaveKeepsInv(w, ev);
    case Acquire(t) =>
      if t in w.uses && !Locked(w, w.uses[t].mutex) {
        AcquireKeepsInv(w, t);
      }
    case Unlock(t) => LeaveKeepsInv(w, ev);
    case DropUse(t) => LeaveKeepsInv(w, ev);
  }

  function Run(w: World, events: seq<Event>): World
    decreases |events|
  {
    if events == [] then w else Run(Step(w, events[0]), events[1..])
  }

  lemma {:induction false} RunKeepsInv(w: World, events: seq<Event>)
    requires Inv(w)
    ensures Inv(Run(w, events))
    decreases |events|
  {
    if events != [] {
      StepKeepsInv(w, events[0]);
      RunKeepsInv(Step(w, events[0]), events[1..]);
    }
  }

  // ---- what it is for ----------------------------------------------------------------------

  /** In every interleaving of acquisitions, releases, dropped waiters and prunes: two tasks never
      hold the lock of the same item at once, and all who use it share one mutex. */
  lemma MutualExclusion(events: seq<Event>, t: Task, t': Task)
    ensures var w := Run(Start(), events);
            t in w.uses && t' in w.uses && w.uses[t].uuid == w.uses[t'].uuid ==>
              && w.uses[t].mutex == w.uses[t'].mutex
              && (w.uses[t].stage.Holding? && w.uses[t'].stage.Holding? ==> t == t')
  {
    RunKeepsInv(Start(), events);
  }

  /** A waiting task may get the lock of its item exactly when no other task holds that item's: other
      items never keep it waiting. Which of an item's waiters is next is the mutex's to say. */
  lemma MayAcquireExactly(w: World, t: Task)
    requires Inv(w) && t in w.uses && w.uses[t].stage.Waiting?
    ensures Step(w, Acquire(t)).uses[t].stage.Holding? <==>
            forall t' :: t' in w.uses && w.uses[t'].uuid == w.uses[t].uuid ==>
                           !w.uses[t'].stage.Holding?
  {
  }

  lemma ValuesSize(m: map<Task, Uuid>)
    ensures |m.Values| <= |m|
    decreases |m|
  {
  }

  /** Taking an entry leaves at most one per operation in flight when its prune began, and its own. */
  lemma MapIsSizedToOperations(w: World)
    requires Inv(w) && w.entering.Some? && w.entering.value.todo == {}
    ensures var e := w.entering.value;
            var w' := Step(w, TakeEntry);
            && w'.locks.Keys <= e.inFlight.Values + {e.uuid}
            && |w'.locks| <= |e.inFlight| + 1
  {
    var e := w.entering.value;
    var w' := Step(w, TakeEntry);
    ValuesSize(e.inFlight);
    SubsetSize(w'.locks.Keys, e.inFlight.Values + {e.uuid});
    assert |w'.locks| == |w'.locks.Keys|;
  }

  /** A task in flight when the prune began has left, the last on its item, after the entry was
      looked at. */
  predicate LeftLate(w: World, e: Entering, t: Task) {
    && t in e.inFlight && e.inFlight[t] in w.locks && e.inFlight[t] != e.uuid
    && forall u :: u in w.uses ==> w.uses[u].uuid != e.inFlight[t]
  }

  predicate InUse(w: World, u: Uuid) {
    exists t :: t in w.uses && w.uses[t].uuid == u
  }

  /** The entries are exactly the items in use if and only if no task left late. */
  lemma PruneIsExactIff(w: World)
    requires Inv(w) && w.entering.Some? && w.entering.value.todo == {}
    ensures var w' := Step(w, TakeEntry);
            (forall u :: u in w'.locks <==> InUse(w', u)) <==>
            forall t :: !LeftLate(w, w.entering.value, t)
  {
    var e := w.entering.value;
    var w' := Step(w, TakeEntry);
    TakeKeepsInv(w);
    assert w'.uses[e.task].uuid == e.uuid;
    forall u | InUse(w', u)
      ensures u in w'.locks
    {
    }
    forall t | LeftLate(w, e, t)
      ensures e.inFlight[t] in w'.locks && !InUse(w', e.inFlight[t])
    {
    }
    if forall t :: !LeftLate(w, e, t) {
      forall u | u in w'.locks
        ensures InUse(w', u)
      {
        if u != e.uuid {
          KeptIsInUse(w, u);
        }
      }
    }
  }

  lemma KeptIsInUse(w: World, u: Uuid)
    requires Inv(w) && w.entering.Some? && w.entering.value.todo == {} && u in w.locks
    requires u != w.entering.value.uuid && forall t :: !LeftLate(w, w.entering.value, t)
    ensures InUse(Step(w, TakeEntry), u)
  {
    var e := w.entering.value;
    assert u in e.inFlight.Values;
    var t :| t in e.inFlight && e.inFlight[t] == u;
    assert !LeftLate(w, e, t);
    var t' :| t' in w.uses && w.uses[t'].uuid == u;
    assert t' in Step(w, TakeEntry).uses;
  }

  function Linger(): seq<Event> {
    [LockMap(1, 1), TakeEntry, Acquire(1), LockMap(7, 2), PruneEntry(1), TakeEntry, Unlock(1),
     DropUse(1), Acquire(7)]
  }

  lemma RunStep(w: World, events: seq<Event>)
    requires events != []
    ensures Run(w, events) == Run(Step(w, events[0]), events[1..])
  {
  }

  /** Later the bound is off: released entries stay until the next prune, so a guard can be obtained
      while the map has more entries than there are operations. */
  lemma ReleasedEntriesLinger()
    ensures var w := Run(Start(), Linger());
            && w.uses == map[7 := Use(2, 1, Holding)]
            && w.locks == map[1 := 0, 2 := 1] && |w.locks| > |w.uses|
  {
    var one, seven := Use(1, 0, Waiting), Use(2, 1, Waiting);
    var held := one.(stage := Holding);
    var events := Linger();
    var w1 := World(map[], 0, map[], Some(Entering(1, 1, {}, map[])));
    assert ItemsOf(map[]) == map[] && Start().locks.Keys == {};
    assert Step(Start(), events[0]) == w1;
    var w2 := World(map[1 := 0], 1, map[1 := one], None);
    assert Step(w1, events[1]) == w2;
    assert !Locked(w2, 0);
    var w3 := w2.(uses := map[1 := held]);
    assert Step(w2, events[2]) == w3;
    var w4 := w3.(entering := Some(Entering(7, 2, {1}, map[1 := 1])));
    assert ItemsOf(w3.uses) == map[1 := 1] && w3.locks.Keys == {1};
    assert Step(w3, events[3]) == w4;
    assert w4.uses[1].mutex == 0 && Referenced(w4, 0);
    var w5 := w3.(entering := Some(Entering(7, 2, {}, map[1 := 1])));
    assert {1} - {1} == {};
    assert Step(w4, events[4]) == w5;
    LingerEnd(w5);
    assert events[5..] == events[1..][1..][1..][1..][1..];
    RunStep(Start(), events);
    RunStep(w1, events[1..]);
    RunStep(w2, events[1..][1..]);
    RunStep(w3, events[1..][1..][1..]);
    RunStep(w4, events[1..][1..][1..][1..]);
  }

  lemma LingerEnd(w5: World)
    requires w5 == World(map[1 := 0], 1, map[1 := Use(1, 0, Holding)],
                         Some(Entering(7, 2, {}, map[1 := 1])))
    ensures var w := Run(w5, Linger()[5..]);
            && w.uses == map[7 := Use(2, 1, Holding)]
            && w.locks == map[1 := 0, 2 := 1] && |w.locks| > |w.uses|
  {
    var events := Linger()[5..];
    var locks, seven := map[1 := 0, 2 := 1], Use(2, 1, Waiting);
    var w6 := World(locks, 2, map[1 := Use(1, 0, Holding), 7 := seven], None);
    assert Step(w5, events[0]) == w6;
    var w7 := World(locks, 2, map[1 := Use(1, 0, Released), 7 := seven], None);
    assert Step(w6, events[1]) == w7;
    var w8 := World(locks, 2, map[7 := seven], None);
    assert Step(w7, events[2]) == w8;
    assert !Locked(w8, 1);
    var w9 := World(locks, 2, map[7 := seven.(stage := Holding)], None);
    assert Step(w8, events[3]) == w9;
    RunStep(w5, events);
    RunStep(w6, events[1..]);
    RunStep(w7, events[1..][1..]);
    RunStep(w8, events[1..][1..][1..]);
    assert events[1..][1..][1..][1..] == [];
    assert Run(w9, []) == w9;
    assert |w9.locks| == 2 && |w9.uses| == 1;
  }

  // ---- a call with nothing in between ------------------------------------------------------

  /** The entries are looked at in some order. */
  function Prunes(w: World, order: seq<Uuid>): World {
    if order == [] then w
    else Step(Prunes(w, order[..|order| - 1]), PruneEntry(order[|order| - 1]))
  }

  /** The entries a prune keeps: those not yet looked at, and those in use. */
  ghost function Kept(w: World, order: seq<Uuid>): map<Uuid, Mutex> {
    map u | u in w.locks && (u !in order || Referenced(w, w.locks[u])) :: w.locks[u]
  }

  ghost function PrunedTo(w: World, order: seq<Uuid>): World
    requires w.entering.Some?
  {
    w.(locks := Kept(w, order),
       entering := Some(w.entering.value.(todo := w.locks.Keys - set u | u in order)))
  }

  lemma {:induction false} PrunesExactly(w: World, order: seq<Uuid>)
    requires w.entering.Some? && w.entering.value.todo == w.locks.Keys
    requires forall i, j :: 0 <= i < j < |order| ==> order[i] != order[j]
    requires forall u :: u in order ==> u in w.locks
    ensures Prunes(w, order) == PrunedTo(w, order)
    decreases |order|
  {
    if order == [] {
      assert Kept(w, order) == w.locks;
      assert w.locks.Keys - (set u | u in order) == w.locks.Keys;
    } else {
      var init, last := order[..|order| - 1], order[|order| - 1];
      assert order == init + [last];
      assert last !in init && last in order && forall u :: u in init ==> u in order;
      PrunesExactly(w, init);
      PruneNext(w, init, last);
    }
  }

  lemma KeptSnoc(w: World, order: seq<Uuid>, last: Uuid)
    requires last in w.locks && last !in order
    ensures last in Kept(w, order) && Kept(w, order)[last] == w.locks[last]
    ensures Kept(w, order + [last]) ==
            if Referenced(w, w.locks[last]) then Kept(w, order) else Kept(w, order) - {last}
  {
  }

  lemma PruneNext(w: World, order: seq<Uuid>, last: Uuid)
    requires w.entering.Some? && last in w.locks && last !in order
    ensures Step(PrunedTo(w, order), PruneEntry(last)) == PrunedTo(w, order + [last])
  {
    var w1 := PrunedTo(w, order);
    KeptSnoc(w, order, last);
    assert Referenced(w1, w.locks[last]) <==> Referenced(w, w.locks[last]);
    assert w.locks.Keys - (set u | u in order + [last]) == w1.entering.value.todo - {last};
  }

  /** The map is locked, pruned, and the task has its entry. */
  function Called(w: World, t: Task, u: Uuid, order: seq<Uuid>): World {
    Step(Prunes(Step(w, LockMap(t, u)), order), TakeEntry)
  }

  lemma CalledExactly(w: World, t: Task, u: Uuid, order: seq<Uuid>)
    requires Inv(w) && w.entering.None? && t !in w.uses
    requires forall i, j :: 0 <= i < j < |order| ==> order[i] != order[j]
    requires forall v :: v in order <==> v in w.locks
    ensures var w3 := Called(w, t, u, order);
            && Inv(w3) && w3.entering.None? && u in w3.locks
            && w3.uses == w.uses[t := Use(u, w3.locks[u], Waiting)]
            && forall v :: v in w3.locks <==> InUse(w3, v)
  {
    var w1 := Step(w, LockMap(t, u));
    var w2 := Prunes(w1, order);
    PrunedFor(w, t, u, order);
    TakeKeepsInv(w2);
    TakenAfterPrune(w, w1, w2, t, u, order);
  }

  lemma {:induction false} PrunedFor(w: World, t: Task, u: Uuid, order: seq<Uuid>)
    requires Inv(w) && w.entering.None? && t !in w.uses
    requires forall i, j :: 0 <= i < j < |order| ==> order[i] != order[j]
    requires forall v :: v in order <==> v in w.locks
    ensures var w1 := Step(w, LockMap(t, u));
            var w2 := Prunes(w1, order);
            && Inv(w2) && w1.uses == w2.uses == w.uses && w1.locks == w.locks && w2.locks == Kept(w1, order)
            && w2.entering == Some(Entering(t, u, {}, ItemsOf(w.uses)))
  {
    var w1 := Step(w, LockMap(t, u));
    LockMapKeepsInv(w, t, u);
    PrunesExactly(w1, order);
    PrunesKeepInv(w1, order);
    assert w1.locks.Keys - (set v | v in order) == {};
  }

  /** A task asks for the lock of an item: the entries of items nobody uses go, every other task is where
      it was, and the task holds the lock, or waits exactly if another holds that item's. */
  lemma LockExactly(w: World, t: Task, u: Uuid, order: seq<Uuid>)
    requires Inv(w) && w.entering.None? && t !in w.uses
    requires forall i, j :: 0 <= i < j < |order| ==> order[i] != order[j]
    requires forall v :: v in order <==> v in w.locks
    ensures var w' := Step(Called(w, t, u, order), Acquire(t));
            && w'.entering.None? && t in w'.uses && w'.uses[t].uuid == u && w'.uses - {t} == w.uses
            && w'.uses[t].stage == (if exists t' :: t' in w.uses && w.uses[t'].uuid == u
                                                    && w.uses[t'].stage.Holding?
                                    then Waiting else Holding)
            && forall v :: v in w'.locks <==> InUse(w', v)
  {
    CalledExactly(w, t, u, order);
    LockEnds(w, Called(w, t, u, order), t, u);
  }

  lemma LockEnds(w: World, w3: World, t: Task, u: Uuid)
    requires Inv(w3) && t !in w.uses && u in w3.locks && w3.uses == w.uses[t := Use(u, w3.locks[u], Waiting)]
    requires w3.entering.None? && forall v :: v in w3.locks <==> InUse(w3, v)
    ensures var w' := Step(w3, Acquire(t));
            && w'.entering.None? && t in w'.uses && w'.uses[t].uuid == u && w'.uses - {t} == w.uses
            && w'.uses[t].stage == (if exists t' :: t' in w.uses && w.uses[t'].uuid == u
                                                    && w.uses[t'].stage.Holding?
                                    then Waiting else Holding)
            && forall v :: v in w'.locks <==> InUse(w', v)
  {
    AcquiresIfFree(w, w3, t, u);
    StageOnly(w3, t);
    var w' := Step(w3, Acquire(t));
    assert w'.uses - {t} == w3.uses - {t};
  }

  /** Pruned and taken: the entries are the items in use, and the task waits for its own. */
  lemma TakenAfterPrune(w: World, w1: World, w2: World, t: Task, u: Uuid, order: seq<Uuid>)
    requires Inv(w) && t !in w.uses && forall v :: v in order <==> v in w.locks
    requires w1.uses == w.uses && w1.locks == w.locks
    requires w2.uses == w.uses && w2.locks == Kept(w1, order)
    requires w2.entering.Some? && w2.entering.value.task == t && w2.entering.value.uuid == u
    requires w2.entering.value.todo == {}
    ensures var w3 := Step(w2, TakeEntry);
            && u in w3.locks && w3.uses == w.uses[t := Use(u, w3.locks[u], Waiting)]
            && w3.entering.None?
            && forall v :: v in w3.locks <==> InUse(w3, v)
  {
    var w3 := Step(w2, TakeEntry);
    forall v
      ensures v in w3.locks <==> InUse(w3, v)
    {
      if v in w3.locks && v != u {
        assert Referenced(w1, w.locks[v]);
        var t' :| t' in w.uses && w.uses[t'].mutex == w.locks[v];
        assert w3.uses[t'].uuid == v;
      }
      if v == u {
        assert w3.uses[t].uuid == u;
      }
      if InUse(w3, v) && v != u {
        var t' :| t' in w3.uses && w3.uses[t'].uuid == v;
        assert t' in w.uses && w.uses[t'].mutex == w.locks[v];
        assert Referenced(w1, w1.locks[v]);
      }
    }
  }

  lemma AcquiresIfFree(w: World, w3: World, t: Task, u: Uuid)
    requires Inv(w3) && t !in w.uses && u in w3.locks && w3.uses == w.uses[t := Use(u, w3.locks[u], Waiting)]
    ensures Step(w3, Acquire(t)).uses[t].stage.Holding? <==>
            !exists t' :: t' in w.uses && w.uses[t'].uuid == u && w.uses[t'].stage.Holding?
    ensures w3.uses - {t} == w.uses
  {
    MayAcquireExactly(w3, t);
    if t' :| t' in w.uses && w.uses[t'].uuid == u && w.uses[t'].stage.Holding? {
      assert w3.uses[t'] == w.uses[t'];
    }
  }

  lemma {:induction false} PrunesKeepInv(w: World, order: seq<Uuid>)
    requires Inv(w)
    ensures Inv(Prunes(w, order))
    decreases |order|
  {
    if order != [] {
      PrunesKeepInv(w, order[..|order| - 1]);
      StepKeepsInv(Prunes(w, order[..|order| - 1]), PruneEntry(order[|order| - 1]));
    }
  }

  /** Trying the lock moves the task that tries, if any. */
  lemma StageOnly(w: World, t: Task)
    requires t in w.uses && w.uses[t].stage.Waiting?
    ensures var w' := Step(w, Acquire(t));
            && t in w'.uses && w' == w.(uses := w.uses[t := w'.uses[t]])
            && w'.uses[t].uuid == w.uses[t].uuid
            && (w'.uses[t].stage.Waiting? || w'.uses[t].stage.Holding?)
            && forall v :: InUse(w', v) <==> InUse(w, v)
  {
    var w' := Step(w, Acquire(t));
    forall v
      ensures InUse(w', v) <==> InUse(w, v)
    {
      if t' :| t' in w.uses && w.uses[t'].uuid == v {
        assert w'.uses[t'].uuid == v;
      }
      if t' :| t' in w'.uses && w'.uses[t'].uuid == v {
        assert w.uses[t'].uuid == v;
      }
    }
  }

  /** A guard dropped and a waiter that gives up leave every other task where it was, and a call
      abandoned in the map everything. */
  lemma UsesEnd(w: World, t: Task, u: Uuid)
    ensures t in w.uses && w.uses[t].stage.Holding? ==>
              Step(Step(w, Unlock(t)), DropUse(t)) == w.(uses := w.uses - {t})
    ensures t in w.uses && w.uses[t].stage.Waiting? ==> Step(w, DropUse(t)) == w.(uses := w.uses - {t})
    ensures w.entering.None? ==> Step(Step(w, LockMap(t, u)), AbandonMap) == w
  {
    if t in w.uses {
      assert w.uses[t := w.uses[t].(stage := Released)] - {t} == w.uses - {t};
    }
  }
}
