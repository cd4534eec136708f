/** Server listings against the applier of drive events: listings hold the barrier as readers across
    fetch and apply, the applier takes it as a writer once per event. */
module ListingBarrier {
  import opened Prelude

  /** One fact about one item (a name, a parent, whether it exists), as the server or the cache
      holds it. */
  type Cell = nat
  type Fact = Option<nat>
  type Reader = nat

  /** A change on the server, which reaches the cache as one drive event. A permanent deletion is
      carried out after the write guard is released. */
  datatype Change = Change(sets: map<Cell, Fact>, followUp: bool)

  /** What one listing call read: every cell in its scope, all after the first `pos` changes. */
  datatype Snapshot = Snapshot(pos: nat, scope: set<Cell>)

  datatype Applier = Waiting | Guarded | Applied | FollowingUp

  datatype World = World(
    log: seq<Change>,                      // what happened on the server, in order
    cache: map<Cell, Fact>,                // the cells the cache holds
    applied: nat,                          // how many of the changes have been applied as events
    applier: Applier,
    readers: map<Reader, set<Snapshot>>,   // listings in flight, with what each has fetched
    recents: set<Snapshot>)                // what refreshes of the recents fetched, outside the barrier

  datatype Event =
    | ServerChange(change: Change)
    | StartListing(reader: Reader)
    | Fetch(reader: Reader, scope: set<Cell>)
    | Apply(reader: Reader, snapshot: Snapshot)
    | EndListing(reader: Reader)
    | TakeGuard
    | ApplyEvent
    | ReleaseGuard
    | FollowUp
    | FetchRecents(scope: set<Cell>)
    | ApplyRecents(snapshot: Snapshot)

  /** A cell on the server after the first `n` changes. */
  function At(log: seq<Change>, n: nat, c: Cell): Fact
    requires n <= |log|
  {
    if n == 0 then None
    else if c in log[n - 1].sets then log[n - 1].sets[c]
    else At(log, n - 1, c)
  }

  function Overwrite(w: World, snapshot: Snapshot): map<Cell, Fact>
    requires snapshot.pos <= |w.log|
  {
    w.cache + map c | c in snapshot.scope :: At(w.log, snapshot.pos, c)
  }

  /** One atomic step; an event that cannot happen in this state changes nothing. */
  function Step(w: World, ev: Event): World
    requires Shape(w)
  {
    match ev
    case ServerChange(change) => w.(log := w.log + [change])
    case StartListing(r) =>
      if r in w.readers || w.applier.Guarded? || w.applier.Applied? then w
      else w.(readers := w.readers[r := {}])
    case Fetch(r, scope) =>
      if r !in w.readers then w
      else w.(readers := w.readers[r := w.readers[r] + {Snapshot(|w.log|, scope)}])
    case Apply(r, snapshot) =>
      if r !in w.readers || snapshot !in w.readers[r] then w
      else w.(cache := Overwrite(w, snapshot))
    case EndListing(r) => w.(readers := w.readers - {r})
    case TakeGuard =>
      if w.applier.Waiting? && w.readers == map[] && w.applied < |w.log|
      then w.(applier := Guarded) else w
    case ApplyEvent =>
      if !w.applier.Guarded? then w
      else if w.log[w.applied].followUp then w.(applier := FollowingUp)
      else w.(cache := w.cache + w.log[w.applied].sets, applied := w.applied + 1, applier := Applied)
    case ReleaseGuard => if w.applier.Applied? then w.(applier := Waiting) else w
    case FollowUp =>
      if !w.applier.FollowingUp? then w
      else w.(cache := w.cache + w.log[w.applied].sets, applied := w.applied + 1, applier := Waiting)
    case FetchRecents(scope) => w.(recents := w.recents + {Snapshot(|w.log|, scope)})
    case ApplyRecents(snapshot) =>
      if snapshot in w.recents then w.(cache := Overwrite(w, snapshot)) else w
  }

  // ---- the invariant -----------------------------------------------------------------------

  ghost predicate Shape(w: World) {
    && w.applied <= |w.log|
    && (w.applier.Guarded? || w.applier.FollowingUp? ==> w.applied < |w.log|)
    && (w.applier.Guarded? || w.applier.Applied? ==> w.readers == map[])
    && (forall r, s :: r in w.readers && s in w.readers[r] ==> Seen(w) <= s.pos <= |w.log|)
    && (forall s :: s in w.recents ==> s.pos <= |w.log|)
  }

  /** How many changes every listing in flight has seen at least: those applied, and the one a
      follow-up is about, since no listing survived the guard that preceded it. */
  function Seen(w: World): nat {
    if w.applier.FollowingUp? then w.applied + 1 else w.applied
  }

  /** A cell is as the server had it at some point not before the last applied event. */
  ghost predicate UpToDate(w: World, c: Cell)
    requires w.applied <= |w.log| && c in w.cache
  {
    exists m: nat :: w.applied <= m <= |w.log| && w.cache[c] == At(w.log, m, c)
  }

  ghost predicate Inv(w: World) {
    && Shape(w)
    && (forall c :: c in w.cache ==> UpToDate(w, c))
    && (forall i, c :: 0 <= i < w.applied && c in w.log[i].sets ==> c in w.cache)
  }

  lemma {:induction false} AtGrows(log: seq<Change>, change: Change, n: nat, c: Cell)
    requires n <= |log|
    ensures At(log + [change], n, c) == At(log, n, c)
  {
    if n > 0 {
      AtGrows(log, change, n - 1, c);
      assert (log + [change])[n - 1] == log[n - 1];
    }
  }

  lemma ServerChangeKeepsInv(w: World, change: Change)
    requires Inv(w)
    ensures Inv(Step(w, ServerChange(change)))
  {
    var w' := Step(w, ServerChange(change));
    forall c | c in w'.cache
      ensures UpToDate(w', c)
    {
      assert UpToDate(w, c);
      var m: nat :| w.applied <= m <= |w.log| && w.cache[c] == At(w.log, m, c);
      AtGrows(w.log, change, m, c);
      assert w'.cache[c] == At(w'.log, m, c);
    }
  }

  /** Writing a snapshot that has seen every applied event. */
  lemma OverwriteKeepsInv(w: World, snapshot: Snapshot)
    requires Inv(w) && w.applied <= snapshot.pos <= |w.log|
    ensures Inv(w.(cache := Overwrite(w, snapshot)))
  {
  }

  /** Applying the next event, under the guard or after it. */
  lemma ApplyNextKeepsInv(w: World, applier: Applier)
    requires Inv(w) && (w.applier.Guarded? || w.applier.FollowingUp?)
    requires applier == (if w.applier.Guarded? then Applied else Waiting)
    ensures Inv(w.(cache := w.cache + w.log[w.applied].sets, applied := w.applied + 1,
                   applier := applier))
  {
    var w' := w.(cache := w.cache + w.log[w.applied].sets, applied := w.applied + 1, applier := applier);
    var sets := w.log[w.applied].sets;
    forall c | c in w'.cache
      ensures UpToDate(w', c)
    {
      assert At(w.log, w.applied + 1, c) == if c in sets then sets[c] else At(w.log, w.applied, c);
      if c in sets {
        assert w'.cache[c] == At(w'.log, w.applied + 1, c);
      } else {
        assert UpToDate(w, c);
        var m: nat :| w.applied <= m <= |w.log| && w.cache[c] == At(w.log, m, c);
        assert w'.cache[c] == At(w'.log, if m == w.applied then m + 1 else m, c);
      }
    }
  }

  /** Every step but an unguarded refresh of the recents keeps the invariant. */
  lemma StepKeepsInv(w: World, ev: Event)
    requires Inv(w) && !ev.ApplyRecents?
    ensures Inv(Step(w, ev))
  {
    var w' := Step(w, ev);
    if w'.log == w.log && w'.cache == w.cache && w'.applied == w.applied {
      CacheSame(w, w');
    }
    match ev
    case ServerChange(change) => ServerChangeKeepsInv(w, change);
    case Apply(r, snapshot) =>
      if r in w.readers && snapshot in w.readers[r] {
        OverwriteKeepsInv(w, snapshot);
      }
    case ApplyEvent =>
      if w.applier.Guarded? && !w.log[w.applied].followUp {
        ApplyNextKeepsInv(w, Applied);
      }
    case FollowUp =>
      if w.applier.FollowingUp? {
        ApplyNextKeepsInv(w, Waiting);
      }
    case _ =>
  }

  lemma CacheSame(w: World, w': World)
    requires Inv(w) && w'.log == w.log && w'.cache == w.cache && w'.applied == w.applied
    ensures forall c :: c in w'.cache ==> UpToDate(w', c)
  {
  }

  function Start(): World {
    World([], map[], 0, Waiting, map[], {})
  }

  function Run(w: World, events: seq<Event>): (r: World)
    requires Inv(w) && forall ev :: ev in events ==> !ev.ApplyRecents?
    ensures Inv(r)
    decreases |events|
  {
    if events == [] then w
    else
      StepKeepsInv(w, events[0]);
      Run(Step(w, events[0]), events[1..])
  }

  /** In every run whose listings hold the barrier, with any number of them in flight: no cell the
      cache holds is older than an event already applied. */
  lemma CacheNeverFallsBehind(events: seq<Event>, i: nat, c: Cell)
    requires forall ev :: ev in events ==> !ev.ApplyRecents?
    ensures Inv(Start())
    ensures var w := Run(Start(), events);
            i < w.applied && c in w.log[i].sets ==>
              c in w.cache
              && exists m: nat :: i < m <= |w.log| && w.cache[c] == At(w.log, m, c)
  {
  }

  /** With every event applied, the cache is the server on every cell it holds. */
  lemma CaughtUpCacheIsServer(w: World)
    requires Inv(w) && w.applied == |w.log|
    ensures forall c :: c in w.cache ==> w.cache[c] == At(w.log, |w.log|, c)
  {
  }

  // ---- what a listing and an event write ---------------------------------------------------

  /** A listing that may start, fetches the server as it is then and writes exactly that to the cells it
      lists, whatever the server does in between. */
  lemma ListingWritesWhatItFetched(w: World, r: Reader, scope: set<Cell>, changes: seq<Change>)
    requires Inv(w) && r !in w.readers && (w.applier.Waiting? || w.applier.FollowingUp?)
    ensures var fetched := Step(Step(w, StartListing(r)), Fetch(r, scope));
            Inv(fetched) && Inv(Changed(fetched, changes))
            && var w' := Step(Changed(fetched, changes), Apply(r, Snapshot(|w.log|, scope)));
               && w'.cache.Keys == w.cache.Keys + scope
               && forall c :: c in w'.cache ==>
                    w'.cache[c] == if c in scope then At(w.log, |w.log|, c) else w.cache[c]
    ensures var fetched := Step(Step(w, StartListing(r)), Fetch(r, scope));
            Inv(fetched) && Step(fetched, EndListing(r)) == w
  {
    var w1 := Step(w, StartListing(r));
    StepKeepsInv(w, StartListing(r));
    var w2 := Step(w1, Fetch(r, scope));
    StepKeepsInv(w1, Fetch(r, scope));
    ChangedFacts(w2, changes);
    forall c
      ensures At(Changed(w2, changes).log, |w.log|, c) == At(w.log, |w.log|, c)
    {
      AtPrefix(w.log, Changed(w2, changes).log, |w.log|, c);
    }
  }

  function Changed(w: World, changes: seq<Change>): World {
    w.(log := w.log + changes)
  }

  lemma {:induction false} ChangedFacts(w: World, changes: seq<Change>)
    requires Inv(w)
    ensures Inv(Changed(w, changes))
    decreases |changes|
  {
    if changes == [] {
      assert w.log + changes == w.log && Changed(w, changes) == w;
    } else {
      var w' := Step(w, ServerChange(changes[0]));
      StepKeepsInv(w, ServerChange(changes[0]));
      ChangedFacts(w', changes[1..]);
      assert w'.log + changes[1..] == w.log + changes;
      assert Changed(w', changes[1..]) == Changed(w, changes);
    }
  }

  lemma {:induction false} AtPrefix(log: seq<Change>, log': seq<Change>, n: nat, c: Cell)
    requires n <= |log| && log <= log'
    ensures At(log', n, c) == At(log, n, c)
  {
    if n > 0 {
      AtPrefix(log, log', n - 1, c);
    }
  }

  /** Under the guard, or after it for a permanent deletion, the next event is applied: exactly the
      cells it changes are as it says, and every other as before. */
  lemma EventIsApplied(w: World)
    requires Inv(w) && w.applier.Waiting? && w.readers == map[] && w.applied < |w.log|
    ensures var change, guarded := w.log[w.applied], Step(w, TakeGuard);
            Inv(guarded) && Inv(Step(guarded, ApplyEvent))
            && var w' := Step(Step(guarded, ApplyEvent), if change.followUp then FollowUp else ReleaseGuard);
               && w'.applier.Waiting? && w'.applied == w.applied + 1
               && w'.cache.Keys == w.cache.Keys + change.sets.Keys
               && forall c :: c in w'.cache ==>
                    w'.cache[c] == if c in change.sets then change.sets[c] else w.cache[c]
  {
    var guarded := Step(w, TakeGuard);
    StepKeepsInv(w, TakeGuard);
    StepKeepsInv(guarded, ApplyEvent);
  }

  // ---- the listing that holds no barrier ---------------------------------------------------

  /** No change brings back a value a cell had before. */
  ghost predicate NeverRepeats(log: seq<Change>) {
    forall i: nat, k: nat, j: nat, c: Cell {:trigger At(log, i, c), At(log, j, c), log[k]} ::
      i <= k < j <= |log| && c in log[k].sets ==> At(log, i, c) != At(log, j, c)
  }

  lemma {:induction false} AtUntouched(log: seq<Change>, i: nat, j: nat, c: Cell)
    requires i <= j <= |log| && forall k :: i <= k < j ==> c !in log[k].sets
    ensures At(log, i, c) == At(log, j, c)
    decreases j - i
  {
    if i < j {
      AtUntouched(log, i, j - 1, c);
    }
  }

  lemma RecentsFallBehind(w: World, snapshot: Snapshot, k: nat, c: Cell)
    requires Inv(w) && snapshot in w.recents && NeverRepeats(w.log)
    requires snapshot.pos <= k < w.applied && c in w.log[k].sets && c in snapshot.scope
    ensures !Inv(Step(w, ApplyRecents(snapshot)))
  {
    var w' := Step(w, ApplyRecents(snapshot));
    assert w'.cache[c] == At(w.log, snapshot.pos, c);
    forall m: nat | w.applied <= m <= |w.log|
      ensures w'.cache[c] != At(w.log, m, c)
    {
      assert c in w.log[k].sets;
    }
    assert !UpToDate(w', c);
  }

  /** `update_recents` fetches and applies outside the barrier. Its apply keeps the cache from
      falling behind exactly when no event applied since its fetch touched what it lists. */
  lemma RecentsKeepInvIff(w: World, snapshot: Snapshot)
    requires Inv(w) && snapshot in w.recents && NeverRepeats(w.log)
    ensures Inv(Step(w, ApplyRecents(snapshot))) <==>
            forall k :: snapshot.pos <= k < w.applied ==> w.log[k].sets.Keys !! snapshot.scope
  {
    var w' := Step(w, ApplyRecents(snapshot));
    forall k, c | snapshot.pos <= k < w.applied && c in w.log[k].sets && c in snapshot.scope
      ensures !Inv(w')
    {
      RecentsFallBehind(w, snapshot, k, c);
    }
    if forall k :: snapshot.pos <= k < w.applied ==> w.log[k].sets.Keys !! snapshot.scope {
      forall c | c in w'.cache
        ensures UpToDate(w', c)
      {
        if c !in snapshot.scope {
          assert UpToDate(w, c);
        } else if snapshot.pos < w.applied {
          AtUntouched(w.log, snapshot.pos, w.applied, c);
          assert w'.cache[c] == At(w.log, w.applied, c);
        } else {
          assert w'.cache[c] == At(w.log, snapshot.pos, c);
        }
      }
    }
  }

  /** Such a run: the recents are fetched, a rename is applied as an event, and then the fetched
      listing is written over it. */
  lemma RecentsCanRevertEvent()
    ensures var rename := Change(map[0 := Some(1)], false);
            var w := Step(Step(Step(Step(Start(), FetchRecents({0})), ServerChange(rename)), TakeGuard), ApplyEvent);
            && w.applied == 1 && w.cache[0] == Some(1)
            && var w' := Step(w, ApplyRecents(Snapshot(0, {0})));
               w'.cache[0] == None && !Inv(w')
  {
    var rename := Change(map[0 := Some(1)], false);
    var w1 := Step(Step(Start(), FetchRecents({0})), ServerChange(rename));
    assert w1.log == [rename];
    var w := Step(Step(w1, TakeGuard), ApplyEvent);
    var w' := Step(w, ApplyRecents(Snapshot(0, {0})));
    assert w'.cache[0] == None;
    assert At(w'.log, 1, 0) == Some(1);
    assert !UpToDate(w', 0);
  }
}
