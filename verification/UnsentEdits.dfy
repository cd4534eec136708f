/** Unsent local edits of one file: the pending marker, the cache slots, the slot-remint log and the
    operations of `remote.rs` and `io/mod.rs` that move them, one operation on the file at a time,
    each of which may stop after any of its steps. */
module UnsentEdits {
  import opened Prelude

  type Uuid = nat
  type Name = nat

  /** The content of a file; equal contents have equal hashes and no others do. */
  type Bytes = nat

  /** A directory `cache_dir/<uuid>` of the cache. Only the file under the row's current name is the
      local copy; a rename leaves the others where they are. */
  type Slot = map<Name, Bytes>

  /** An edit the cache accepted, and the slot and name it is under. */
  datatype Edit = Edit(bytes: Bytes, home: Uuid, name: Name)

  /** Which of the two edit paths is sending: they clear the marker and record the row in opposite
      orders. */
  datatype Path = Modify | Upload

  /** The step an operation is about to take. */
  datatype Op =
    | Idle
    | Importing(bytes: Bytes, wasPending: bool)
    | Comparing
    | Sending(path: Path)
    | Sent(path: Path, minted: Uuid)
    | Moved(path: Path, minted: Uuid)
    | Recorded
    | Cleared(minted: Uuid)
    | Fetching

  datatype State = State(
    row: Uuid,                   // the uuid the file's row carries
    name: Name,                  // its name there
    marked: bool,                // its pending-upload marker
    log: map<Uuid, Uuid>,        // slot_remints: retired uuid -> the uuid that replaced it
    slots: map<Uuid, Slot>,      // the cache directory
    versions: map<Uuid, Bytes>,  // every version of the file the server minted
    hashed: set<Uuid>,           // those whose metadata carries a content hash
    head: Uuid,                  // the server's current version
    title: Name,                 // and the file's name there
    next: Uuid,                  // no uuid at or above this was ever minted
    unsent: Option<Edit>,        // the last accepted edit that is neither delivered nor discarded
    op: Op)

  // ---- the remint log ----------------------------------------------------------------------

  /** Where the log leads from a slot: through every logged remint to the uuid that has none. */
  function Follow(log: map<Uuid, Uuid>, u: Uuid): Uuid
    decreases |log|
  {
    if u in log then Follow(log - {u}, log[u]) else u
  }

  /** Whether the log passes through `o` on the way from `u`. */
  predicate OnWay(log: map<Uuid, Uuid>, u: Uuid, o: Uuid)
    decreases |log|
  {
    u == o || (u in log && OnWay(log - {u}, log[u], o))
  }

  lemma {:induction false} DropOffWay(log: map<Uuid, Uuid>, u: Uuid, o: Uuid)
    requires !OnWay(log, u, o)
    ensures Follow(log - {o}, u) == Follow(log, u)
    decreases |log|
  {
    if u in log {
      DropOffWay(log - {u}, log[u], o);
      assert (log - {u}) - {o} == (log - {o}) - {u};
    }
  }

  lemma {:induction false} DropOnWay(log: map<Uuid, Uuid>, u: Uuid, o: Uuid)
    requires OnWay(log, u, o)
    ensures Follow(log - {o}, u) == o
    decreases |log|
  {
    if u != o {
      DropOnWay(log - {u}, log[u], o);
      assert (log - {u}) - {o} == (log - {o}) - {u};
    }
  }

  /** A replacement is always minted later. */
  predicate Forward(log: map<Uuid, Uuid>) {
    forall o :: o in log ==> o < log[o]
  }

  /** The log never leads to a uuid it knows was replaced, and its last link is logged. */
  lemma {:induction false} FollowEnds(log: map<Uuid, Uuid>, u: Uuid)
    requires Forward(log)
    ensures Follow(log, u) !in log
    ensures u != Follow(log, u) ==> exists o :: o in log && log[o] == Follow(log, u)
    ensures u <= Follow(log, u)
    ensures OnWay(log, u, Follow(log, u))
    decreases |log|
  {
    if u in log {
      FollowEnds(log - {u}, log[u]);
    }
  }

  lemma {:induction false} OnWayUp(log: map<Uuid, Uuid>, u: Uuid, o: Uuid)
    requires Forward(log) && OnWay(log, u, o)
    ensures u <= o
    decreases |log|
  {
    if u != o {
      OnWayUp(log - {u}, log[u], o);
    }
  }

  /** The way from a slot goes on as the way from any uuid on it. */
  lemma {:induction false} OnWayFollows(log: map<Uuid, Uuid>, u: Uuid, o: Uuid)
    requires Forward(log) && OnWay(log, u, o)
    ensures Follow(log, u) == Follow(log, o)
    decreases |log|
  {
    if u != o {
      OnWayFollows(log - {u}, log[u], o);
      OnWayUp(log - {u}, log[u], o);
      if OnWay(log, o, u) {
        OnWayUp(log, o, u);
      }
      DropOffWay(log, o, u);
    }
  }

  lemma {:induction false} ExtendWay(log: map<Uuid, Uuid>, u: Uuid, minted: Uuid)
    requires Forward(log) && minted !in log
    ensures Follow(log[Follow(log, u) := minted], u) == minted
    decreases |log|
  {
    var end := Follow(log, u);
    FollowEnds(log, u);
    if u in log {
      ExtendWay(log - {u}, log[u], minted);
      assert (log - {u})[end := minted] == log[end := minted] - {u};
    }
  }

  // ---- the steps ---------------------------------------------------------------------------

  datatype Event =
    | RemoteEdit(bytes: Bytes, hash: bool)  // another device edits the file
    | RemoteRename(name: Name)              // or renames it
    | Rename(name: Name)                    // rename_item
    | Refresh                               // a listing or walk writes the server's head to the row
    | BeginModify(bytes: Bytes)             // modify_file_content: lock, then mark
    | ImportDone                            // the new bytes land in the slot by rename
    | ImportFailed
    | Compare                               // the unchanged check of modify_file_content
    | BeginUpload                           // upload_edited_file: lock, hash check, mark
    | SendDone                              // the server minted a version for the slot's bytes
    | MoveSlot                              // ... the copy is renamed to it, its old slot removed
    | Record                                // the row is upserted to it
    | Clear                                 // the marker is dropped
    | BeginDownload(same: bool)             // the freshness check; `same`: the row did not change
    | FetchDone                             // the download lands in the slot by rename
    | Rescue(retired: Uuid, pick: Name)     // rescue_one; `pick`: the file it finds in the slot first
    | DrainCheck                            // the drain's "no local copy left" check
    | SweepOrphan(slot: Uuid)               // the identity sweep
    | Evict(slot: Uuid)                     // the size sweep
    | Release                               // a listing's probe finds the lineage gone
    | Forget                                // forget_item: the server no longer knows the file
    | Discard(trash: bool)                  // the user clears the local copy, or trashes the file
    | Stop                                  // failure, abort or crash

  /** The row has a local copy: a file in its slot, under its name. */
  predicate HasCopy(s: State) {
    s.row in s.slots && s.name in s.slots[s.row]
  }

  /** The local copy is the version the row records. */
  predicate HeldInSlot(s: State) {
    HasCopy(s) && s.row in s.versions && s.slots[s.row][s.name] == s.versions[s.row]
  }

  /** The edit is where the row looks for it. */
  predicate InPlace(e: Edit, s: State) {
    e.home == s.row && e.name == s.name
  }

  function Put(slots: map<Uuid, Slot>, u: Uuid, n: Name, bytes: Bytes): map<Uuid, Slot> {
    slots[u := (if u in slots then slots[u] else map[])[n := bytes]]
  }

  /** The local copy is on the server; if that is the unsent edit, it no longer is. */
  function Deliver(s: State): Option<Edit> {
    if s.unsent.Some? && InPlace(s.unsent.value, s) then None else s.unsent
  }

  /** A slot once `rename_single_slot_file` has given the file it found first the row's name. */
  function Arrived(slot: Slot, pick: Name, name: Name): Slot {
    if pick in slot && pick != name then (slot - {pick})[name := slot[pick]] else slot
  }

  /** A slot is handed to the next remint of its chain. */
  function HandOn(s: State, retired: Uuid, to: Uuid): State
    requires retired in s.slots
  {
    s.(slots := (s.slots - {retired})[to := s.slots[retired]], log := s.log - {retired},
       unsent := if s.unsent.Some? && s.unsent.value.home == retired
                 then Some(s.unsent.value.(home := to)) else s.unsent)
  }

  /** A slot arrives at the row, replacing the one there. */
  function Land(s: State, retired: Uuid, pick: Name): State
    requires retired in s.slots
  {
    s.(slots := (s.slots - {retired})[s.row := Arrived(s.slots[retired], pick, s.name)],
       log := s.log - {retired},
       unsent := if s.unsent.Some? && s.unsent.value.home == retired
                 then Some(Landed(s.unsent.value, s, pick)) else s.unsent)
  }

  function Landed(e: Edit, s: State, pick: Name): Edit {
    Edit(e.bytes, s.row, if e.name == pick then s.name else e.name)
  }

  /** `SlotRescue::rescue_one`; naming a file the slot does not have, the inner rename has failed. */
  function RescueOne(s: State, retired: Uuid, pick: Name): State
    requires retired in s.log
  {
    var to := s.log[retired];
    var drop := s.(log := s.log - {retired});
    if retired !in s.slots then drop
    else if to != s.row then
      if to !in s.log then drop
      else if to in s.slots then drop.(slots := s.slots - {retired})
      else HandOn(s, retired, to)
    else if to in s.slots && !s.marked then drop.(slots := s.slots - {retired})
    else Land(s, retired, pick)
  }

  /** The row adopts a version; the trigger logs the remint while the marker stands. */
  function Adopt(s: State, version: Uuid): State {
    s.(row := version,
       log := if s.marked && version != s.row then s.log[s.row := version] else s.log)
  }

  function Unmark(s: State): State {
    s.(marked := false)
  }

  /** The log still leads to the row. */
  predicate Awaited(s: State) {
    exists o :: o in s.log && s.log[o] == s.row
  }

  /** The copy is sent under the row's name. */
  function SendStep(s: State): State
    requires s.op.Sending? && HasCopy(s)
  {
    s.(versions := s.versions[s.next := s.slots[s.row][s.name]], hashed := s.hashed + {s.next},
       head := s.next, title := s.name, next := s.next + 1, unsent := Deliver(s),
       op := Sent(s.op.path, s.next))
  }

  function MoveStep(s: State): State
    requires s.op.Sent? && HasCopy(s)
  {
    s.(slots := (s.slots - {s.row})[s.op.minted := map[s.name := s.slots[s.row][s.name]]],
       op := Moved(s.op.path, s.op.minted))
  }

  function DownloadStep(s: State, same: bool): State
    requires s.op.Idle?
  {
    if !HasCopy(s) then Unmark(s).(op := Fetching)
    else if s.marked || (if s.row in s.hashed then HeldInSlot(s) else same) then s
    else s.(op := Fetching)
  }

  /** One step; an event that cannot happen in this state changes nothing. */
  function Step(s: State, ev: Event): State {
    match ev
    case RemoteEdit(bytes, hash) =>
      s.(versions := s.versions[s.next := bytes], head := s.next, next := s.next + 1,
         hashed := if hash then s.hashed + {s.next} else s.hashed)
    case RemoteRename(name) => s.(title := name)
    case Rename(name) => if s.op.Idle? then s.(name := name, title := name) else s
    case Refresh => if s.op.Idle? then Adopt(s, s.head).(name := s.title) else s
    case BeginModify(bytes) =>
      if s.op.Idle? then s.(marked := true, op := Importing(bytes, s.marked)) else s
    case ImportDone =>
      if !s.op.Importing? then s
      else s.(slots := Put(s.slots, s.row, s.name, s.op.bytes),
              unsent := Some(Edit(s.op.bytes, s.row, s.name)), op := Comparing)
    case ImportFailed =>
      if !s.op.Importing? then s
      else s.(marked := s.op.wasPending, op := Idle)
    case Compare =>
      if !s.op.Comparing? then s
      else if s.row in s.hashed && HeldInSlot(s) then Unmark(s).(unsent := Deliver(s), op := Idle)
      else s.(op := Sending(Modify))
    case BeginUpload =>
      if !s.op.Idle? then s
      else if s.row in s.hashed && HeldInSlot(s) then Unmark(s).(unsent := Deliver(s))
      else s.(marked := true, op := Sending(Upload))
    case SendDone => if s.op.Sending? && HasCopy(s) then SendStep(s) else s
    case MoveSlot => if s.op.Sent? && HasCopy(s) then MoveStep(s) else s
    case Record =>
      if s.op.Moved? && s.op.path == Modify then Adopt(s, s.op.minted).(op := Recorded)
      else if s.op.Cleared? then Adopt(s, s.op.minted).(op := Idle)
      else s
    case Clear =>
      if s.op.Recorded? then Unmark(s).(op := Idle)
      else if s.op.Moved? && s.op.path == Upload then Unmark(s).(op := Cleared(s.op.minted))
      else s
    case BeginDownload(same) => if s.op.Idle? then DownloadStep(s, same) else s
    case FetchDone =>
      if !s.op.Fetching? || s.row !in s.versions then s
      else s.(slots := Put(s.slots, s.row, s.name, s.versions[s.row]), op := Idle)
    case Rescue(retired, pick) =>
      if s.op.Idle? && retired in s.log then RescueOne(s, retired, pick) else s
    case DrainCheck => if s.op.Idle? && !HasCopy(s) && !Awaited(s) then Unmark(s) else s
    case SweepOrphan(slot) =>
      if s.op.Idle? && slot != s.row && slot !in s.log then s.(slots := s.slots - {slot}) else s
    case Evict(slot) => s.(slots := s.slots - {slot})
    case Release => if s.op.Idle? then Unmark(s) else s
    case Discard(trash) =>
      if !s.op.Idle? then s
      else s.(slots := s.slots - {s.row}, unsent := None, marked := s.marked && !trash)
    case Forget => if s.op.Idle? && !s.marked then s.(slots := s.slots - {s.row}) else s
    case Stop => s.(op := Idle)
  }

  // ---- what holds in every state -----------------------------------------------------------

  /** Every file of the slot is the version. */
  predicate AllAre(slot: Slot, bytes: Bytes) {
    forall n :: n in slot ==> slot[n] == bytes
  }

  ghost predicate Shape(s: State) {
    && s.row in s.versions && s.head in s.versions && s.row <= s.head
    && (forall u :: u in s.versions ==> u < s.next)
    && (forall u :: u in s.slots ==> u < s.next)
    && Forward(s.log)
    && (forall o :: o in s.log ==> s.log[o] <= s.row)
    // a slot of a version the row has not reached yet was sent from here: it holds exactly that
    // version, which carries its hash
    && (forall u :: u in s.slots && u > s.row ==>
          u in s.versions && u in s.hashed && AllAre(s.slots[u], s.versions[u]))
    && (s.op.Sent? ==>
          && s.row < s.op.minted && s.op.minted in s.versions && s.op.minted <= s.head
          && s.op.minted in s.hashed
          && (HasCopy(s) ==> s.slots[s.row][s.name] == s.versions[s.op.minted]))
    && (s.op.Moved? || s.op.Cleared? ==>
          && s.row < s.op.minted && s.op.minted in s.versions && s.op.minted <= s.head
          && s.row !in s.slots)
    && (s.op.Recorded? ==> s.row in s.slots ==> AllAre(s.slots[s.row], s.versions[s.row]))
  }

  lemma HandOnKeepsShape(s: State, retired: Uuid)
    requires Shape(s) && s.op.Idle? && retired in s.log && retired in s.slots
    ensures Shape(HandOn(s, retired, s.log[retired]))
  {
  }

  lemma LandKeepsShape(s: State, retired: Uuid, pick: Name)
    requires Shape(s) && s.op.Idle? && retired in s.log && retired in s.slots
    ensures Shape(Land(s, retired, pick))
  {
  }

  lemma DropKeepsShape(s: State, retired: Uuid)
    requires Shape(s) && s.op.Idle?
    ensures Shape(s.(log := s.log - {retired}))
    ensures Shape(s.(log := s.log - {retired}, slots := s.slots - {retired}))
  {
  }

  lemma RescueKeepsShape(s: State, retired: Uuid, pick: Name)
    requires Shape(s) && s.op.Idle? && retired in s.log
    ensures Shape(RescueOne(s, retired, pick))
  {
    DropKeepsShape(s, retired);
    if retired in s.slots {
      HandOnKeepsShape(s, retired);
      LandKeepsShape(s, retired, pick);
    }
  }

  lemma RowKeepsShape(s: State, ev: Event)
    requires Shape(s) && (ev.Refresh? || ev.Record?)
    ensures Shape(Step(s, ev))
  {
  }

  lemma ServerKeepsShape(s: State, ev: Event)
    requires Shape(s) && (ev.RemoteEdit? || ev.SendDone? || ev.MoveSlot?)
    ensures Shape(Step(s, ev))
  {
  }

  lemma EditKeepsShape(s: State, ev: Event)
    requires Shape(s)
    requires ev.BeginModify? || ev.ImportDone? || ev.ImportFailed? || ev.Compare? || ev.BeginUpload?
    ensures Shape(Step(s, ev))
  {
  }

  lemma SlotsKeepShape(s: State, ev: Event)
    requires Shape(s)
    requires ev.BeginDownload? || ev.FetchDone? || ev.SweepOrphan? || ev.Evict? || ev.Forget? || ev.Discard?
    ensures Shape(Step(s, ev))
  {
  }

  /** The names, the marker and the end of an operation. */
  lemma MarkKeepsShape(s: State, ev: Event)
    requires Shape(s)
    requires ev.RemoteRename? || ev.Rename? || ev.Clear? || ev.DrainCheck? || ev.Release? || ev.Stop?
    ensures Shape(Step(s, ev))
  {
  }

  lemma StepKeepsShape(s: State, ev: Event)
    requires Shape(s)
    ensures Shape(Step(s, ev))
  {
    match ev
    case Rescue(retired, pick) =>
      if s.op.Idle? && retired in s.log {
        RescueKeepsShape(s, retired, pick);
      }
    case Refresh => RowKeepsShape(s, ev);
    case Record => RowKeepsShape(s, ev);
    case RemoteEdit(_, _) => ServerKeepsShape(s, ev);
    case SendDone => ServerKeepsShape(s, ev);
    case MoveSlot => ServerKeepsShape(s, ev);
    case BeginModify(_) => EditKeepsShape(s, ev);
    case ImportDone => EditKeepsShape(s, ev);
    case ImportFailed => EditKeepsShape(s, ev);
    case Compare => EditKeepsShape(s, ev);
    case BeginUpload => EditKeepsShape(s, ev);
    case BeginDownload(_) => SlotsKeepShape(s, ev);
    case FetchDone => SlotsKeepShape(s, ev);
    case SweepOrphan(_) => SlotsKeepShape(s, ev);
    case Evict(_) => SlotsKeepShape(s, ev);
    case Forget => SlotsKeepShape(s, ev);
    case Discard(_) => SlotsKeepShape(s, ev);
    case RemoteRename(_) => MarkKeepsShape(s, ev);
    case Rename(_) => MarkKeepsShape(s, ev);
    case Clear => MarkKeepsShape(s, ev);
    case DrainCheck => MarkKeepsShape(s, ev);
    case Release => MarkKeepsShape(s, ev);
    case Stop => MarkKeepsShape(s, ev);
  }

  // ---- what the protocol promises ----------------------------------------------------------

  /** A local copy that differs from the version its row records carries the pending marker. */
  ghost predicate SlotPromise(s: State) {
    HasCopy(s) && !HeldInSlot(s) ==> s.marked
  }

  /** An accepted edit is on the server, or in a slot of a marked row that the log leads from. */
  ghost predicate EditPromise(s: State) {
    s.unsent.Some? ==>
      var e := s.unsent.value;
      && s.marked
      && e.home in s.slots && Keeps(s.slots[e.home], e)
      && Follow(s.log, e.home) == s.row
  }

  predicate Keeps(slot: Slot, e: Edit) {
    e.name in slot && slot[e.name] == e.bytes
  }

  /** What each operation relies on between its steps. */
  ghost predicate OpPromise(s: State) {
    match s.op
    case Idle => true
    case Importing(_, wasPending) =>
      && s.marked
      && (!wasPending ==> s.unsent.None? && (HasCopy(s) ==> HeldInSlot(s)))
    case Comparing => s.marked && (s.unsent.Some? ==> InPlace(s.unsent.value, s))
    case Sending(path) =>
      s.marked && (path == Modify && s.unsent.Some? ==> InPlace(s.unsent.value, s))
    case Sent(path, _) =>
      && s.marked
      && (path == Modify ==> s.unsent.None?)
      && (s.unsent.Some? ==> !InPlace(s.unsent.value, s))
    case Moved(path, minted) =>
      && s.marked
      && (path == Modify ==> s.unsent.None?)
      && (s.unsent.Some? ==> s.unsent.value.home != s.row)
    case Recorded => s.marked && s.unsent.None?
    case Cleared(_) => !s.marked
    // a download under way never has an unsent edit to overwrite
    case Fetching => !s.marked
  }

  ghost predicate Promise(s: State) {
    SlotPromise(s) && EditPromise(s) && OpPromise(s)
  }

  // ---- the steps that break it, and no others ----------------------------------------------

  /** A rescue that orphans or overwrites the unsent edit. */
  predicate RescueLosesEdit(s: State, retired: Uuid, pick: Name)
    requires retired in s.log
  {
    s.unsent.Some? &&
    var e, to := s.unsent.value, s.log[retired];
    if retired !in s.slots || (to != s.row && to in s.slots && to in s.log)
    then OnWay(s.log, e.home, retired)
    else if to != s.row then to in s.log && e.home != retired && OnWay(s.log, e.home, retired)
    // another file of its slot is given its name
    else if e.home == retired
    then pick in s.slots[retired] && pick != e.name && e.name == s.name && s.slots[retired][pick] != e.bytes
    // the older slot replaces its own
    else if e.home == to then !Keeps(Arrived(s.slots[retired], pick, s.name), e)
    else OnWay(s.log, e.home, retired)
  }

  /** A rescue that moves a superseded version into the slot of an unmarked row. */
  predicate RescueLeavesStale(s: State, retired: Uuid, pick: Name)
    requires retired in s.log
  {
    && retired in s.slots && s.log[retired] == s.row && s.row !in s.slots && !s.marked
    && s.row in s.versions
    && var slot := s.slots[retired];
       if pick in slot then slot[pick] != s.versions[s.row]
       else s.name in slot && slot[s.name] != s.versions[s.row]
  }

  /** Under this name the unmarked row would find something else than its version. */
  predicate Exposes(s: State, name: Name) {
    && !s.marked && s.row in s.slots && s.row in s.versions
    && name in s.slots[s.row] && s.slots[s.row][name] != s.versions[s.row]
  }

  predicate Hazard(s: State, ev: Event) {
    match ev
    // the size sweep takes the slot of the edit
    case Evict(slot) => s.unsent.Some? && s.unsent.value.home == slot
    // "no local copy" although the edit waits in a slot no rescue has moved yet, or under a name the
    // file no longer has
    case BeginDownload(_) => s.op.Idle? && !HasCopy(s) && s.unsent.Some?
    case DrainCheck => s.op.Idle? && !HasCopy(s) && !Awaited(s) && s.unsent.Some?
    // a file left behind under that name becomes the local copy
    case Rename(name) => s.op.Idle? && Exposes(s, name)
    case Refresh => s.op.Idle? && s.head == s.row && Exposes(s, s.title)
    // "already on the server" although that is another file than the edit's
    case BeginUpload =>
      && s.op.Idle? && s.row in s.hashed && HeldInSlot(s)
      && s.unsent.Some? && !InPlace(s.unsent.value, s)
    // the old slot is removed with the edit in it
    case MoveSlot => s.op.Sent? && HasCopy(s) && s.unsent.Some? && s.unsent.value.home == s.row
    case Clear => s.op.Moved? && s.op.path == Upload && s.unsent.Some?
    // the marker of a lineage that is gone
    case Release => s.op.Idle? && (s.unsent.Some? || (HasCopy(s) && !HeldInSlot(s)))
    case Rescue(retired, pick) =>
      s.op.Idle? && retired in s.log
      && (RescueLosesEdit(s, retired, pick) || RescueLeavesStale(s, retired, pick))
    case _ => false
  }

  lemma RescueKeepsSlots(s: State, retired: Uuid, pick: Name)
    requires Shape(s) && SlotPromise(s) && s.op.Idle? && retired in s.log
    ensures SlotPromise(RescueOne(s, retired, pick)) <==> !RescueLeavesStale(s, retired, pick)
  {
  }

  lemma {:induction false} RescueOnWay(s: State, retired: Uuid, pick: Name)
    requires Shape(s) && EditPromise(s) && retired in s.log
    requires s.unsent.Some? && OnWay(s.log, s.unsent.value.home, retired)
    ensures EditPromise(RescueOne(s, retired, pick)) <==> !RescueLosesEdit(s, retired, pick)
  {
    var home, to := s.unsent.value.home, s.log[retired];
    FollowEnds(s.log, home);
    DropOnWay(s.log, home, retired);
    OnWayFollows(s.log, home, retired);
    var rest := s.log - {retired};
    assert Follow(rest, home) == retired;
    assert Follow(rest, to) == s.row;
    assert retired != to;
  }

  lemma {:induction false} RescueOffWay(s: State, retired: Uuid, pick: Name)
    requires Shape(s) && EditPromise(s) && retired in s.log
    requires s.unsent.Some? && !OnWay(s.log, s.unsent.value.home, retired)
    ensures EditPromise(RescueOne(s, retired, pick)) <==> !RescueLosesEdit(s, retired, pick)
  {
    var home := s.unsent.value.home;
    FollowEnds(s.log, home);
    DropOffWay(s.log, home, retired);
    assert home != retired;
  }

  lemma RescuePromise(s: State, retired: Uuid, pick: Name)
    requires Shape(s) && Promise(s) && s.op.Idle? && retired in s.log
    ensures Shape(RescueOne(s, retired, pick))
    ensures Promise(RescueOne(s, retired, pick)) <==>
            !RescueLosesEdit(s, retired, pick) && !RescueLeavesStale(s, retired, pick)
  {
    RescueKeepsShape(s, retired, pick);
    RescueKeepsSlots(s, retired, pick);
    if s.unsent.Some? {
      if OnWay(s.log, s.unsent.value.home, retired) {
        RescueOnWay(s, retired, pick);
      } else {
        RescueOffWay(s, retired, pick);
      }
    }
  }

  lemma RefreshPromise(s: State)
    requires Shape(s) && Promise(s)
    ensures Promise(Step(s, Refresh)) <==> !Hazard(s, Refresh)
  {
    if s.op.Idle? && s.head != s.row && s.unsent.Some? {
      FollowEnds(s.log, s.unsent.value.home);
      ExtendWay(s.log, s.unsent.value.home, s.head);
    }
  }

  lemma SweepPromise(s: State, slot: Uuid)
    requires Shape(s) && Promise(s)
    ensures Promise(Step(s, SweepOrphan(slot)))
  {
    if s.unsent.Some? {
      FollowEnds(s.log, s.unsent.value.home);
    }
  }

  lemma DrainCheckPromise(s: State)
    requires Shape(s) && Promise(s)
    ensures Promise(Step(s, DrainCheck)) <==> !Hazard(s, DrainCheck)
  {
  }

  lemma ModifyPromise(s: State, ev: Event)
    requires Shape(s) && Promise(s)
    requires ev.BeginModify? || ev.ImportDone? || ev.ImportFailed? || ev.Compare?
    ensures Promise(Step(s, ev))
  {
    FollowEnds(s.log, s.row);
  }

  lemma UploadPromise(s: State, ev: Event)
    requires Shape(s) && Promise(s)
    requires ev.BeginUpload? || ev.SendDone? || ev.MoveSlot? || ev.Clear?
    ensures Promise(Step(s, ev)) <==> !Hazard(s, ev)
  {
    if s.unsent.Some? {
      FollowEnds(s.log, s.unsent.value.home);
    }
  }

  lemma RecordPromise(s: State)
    requires Shape(s) && Promise(s)
    ensures Promise(Step(s, Record))
  {
  }

  lemma DownloadPromise(s: State, ev: Event)
    requires Shape(s) && Promise(s)
    requires ev.BeginDownload? || ev.FetchDone?
    ensures Promise(Step(s, ev)) <==> !Hazard(s, ev)
  {
  }

  lemma OutsidePromise(s: State, ev: Event)
    requires Shape(s) && Promise(s)
    requires ev.RemoteEdit? || ev.RemoteRename? || ev.Rename? || ev.Release? || ev.Stop?
    ensures Promise(Step(s, ev)) <==> !Hazard(s, ev)
  {
  }

  lemma DropPromise(s: State, ev: Event)
    requires Shape(s) && Promise(s)
    requires ev.Evict? || ev.Forget? || ev.Discard?
    ensures Promise(Step(s, ev)) <==> !Hazard(s, ev)
  {
  }

  /** A step keeps the promise exactly when it is no hazard. */
  lemma StepKeepsPromise(s: State, ev: Event)
    requires Shape(s) && Promise(s)
    ensures Shape(Step(s, ev))
    ensures Promise(Step(s, ev)) <==> !Hazard(s, ev)
  {
    StepKeepsShape(s, ev);
    match ev
    case Rescue(retired, pick) =>
      if s.op.Idle? && retired in s.log {
        RescuePromise(s, retired, pick);
      }
    case Refresh => RefreshPromise(s);
    case DrainCheck => DrainCheckPromise(s);
    case SweepOrphan(slot) => SweepPromise(s, slot);
    case Record => RecordPromise(s);
    case BeginModify(_) => ModifyPromise(s, ev);
    case ImportDone => ModifyPromise(s, ev);
    case ImportFailed => ModifyPromise(s, ev);
    case Compare => ModifyPromise(s, ev);
    case BeginUpload => UploadPromise(s, ev);
    case SendDone => UploadPromise(s, ev);
    case MoveSlot => UploadPromise(s, ev);
    case Clear => UploadPromise(s, ev);
    case BeginDownload(_) => DownloadPromise(s, ev);
    case FetchDone => DownloadPromise(s, ev);
    case RemoteEdit(_, _) => OutsidePromise(s, ev);
    case RemoteRename(_) => OutsidePromise(s, ev);
    case Rename(_) => OutsidePromise(s, ev);
    case Evict(_) => DropPromise(s, ev);
    case Release => OutsidePromise(s, ev);
    case Forget => DropPromise(s, ev);
    case Discard(_) => DropPromise(s, ev);
    case Stop => OutsidePromise(s, ev);
  }

  // ---- whole runs --------------------------------------------------------------------------

  /** A file just listed, never opened and never edited. */
  function Listed(bytes: Bytes, hash: bool): (s: State)
    ensures Shape(s) && Promise(s)
  {
    State(0, 0, false, map[], map[], map[0 := bytes], if hash then {0} else {}, 0, 0, 1, None, Idle)
  }

  function Run(s: State, events: seq<Event>): State
    decreases |events|
  {
    if events == [] then s else Run(Step(s, events[0]), events[1..])
  }

  predicate HazardFree(s: State, events: seq<Event>)
    decreases |events|
  {
    events == [] || (!Hazard(s, events[0]) && HazardFree(Step(s, events[0]), events[1..]))
  }

  /** Over every run of operations, failures and crashes without a hazard: a local copy that differs
      from its version is marked, and an accepted edit is on the server or in a marked slot until the
      user discards or replaces it. */
  lemma {:induction false} PromiseOverRuns(s: State, events: seq<Event>)
    requires Shape(s) && Promise(s) && HazardFree(s, events)
    ensures Shape(Run(s, events)) && Promise(Run(s, events))
    decreases |events|
  {
    if events != [] {
      StepKeepsPromise(s, events[0]);
      PromiseOverRuns(Step(s, events[0]), events[1..]);
    }
  }

  /** A download writes over a copy only when the row is unmarked, so never over an unsent edit. */
  lemma DownloadSparesEdit(s: State)
    requires Shape(s) && Promise(s)
    ensures Step(s, FetchDone) != s ==> !s.marked && s.unsent.None?
    ensures Promise(Step(s, FetchDone))
  {
    StepKeepsPromise(s, FetchDone);
  }

  /** A rescue takes its remint off the log and empties its slot, unless the uuid it was replaced by is
      neither the row's nor one the log knows. */
  lemma RescueEmptiesSlot(s: State, retired: Uuid, pick: Name)
    requires Shape(s) && s.op.Idle? && retired in s.log
    ensures var to, r := s.log[retired], Step(s, Rescue(retired, pick));
            && r.log == s.log - {retired}
            && (retired !in r.slots <==> retired !in s.slots || to == s.row || to in s.log)
  {
  }

  /** Clearing a file's copy, or trashing the file, ends its edit: nothing is left to send, and the marker
      goes, with the trashing or with the next drain unless a remint still leads to the row. */
  lemma DiscardEndsEdit(s: State, trash: bool)
    requires Shape(s) && Promise(s) && s.op.Idle?
    ensures var t := Step(s, Discard(trash));
            && Promise(t) && !HasCopy(t) && t.unsent.None? && t == Step(t, Stop)
            && (t.marked <==> s.marked && !trash)
            && (Step(t, DrainCheck).marked <==> t.marked && Awaited(s))
            && forall u :: u != s.row ==> (u in t.slots <==> u in s.slots)
                                          && (u in s.slots ==> t.slots[u] == s.slots[u])
  {
  }

  /** A file the server no longer knows loses its copy, unless that may hold an edit. */
  lemma ForgetSparesEdit(s: State)
    requires Shape(s) && Promise(s) && s.op.Idle?
    ensures if s.marked then Step(s, Forget) == s
            else s.unsent.None? && !HasCopy(Step(s, Forget))
                 && Step(s, Forget).(slots := s.slots) == s
  {
  }

  // ---- what the code itself can see --------------------------------------------------------

  /** A hazard as far as the database and the disk show it, when no remint is unresolved. */
  predicate Perilous(s: State, ev: Event) {
    match ev
    case Evict(slot) => s.marked && slot == s.row && slot in s.slots
    case BeginDownload(_) => s.op.Idle? && Hidden(s)
    case DrainCheck => s.op.Idle? && Hidden(s)
    case Rename(name) => s.op.Idle? && Exposes(s, name)
    case Refresh => s.op.Idle? && s.head == s.row && Exposes(s, s.title)
    case BeginUpload => s.op.Idle? && Crowded(s)
    case MoveSlot => s.op.Sent? && Crowded(s)
    case Release => s.op.Idle? && s.marked
    case _ => false
  }

  /** A marked row whose slot has no file under its name. */
  predicate Hidden(s: State) {
    s.marked && s.row in s.slots && s.name !in s.slots[s.row]
  }

  /** A marked row whose slot has a file under another name. */
  predicate Crowded(s: State) {
    s.marked && s.row in s.slots && !(s.slots[s.row].Keys <= {s.name})
  }

  /** With every remint resolved, a hazard shows: the eviction or release of a marked row, or a file
      under another name than the row's. */
  lemma ResolvedHazardShows(s: State, ev: Event)
    requires Shape(s) && Promise(s) && s.log == map[]
    ensures Hazard(s, ev) ==> Perilous(s, ev)
  {
    if s.unsent.Some? {
      assert Follow(map[], s.unsent.value.home) == s.unsent.value.home;
      var e := s.unsent.value;
      assert e.home == s.row && e.name in s.slots[s.row].Keys;
    }
  }

  /** Every remint resolved and every orphaned slot swept: no slot but the row's own. */
  predicate Settled(s: State) {
    s.log == map[] && s.slots.Keys <= {s.row}
  }

  /** What an orderly client waits for before a step, all of it in the database or on the disk: it
      saves, uploads and downloads on settled files, or finds no copy to upload, rescues oldest first
      slots of one file, and takes nothing from a marked row. */
  predicate Orderly(s: State, ev: Event) {
    match ev
    case BeginModify(_) => Settled(s)
    case BeginUpload => (Settled(s) && !Crowded(s)) || !HasCopy(s)
    case BeginDownload(_) => Settled(s) && !Hidden(s)
    case DrainCheck => !Hidden(s)
    case Rename(name) => !Exposes(s, name)
    case Refresh => !Exposes(s, s.title)
    case Evict(slot) => !s.marked || slot !in s.slots
    case Release => !s.marked
    case Rescue(retired, pick) =>
      && (forall o :: o in s.log ==> retired <= o)
      && (retired in s.slots ==>
            && (forall m, n :: m in s.slots[retired] && n in s.slots[retired] ==> m == n)
            && (s.marked || s.row in s.slots))
    case _ => true
  }

  /** An unsent edit is in the file's only slot; the operations began on a settled file. */
  ghost predicate Lone(s: State) {
    && (s.unsent.Some? ==> s.slots.Keys == {s.unsent.value.home})
    && (s.op.Importing? ==> s.slots.Keys <= {s.row})
    && (s.op.Sending? && HasCopy(s) && s.unsent.Some? ==> InPlace(s.unsent.value, s))
    && (s.op.Sent? || s.op.Moved? ==> s.unsent.None?)
  }

  lemma OrderlyRescue(s: State, retired: Uuid, pick: Name)
    requires Shape(s) && Promise(s) && Lone(s) && s.op.Idle? && retired in s.log
    requires Orderly(s, Rescue(retired, pick))
    ensures !RescueLosesEdit(s, retired, pick) && !RescueLeavesStale(s, retired, pick)
    ensures Lone(RescueOne(s, retired, pick))
  {
    if s.unsent.Some? {
      var e := s.unsent.value;
      FollowEnds(s.log, e.home);
      if OnWay(s.log, e.home, retired) {
        OnWayUp(s.log, e.home, retired);
        assert e.home in s.log;
      }
      assert e.home in s.slots.Keys && (retired in s.slots ==> retired in s.slots.Keys);
    }
  }

  lemma OrderlyStep(s: State, ev: Event)
    requires Shape(s) && Promise(s) && Lone(s) && Orderly(s, ev)
    ensures !Hazard(s, ev) && Lone(Step(s, ev))
  {
    if ev.Rescue? {
      if s.op.Idle? && ev.retired in s.log {
        OrderlyRescue(s, ev.retired, ev.pick);
      }
    } else {
      OrderlyOtherStep(s, ev);
    }
  }

  /** Where the edit of a settled file is. */
  lemma SettledEdit(s: State)
    requires EditPromise(s) && s.unsent.Some? && s.log == map[]
    ensures s.unsent.value.home == s.row && s.row in s.slots
    ensures s.unsent.value.name in s.slots[s.row].Keys
  {
  }

  lemma OrderlyIsNoHazard(s: State, ev: Event)
    requires Shape(s) && Promise(s) && Lone(s) && Orderly(s, ev) && !ev.Rescue?
    ensures !Hazard(s, ev)
  {
    if s.unsent.Some? {
      var e := s.unsent.value;
      FollowEnds(s.log, e.home);
      assert e.home in s.slots.Keys;
      if s.log == map[] {
        SettledEdit(s);
      }
    }
  }

  lemma OrderlyEditStaysLone(s: State, ev: Event)
    requires Shape(s) && Promise(s) && Lone(s) && Orderly(s, ev)
    requires ev.BeginModify? || ev.ImportDone? || ev.Compare? || ev.BeginUpload? || ev.SendDone?
    ensures Lone(Step(s, ev))
  {
    if ev.BeginUpload? && s.unsent.Some? && s.log == map[] {
      SettledEdit(s);
    }
    if ev.ImportDone? && s.op.Importing? {
      assert Put(s.slots, s.row, s.name, s.op.bytes).Keys == s.slots.Keys + {s.row};
    }
  }

  lemma OrderlySlotsStayLone(s: State, ev: Event)
    requires Shape(s) && Promise(s) && Lone(s) && !Hazard(s, ev)
    requires ev.MoveSlot? || ev.FetchDone? || ev.SweepOrphan? || ev.Evict? || ev.Forget? || ev.Discard?
    ensures Lone(Step(s, ev))
  {
    if s.unsent.Some? {
      var home := s.unsent.value.home;
      FollowEnds(s.log, home);
      if (ev.SweepOrphan? || ev.Evict?) && ev.slot != home {
        assert (s.slots - {ev.slot}).Keys == s.slots.Keys;
      }
    }
  }

  lemma OrderlyOtherStaysLone(s: State, ev: Event)
    requires Shape(s) && Promise(s) && Lone(s) && Orderly(s, ev) && !ev.Rescue?
    requires !(ev.BeginModify? || ev.ImportDone? || ev.Compare? || ev.BeginUpload? || ev.SendDone?)
    requires !(ev.MoveSlot? || ev.FetchDone? || ev.SweepOrphan? || ev.Evict? || ev.Forget? || ev.Discard?)
    ensures Lone(Step(s, ev))
  {
  }

  lemma OrderlyOtherStep(s: State, ev: Event)
    requires Shape(s) && Promise(s) && Lone(s) && Orderly(s, ev) && !ev.Rescue?
    ensures !Hazard(s, ev) && Lone(Step(s, ev))
  {
    OrderlyIsNoHazard(s, ev);
    if ev.BeginModify? || ev.ImportDone? || ev.Compare? || ev.BeginUpload? || ev.SendDone? {
      OrderlyEditStaysLone(s, ev);
    } else if ev.MoveSlot? || ev.FetchDone? || ev.SweepOrphan? || ev.Evict? || ev.Forget? || ev.Discard? {
      OrderlySlotsStayLone(s, ev);
    } else {
      OrderlyOtherStaysLone(s, ev);
    }
  }

  predicate OrderlyRun(s: State, events: seq<Event>)
    decreases |events|
  {
    events == [] || (Orderly(s, events[0]) && OrderlyRun(Step(s, events[0]), events[1..]))
  }

  /** An orderly run has no hazard, so it keeps the promise. */
  lemma {:induction false} OrderlyRunsKeepPromise(s: State, events: seq<Event>)
    requires Shape(s) && Promise(s) && Lone(s) && OrderlyRun(s, events)
    ensures HazardFree(s, events) && Promise(Run(s, events))
    decreases |events|
  {
    if events != [] {
      OrderlyStep(s, events[0]);
      StepKeepsPromise(s, events[0]);
      OrderlyRunsKeepPromise(Step(s, events[0]), events[1..]);
    }
  }

  // ---- a rescue that finishes --------------------------------------------------------------

  lemma RescueShrinks(s: State, u: Uuid, pick: Name)
    requires u in s.log
    ensures RescueOne(s, u, pick).log == s.log - {u} && |RescueOne(s, u, pick).log| < |s.log|
  {
  }

  /** The slots from the edit's on are rescued oldest remint first, each rescue succeeding. */
  function RescueAlong(s: State, u: Uuid, pick: Name): (r: State)
    requires Shape(s) && s.op.Idle?
    ensures Shape(r) && r.op.Idle?
    decreases |s.log|
  {
    if u !in s.log then s
    else
      RescueKeepsShape(s, u, pick);
      RescueShrinks(s, u, pick);
      RescueAlong(RescueOne(s, u, pick), s.log[u], pick)
  }

  /** A rescue in log order brings the edit, through any chain of remints and whatever it was called,
      to the row's slot and name, provided no other slot on its way is occupied: an occupied one is a
      hazard whichever it is. */
  lemma {:induction false} RescueReunites(s: State)
    requires Shape(s) && Promise(s) && s.op.Idle? && s.unsent.Some? && s.unsent.value.home in s.log
    requires forall u :: u in s.slots && OnWay(s.log, s.unsent.value.home, u) ==> u == s.unsent.value.home
    ensures var r := RescueAlong(s, s.unsent.value.home, s.unsent.value.name);
            && Promise(r)
            && r.row == s.row && r.name == s.name && r.marked
            && r.unsent == Some(Edit(s.unsent.value.bytes, s.row, s.name))
            && HasCopy(r) && r.slots[s.row][s.name] == s.unsent.value.bytes
    decreases |s.log|
  {
    var e := s.unsent.value;
    var home, to := e.home, s.log[e.home];
    assert OnWay(s.log - {home}, to, to);
    assert OnWay(s.log, home, to);
    OnWayFollows(s.log, home, to);
    FollowEnds(s.log, to);
    RescuePromise(s, home, e.name);
    RescueShrinks(s, home, e.name);
    var s' := RescueOne(s, home, e.name);
    if to == s.row {
      assert RescueAlong(s', to, e.name) == s';
    } else {
      assert s'.unsent == Some(e.(home := to));
      forall u | u in s'.slots && OnWay(s'.log, to, u)
        ensures u == to
      {
        OnWayUp(s'.log, to, u);
        assert OnWay(s.log, home, u);
      }
      RescueReunites(s');
    }
  }
}
