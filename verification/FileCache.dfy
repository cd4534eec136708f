/** The edit, download and drain operations of `remote.rs` run to their end, file by file, over the
    steps of `UnsentEdits`; what a crash between two steps leaves is that module's business. */
module FileCache {
  import opened Prelude
  import opened UnsentEdits

  /** A file's whole-life id. */
  type Stable = nat

  /** How far a call gets before it fails. */
  datatype Fate = ImportFails | SendFails | Works

  datatype Failure = NotImported | NotReached | NotSent | NotFetched

  /** What the walk down the file's path, which every upload begins with, comes to: the server cannot
      be asked, the path no longer leads to the file, or its head and name are written to the row. */
  datatype Walk = Unreachable | Misses | Refreshes

  /** An unsent edit is the row's local copy, as after a rescue that finished. */
  predicate Rescued(s: State) {
    s.unsent.Some? ==> InPlace(s.unsent.value, s)
  }

  /** What the database and the disk show of that: no remint unresolved, no file in the row's slot
      but the one under its name. */
  lemma ResolvedIsRescued(s: State)
    requires Promise(s) && s.log == map[] && (s.row in s.slots ==> s.slots[s.row].Keys <= {s.name})
    ensures Rescued(s)
  {
    if s.unsent.Some? {
      SettledEdit(s);
    }
  }

  /** Everything about the file is on the server and in its slot. */
  predicate Delivered(s: State, bytes: Bytes) {
    !s.marked && s.unsent.None? && HeldInSlot(s) && s.slots[s.row][s.name] == bytes
  }

  function CopyOf(s: State): Bytes
    requires HasCopy(s)
  {
    s.slots[s.row][s.name]
  }

  /** Between two operations. */
  ghost predicate AtRest(s: State) {
    Shape(s) && s.op.Idle?
  }

  // ---- runs of steps -----------------------------------------------------------------------

  /** Marked, and the new bytes in the slot. */
  function Imported(s: State, bytes: Bytes): State {
    s.(marked := true, slots := Put(s.slots, s.row, s.name, bytes),
       unsent := Some(Edit(bytes, s.row, s.name)), op := Comparing)
  }

  lemma ImportSteps(s: State, bytes: Bytes)
    requires s.op.Idle?
    ensures Step(Step(s, BeginModify(bytes)), ImportDone) == Imported(s, bytes)
    ensures Step(Step(s, BeginModify(bytes)), ImportFailed) == s
  {
  }

  /** The slot is sent as a new version, recorded and unmarked, in the order of either path. */
  function Send(s: State, path: Path): State {
    var s := Step(Step(s, SendDone), MoveSlot);
    if path == Modify then Step(Step(s, Record), Clear) else Step(Step(s, Clear), Record)
  }

  /** What sending the copy comes to. Recorded under the marker, the remint is logged. */
  function SentAs(s: State, path: Path): State
    requires HasCopy(s)
  {
    var bytes := s.slots[s.row][s.name];
    State(s.next, s.name, false,
          if path == Modify && s.next != s.row then s.log[s.row := s.next] else s.log,
          (s.slots - {s.row})[s.next := map[s.name := bytes]], s.versions[s.next := bytes],
          s.hashed + {s.next}, s.next, s.name, s.next + 1, None, Idle)
  }

  lemma SendSteps(s: State, path: Path)
    requires s.op == Sending(path) && s.marked && HasCopy(s)
    ensures Rescued(s) ==> Send(s, path) == SentAs(s, path)
    ensures Send(s, path) == SentAs(s, path).(unsent := Deliver(s))
  {
    var s1 := SendStep(s);
    assert Step(s, SendDone) == s1;
    assert Step(s1, MoveSlot) == MoveStep(s1);
  }

  lemma SentIsDelivered(s: State, path: Path)
    requires Shape(s) && HasCopy(s)
    ensures AtRest(SentAs(s, path)) && Promise(SentAs(s, path))
    ensures Delivered(SentAs(s, path), s.slots[s.row][s.name])
    ensures SentAs(s, path).row == SentAs(s, path).head
  {
  }

  lemma ImportedShape(s: State, bytes: Bytes)
    requires AtRest(s)
    ensures Shape(Imported(s, bytes))
  {
    ImportSteps(s, bytes);
    StepKeepsShape(s, BeginModify(bytes));
    StepKeepsShape(Step(s, BeginModify(bytes)), ImportDone);
  }

  /** A save that gets past its import: nothing to send, an edit left behind, or a delivered one. */
  lemma ModifySteps(s: State, bytes: Bytes)
    requires AtRest(s)
    ensures var t := Imported(s, bytes);
            var c := Step(t, Compare);
            if c.op.Idle? then Settles(c, bytes)
            else AtRest(Step(c, Stop)) && Step(c, Stop) == t.(op := Idle) && Settles(Send(c, Modify), bytes)
  {
    var t := Imported(s, bytes);
    ImportedShape(s, bytes);
    CompareStep(t);
    if Step(t, Compare).op.Idle? {
      ComparedSettles(t, bytes);
    } else {
      SendEnds(t.(op := Sending(Modify)), Modify);
    }
  }

  /** However the edit stands, sending ends at rest and unmarked. */
  lemma SendEnds(s: State, path: Path)
    requires Shape(s) && s.op == Sending(path) && s.marked && HasCopy(s)
    ensures AtRest(Send(s, path)) && !Send(s, path).marked
    ensures Rescued(s) ==> Settles(Send(s, path), CopyOf(s))
  {
    SendSteps(s, path);
    SentIsDelivered(s, path);
  }

  lemma CompareStep(t: State)
    requires t.op.Comparing? && t.unsent.Some? && InPlace(t.unsent.value, t)
    ensures var c := Step(t, Compare);
            && (c.op.Idle? <==> t.row in t.hashed && HeldInSlot(t))
            && if c.op.Idle? then c == t.(marked := false, unsent := None, op := Idle)
               else c == t.(op := Sending(Modify)) && Step(c, Stop) == t.(op := Idle)
  {
  }

  lemma ComparedSettles(t: State, bytes: Bytes)
    requires Shape(t) && t.op.Comparing? && HeldInSlot(t) && t.slots[t.row][t.name] == bytes
    ensures Settles(t.(marked := false, unsent := None, op := Idle), bytes)
  {
  }

  /** At rest with the bytes delivered and every promise kept. */
  ghost predicate Settles(s: State, bytes: Bytes) {
    AtRest(s) && Promise(s) && Delivered(s, bytes)
  }

  lemma ModifyPromises(s: State, bytes: Bytes)
    requires AtRest(s) && Promise(s)
    ensures Promise(Step(Step(Imported(s, bytes), Compare), Stop))
  {
  }

  /** What `modify_file_content` makes of a file. */
  function SaveTo(s: State, bytes: Bytes, fate: Fate): State {
    var s1 := Step(s, BeginModify(bytes));
    if fate.ImportFails? then Step(s1, ImportFailed)
    else
      var s2 := Step(Step(s1, ImportDone), Compare);
      if s2.op.Idle? then s2
      else if fate.SendFails? then Step(s2, Stop)
      else Send(s2, Modify)
  }

  /** The row's version is known to have these bytes. */
  predicate Unchanged(s: State, bytes: Bytes) {
    s.row in s.hashed && s.row in s.versions && s.versions[s.row] == bytes
  }

  /** A save keeps the promise. One that fails to import leaves exactly what it found; bytes the row's
      version is known to have need no server; any other are sent, or left in a marked slot. */
  ghost predicate SavedAs(s: State, s': State, bytes: Bytes, fate: Fate) {
    && (Promise(s) ==> Promise(s'))
    && if fate.ImportFails? then s' == s
       else if Unchanged(s, bytes) then Delivered(s', bytes) && s'.head == s.head && s'.row == s.row
       else if fate.Works? then Delivered(s', bytes) && s'.head == s'.row == s.next
       else s' == Imported(s, bytes).(op := Idle)
  }

  lemma SavedExactly(s: State, bytes: Bytes, fate: Fate)
    requires AtRest(s)
    ensures AtRest(SaveTo(s, bytes, fate)) && SavedAs(s, SaveTo(s, bytes, fate), bytes, fate)
    ensures !fate.ImportFails? ==>
              (Step(Step(Step(s, BeginModify(bytes)), ImportDone), Compare).op.Idle? <==> Unchanged(s, bytes))
  {
    ImportSteps(s, bytes);
    ModifySteps(s, bytes);
    CompareStep(Imported(s, bytes));
    if Promise(s) {
      ModifyPromises(s, bytes);
    }
    if !Step(Imported(s, bytes), Compare).op.Idle? {
      SendSteps(Imported(s, bytes).(op := Sending(Modify)), Modify);
    }
  }

  /** What an upload starts with, with and without an earlier edit elsewhere. */
  lemma UploadSteps(s: State)
    requires AtRest(s)
    ensures var b := Step(s, BeginUpload);
            if b.op.Idle? then AtRest(b) && b == Unmark(s).(unsent := Deliver(s)) && HeldInSlot(s)
            else && b == s.(marked := true, op := Sending(Upload)) && Shape(b)
                 && Step(b, Stop) == s.(marked := true) && AtRest(Step(b, Stop))
                 && (Promise(s) ==> Promise(Step(b, Stop)))
  {
    StepKeepsShape(s, BeginUpload);
    if Promise(s) && !Hazard(s, BeginUpload) {
      StepKeepsPromise(s, BeginUpload);
      StepKeepsPromise(Step(s, BeginUpload), Stop);
    }
  }

  // ---- an upload and its walk --------------------------------------------------------------

  function Walked(s: State, walk: Walk): State {
    if walk.Refreshes? then Step(s, Refresh) else s
  }

  /** The walk leaves the row as it is. */
  predicate Current(s: State, walk: Walk) {
    !walk.Refreshes? || (s.head == s.row && s.title == s.name)
  }

  predicate NothingToSend(t: State) {
    t.row in t.hashed && HeldInSlot(t)
  }

  /** Whether `upload_edited_file` returns without an error, with something sent or not. */
  predicate Sends(t: State, works: bool) {
    NothingToSend(t) || (works && HasCopy(t))
  }

  /** What `upload_edited_file` makes of a file. */
  function UploadTo(t: State, works: bool): State {
    var b := Step(t, BeginUpload);
    if b.op.Idle? then b
    else if works && HasCopy(t) then Send(b, Upload)
    else Step(b, Stop)
  }

  lemma UploadToExactly(t: State, works: bool)
    requires AtRest(t)
    ensures AtRest(UploadTo(t, works))
    ensures UploadTo(t, works) ==
            if NothingToSend(t) then Unmark(t).(unsent := Deliver(t))
            else if works && HasCopy(t) then SentAs(t, Upload).(unsent := Deliver(t))
            else t.(marked := true)
  {
    UploadSteps(t);
    if works && HasCopy(t) && !NothingToSend(t) {
      SendEnds(t.(marked := true, op := Sending(Upload)), Upload);
      SendSteps(t.(marked := true, op := Sending(Upload)), Upload);
    }
  }

  /** Without a copy a marked file stays as it is. */
  lemma UploadWithoutCopy(t: State, works: bool)
    requires t.op.Idle? && t.marked && !HasCopy(t)
    ensures UploadTo(t, works) == t
  {
  }

  /** The walk brings the row to another copy than the unsent edit's, and that copy's being there or
      being sent takes the edit's marker: an earlier upload that never reached the row, or a file
      left under the name the server has. */
  predicate UploadLosesEdit(s: State, walk: Walk, works: bool) {
    && s.unsent.Some? && !Current(s, walk)
    && s.head in s.slots && s.title in s.slots[s.head] && s.head in s.versions
    && (works || (s.head in s.hashed && s.slots[s.head][s.title] == s.versions[s.head]))
  }

  lemma CurrentUpload(s: State, works: bool)
    requires AtRest(s) && Rescued(s)
    ensures Promise(s) ==> Promise(UploadTo(s, works))
    ensures Sends(s, works) ==> Delivered(UploadTo(s, works), CopyOf(s))
  {
    UploadToExactly(s, works);
    if HasCopy(s) {
      SentIsDelivered(s, Upload);
    }
  }

  lemma WalkedUpload(s: State, works: bool)
    requires AtRest(s) && Promise(s) && Rescued(s) && !Current(s, Refreshes)
    ensures Promise(UploadTo(Step(s, Refresh), works)) <==> !UploadLosesEdit(s, Refreshes, works)
  {
    var t := Step(s, Refresh);
    StepKeepsPromise(s, Refresh);
    UploadToExactly(t, works);
    if HasCopy(t) {
      SentIsDelivered(t, Upload);
    }
  }

  /** What `upload_file_if_changed` makes of a file once the walk is done: the marker goes exactly if
      it returns without an error; if the walk leaves the row as it is, that delivers the copy; and
      an edit that is the copy is kept exactly if the walk brings the row to no other copy. */
  ghost predicate Uploaded(s: State, s': State, walk: Walk, works: bool) {
    var t := Walked(s, walk);
    && (s'.marked <==> !Sends(t, works))
    && (!Sends(t, works) ==> s' == t.(marked := true))
    && (Rescued(s) && Current(s, walk) && Sends(s, works) ==> Delivered(s', CopyOf(s)))
    && (Promise(s) && Rescued(s) ==> (Promise(s') <==> !UploadLosesEdit(s, walk, works)))
  }

  lemma Overwritten(files: map<Stable, State>, f: Stable, s: State, s': State)
    ensures files[f := s][f := s'] == files[f := s'] && files[f := s][f] == s && files[f := s'][f] == s'
  {
  }

  lemma WalkedIsAtRest(s: State, walk: Walk)
    requires AtRest(s)
    ensures AtRest(Walked(s, walk))
  {
    StepKeepsShape(s, Refresh);
  }

  lemma UploadedExactly(s: State, walk: Walk, works: bool)
    requires AtRest(s)
    ensures var s' := UploadTo(Walked(s, walk), works);
            AtRest(s') && Uploaded(s, s', walk, works)
  {
    WalkedIsAtRest(s, walk);
    UploadToExactly(Walked(s, walk), works);
    if Current(s, walk) {
      assert Walked(s, walk) == s;
      if Rescued(s) {
        CurrentUpload(s, works);
      }
    } else if Promise(s) && Rescued(s) {
      WalkedUpload(s, works);
    }
  }

  /** Begun on a settled file with no other file in its slot, an upload keeps the promise whatever its
      walk brings and however it ends. */
  lemma SettledUploadKeepsPromise(s: State, walk: Walk, works: bool)
    requires AtRest(s) && Promise(s) && Settled(s)
    requires s.row in s.slots ==> s.slots[s.row].Keys <= {s.name}
    ensures Rescued(s) && !UploadLosesEdit(s, walk, works)
    ensures Promise(UploadTo(Walked(s, walk), works))
  {
    ResolvedIsRescued(s);
    UploadedExactly(s, walk, works);
    assert s.head in s.slots ==> s.head in s.slots.Keys;
    assert s.row in s.slots && s.title in s.slots[s.row] ==> s.title in s.slots[s.row].Keys;
  }

  /** A copy that needs no fetch: one with an unsent edit, and else, if the row's version has a hash,
      one with its bytes, or without, any while the row did not change. */
  predicate CurrentCopy(s: State, same: bool)
    requires s.row in s.versions
  {
    && s.row in s.slots && s.name in s.slots[s.row]
    && (s.marked || if s.row in s.hashed then s.slots[s.row][s.name] == s.versions[s.row] else same)
  }

  /** The row's version in its slot, and the marker gone. */
  function Fetched(s: State): State
    requires s.row in s.versions
  {
    s.(marked := false, slots := Put(s.slots, s.row, s.name, s.versions[s.row]))
  }

  lemma DownloadSteps(s: State, same: bool)
    requires AtRest(s)
    ensures var b := Step(s, BeginDownload(same));
            && (b.op.Idle? <==> CurrentCopy(s, same))
            && if b.op.Idle? then b == s
               else && b == s.(marked := false, op := Fetching)
                    && Step(b, Stop) == s.(marked := false)
                    && Step(b, FetchDone) == Fetched(s)
    ensures Promise(s) && Rescued(s) && s.unsent.Some? ==> Step(s, BeginDownload(same)) == s
  {
  }

  lemma FetchedShape(s: State)
    requires AtRest(s)
    ensures AtRest(s.(marked := false))
    ensures AtRest(Fetched(s)) && HeldInSlot(Fetched(s))
  {
  }

  lemma DownloadPromises(s: State, same: bool)
    requires AtRest(s) && Promise(s) && Rescued(s)
    ensures var b := Step(s, BeginDownload(same));
            Promise(b) && Promise(Step(b, Stop)) && Promise(Step(b, FetchDone))
  {
    StepKeepsPromise(s, BeginDownload(same));
    var b := Step(s, BeginDownload(same));
    StepKeepsPromise(b, FetchDone);
    StepKeepsPromise(b, Stop);
  }

  lemma DrainCheckStep(s: State)
    requires AtRest(s)
    ensures var d := Step(s, DrainCheck);
            AtRest(d) && (!HasCopy(s) ==> d == if Awaited(s) then s else s.(marked := false))
  {
    StepKeepsShape(s, DrainCheck);
  }

  // ---- the operations ----------------------------------------------------------------------

  class FileCache {
    var files: map<Stable, State>

    ghost predicate Valid()
      reads this
    {
      forall f :: f in files ==> AtRest(files[f])
    }

    constructor (files: map<Stable, State>)
      requires forall f :: f in files ==> AtRest(files[f])
      ensures Valid() && this.files == files
    {
      this.files := files;
    }

    method Store(f: Stable, s: State)
      requires Valid() && AtRest(s)
      modifies this
      ensures Valid() && files == old(files)[f := s]
    {
      files := files[f := s];
    }

    /** `modify_file_content`: mark, import, compare, send, record, clear. */
    method ModifyFileContent(f: Stable, bytes: Bytes, fate: Fate) returns (r: Result<(), Failure>)
      requires Valid() && f in files
      modifies this
      ensures Valid() && f in files && files == old(files)[f := files[f]]
      ensures SavedAs(old(files[f]), files[f], bytes, fate)
      ensures r == if fate.ImportFails? then Err(NotImported)
                   else if fate.Works? || Unchanged(old(files[f]), bytes) then Ok(())
                   else Err(NotSent)
    {
      var s := files[f];
      SavedExactly(s, bytes, fate);
      var s1 := Step(s, BeginModify(bytes));
      if fate.ImportFails? {
        Store(f, Step(s1, ImportFailed));
        return Err(NotImported);
      }
      var s2 := Step(Step(s1, ImportDone), Compare);
      if s2.op.Idle? {
        Store(f, s2);
        return Ok(());
      }
      if fate.SendFails? {
        Store(f, Step(s2, Stop));
        return Err(NotSent);
      }
      Store(f, Send(s2, Modify));
      r := Ok(());
    }

    /** `upload_edited_file`, and the row its caller writes. Without a local copy it fails. */
    method UploadEditedFile(f: Stable, works: bool) returns (r: Result<(), Failure>)
      requires Valid() && f in files
      modifies this
      ensures Valid() && f in files && files == old(files)[f := files[f]]
      ensures r.Ok? <==> Sends(old(files[f]), works)
      ensures files[f] == UploadTo(old(files[f]), works)
      ensures Uploaded(old(files[f]), files[f], Misses, works)
    {
      var s := files[f];
      UploadedExactly(s, Misses, works);
      UploadSteps(s);
      var s1 := Step(s, BeginUpload);
      if s1.op.Idle? {
        Store(f, s1);
        return Ok(());
      }
      if !works || !HasCopy(s) {
        Store(f, Step(s1, Stop));
        return Err(NotSent);
      }
      Store(f, Send(s1, Upload));
      r := Ok(());
    }

    /** `update_items_in_path`, which writes the server's record of the file to its row. */
    method WalkTo(f: Stable, walk: Walk)
      requires Valid() && f in files
      modifies this
      ensures Valid() && files == old(files)[f := Walked(old(files[f]), walk)]
    {
      WalkedIsAtRest(files[f], walk);
      if walk.Refreshes? {
        Store(f, Step(files[f], Refresh));
      }
    }

    /** `upload_file_if_changed`: the walk, then the upload. */
    method UploadFileIfChanged(f: Stable, walk: Walk, works: bool) returns (r: Result<(), Failure>)
      requires Valid() && f in files
      modifies this
      ensures Valid() && f in files && files == old(files)[f := files[f]]
      ensures walk.Unreachable? ==> r == Err(NotReached) && files == old(files)
      ensures !walk.Unreachable? ==>
                && Uploaded(old(files[f]), files[f], walk, works)
                && (r.Ok? <==> Sends(Walked(old(files[f]), walk), works))
    {
      if walk.Unreachable? {
        return Err(NotReached);
      }
      UploadedExactly(files[f], walk, works);
      Overwritten(files, f, Walked(files[f], walk), UploadTo(Walked(files[f], walk), works));
      WalkTo(f, walk);
      r := UploadEditedFile(f, works);
    }

    /** `inner_download_file_if_changed`, behind its attempt at a rescue. */
    method DownloadFileIfChanged(f: Stable, same: bool, works: bool) returns (r: Result<(), Failure>)
      requires Valid() && f in files
      modifies this
      ensures Valid() && f in files && files == old(files)[f := files[f]]
      // an unsent edit that was rescued is served as it is
      ensures Promise(old(files[f])) && Rescued(old(files[f])) ==>
                && Promise(files[f])
                && (old(files[f]).unsent.Some? ==> r.Ok? && files == old(files))
      // and anything else is what the row records, unless nothing told it apart
      ensures r.Ok? ==> HasCopy(files[f])
      ensures r.Ok? && !files[f].marked ==>
                HeldInSlot(files[f]) || (same && files[f].row !in files[f].hashed && files == old(files))
      // a current copy needs no server, and nothing else does without
      ensures if CurrentCopy(old(files[f]), same) then r.Ok? && files == old(files)
              else && r == (if works then Ok(()) else Err(NotFetched))
                   && files[f] == (if works then Fetched(old(files[f]))
                                   else old(files[f]).(marked := false))
    {
      var s := files[f];
      DownloadSteps(s, same);
      FetchedShape(s);
      if Promise(s) && Rescued(s) {
        DownloadPromises(s, same);
      }
      var s1 := Step(s, BeginDownload(same));
      if s1.op.Idle? {
        return Ok(());
      }
      if !works {
        Store(f, Step(s1, Stop));
        return Err(NotFetched);
      }
      Store(f, Step(s1, FetchDone));
      r := Ok(());
    }

    /** A turn of the drain's loop; `counted`: it takes the file for uploaded. */
    method RetryOne(f: Stable, walk: Walk, works: bool) returns (counted: bool)
      requires Valid() && f in files
      modifies this
      ensures Valid() && f in files && files == old(files)[f := files[f]]
      ensures Retried(old(files[f]), files[f], walk, works)
      ensures counted == Counts(old(files[f]), walk, works)
    {
      if !HasCopy(files[f]) {
        DrainCheckStep(files[f]);
        Store(f, Step(files[f], DrainCheck));
        return false;
      }
      var sent := UploadFileIfChanged(f, walk, works);
      counted := sent.Ok?;
    }

    /** `retry_pending_uploads`: one file failing keeps its marker and does not stop the others. */
    method RetryPendingUploads(pending: seq<Stable>, walks: Stable -> Walk, works: Stable -> bool)
      returns (uploaded: nat)
      requires Valid() && forall f :: f in pending ==> f in files
      requires forall i, j :: 0 <= i < j < |pending| ==> pending[i] != pending[j]
      modifies this
      ensures Valid() && Drained(old(files), files, pending, walks, works, uploaded)
    {
      uploaded := 0;
      for i := 0 to |pending|
        invariant Valid() && Drained(old(files), files, pending[..i], walks, works, uploaded)
      {
        NextPending(pending, i);
        ghost var before := files;
        var f := pending[i];
        var counted := RetryOne(f, walks(f), works(f));
        DrainedStep(old(files), before, files, pending[..i], f, walks, works, uploaded);
        uploaded := uploaded + if counted then 1 else 0;
      }
      WholeSlice(pending);
    }
  }

  lemma WholeSlice(pending: seq<Stable>)
    ensures pending[..|pending|] == pending
  {
  }

  /** What a drain makes of one pending file: without a copy its marker goes, unless a remint still
      leads to it; a server that cannot be asked changes nothing; else it is uploaded. */
  ghost predicate Retried(s: State, s': State, walk: Walk, works: bool) {
    if !HasCopy(s) then s' == if Awaited(s) then s else s.(marked := false)
    else if walk.Unreachable? then s' == s
    else Uploaded(s, s', walk, works)
  }

  /** What the drain counts as uploaded: an upload without an error, whatever copy the walk brought the
      row to, and with nothing to send too. */
  predicate Counts(s: State, walk: Walk, works: bool) {
    HasCopy(s) && !walk.Unreachable? && Sends(Walked(s, walk), works)
  }

  /** What a drain makes of the cache: each pending file is retried, and no other is touched. */
  ghost predicate Drained(before: map<Stable, State>, after: map<Stable, State>, pending: seq<Stable>,
                          walks: Stable -> Walk, works: Stable -> bool, uploaded: nat)
  {
    && uploaded == Count(pending, before, walks, works)
    && after.Keys == before.Keys
    && (forall f :: f in before && f !in pending ==> after[f] == before[f])
    && (forall f :: f in before && f in pending ==> Retried(before[f], after[f], walks(f), works(f)))
  }

  lemma NextPending(pending: seq<Stable>, i: nat)
    requires i < |pending|
    requires forall i, j :: 0 <= i < j < |pending| ==> pending[i] != pending[j]
    ensures pending[..i + 1] == pending[..i] + [pending[i]]
    ensures pending[i] in pending && pending[i] !in pending[..i]
  {
  }

  function Count(pending: seq<Stable>, before: map<Stable, State>, walks: Stable -> Walk,
                 works: Stable -> bool): nat
  {
    if pending == [] then 0
    else
      var f := pending[|pending| - 1];
      Count(pending[..|pending| - 1], before, walks, works) +
      if f in before && Counts(before[f], walks(f), works(f)) then 1 else 0
  }

  lemma DrainedStep(start: map<Stable, State>, before: map<Stable, State>, after: map<Stable, State>,
                    done: seq<Stable>, f: Stable, walks: Stable -> Walk, works: Stable -> bool,
                    uploaded: nat)
    requires Drained(start, before, done, walks, works, uploaded)
    requires f in before && f in after && f !in done && after == before[f := after[f]]
    requires Retried(before[f], after[f], walks(f), works(f))
    ensures Drained(start, after, done + [f], walks, works,
                    uploaded + if Counts(before[f], walks(f), works(f)) then 1 else 0)
  {
    assert (done + [f])[..|done|] == done;
  }
}
