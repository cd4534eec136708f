/** How each hazard of `UnsentEdits` comes about, and what it costs: runs from a file just listed. */
module LostEdits {
  import opened Prelude
  import opened UnsentEdits
  import FileCache

  /** The user saves `bytes`, and the upload fails: the marker and the slot are the only record. */
  function SaveUnsent(s: State, bytes: Bytes): State {
    Step(Step(Step(Step(s, BeginModify(bytes)), ImportDone), Compare), Stop)
  }

  /** Another device edits the file and a listing brings the new version to the row. */
  function EditedElsewhere(s: State, bytes: Bytes): State {
    Step(Step(s, RemoteEdit(bytes, true)), Refresh)
  }

  /** Whether anything still holds the bytes: a slot, or a version on the server. */
  predicate Exists(s: State, bytes: Bytes) {
    (exists u, n :: u in s.slots && n in s.slots[u] && s.slots[u][n] == bytes)
    || (exists u :: u in s.versions && s.versions[u] == bytes)
  }

  /** An edit whose upload failed. */
  function Saved(): State {
    State(0, 0, true, map[], map[0 := map[0 := 7]], map[0 := 5], {0}, 0, 0, 1, Some(Edit(7, 0, 0)), Idle)
  }

  /** The end of a save whose upload fails, on a row whose version is something else. */
  lemma SaveSteps(s: State, bytes: Bytes)
    requires s.op.Idle? && s.row in s.versions && s.versions[s.row] != bytes
    ensures SaveUnsent(s, bytes) ==
            s.(marked := true, slots := Put(s.slots, s.row, s.name, bytes),
               unsent := Some(Edit(bytes, s.row, s.name)))
  {
  }

  lemma EditedSteps(s: State, bytes: Bytes)
    requires s.op.Idle? && s.marked && s.next != s.row
    ensures EditedElsewhere(s, bytes) ==
            s.(versions := s.versions[s.next := bytes], head := s.next, next := s.next + 1,
               hashed := s.hashed + {s.next}, row := s.next, log := s.log[s.row := s.next],
               name := s.title)
  {
  }

  lemma SavedIsReached()
    ensures SaveUnsent(Listed(5, true), 7) == Saved() && Promise(Saved())
  {
    SaveSteps(Listed(5, true), 7);
  }

  /** An edit stranded in the slot of a version another device replaced, its remint logged. */
  function Stranded(): State {
    State(1, 0, true, map[0 := 1], map[0 := map[0 := 7]], map[0 := 5, 1 := 9], {0, 1}, 1, 0, 2,
          Some(Edit(7, 0, 0)), Idle)
  }

  lemma StrandedIsReached()
    ensures EditedElsewhere(SaveUnsent(Listed(5, true), 7), 9) == Stranded()
    ensures Promise(Stranded())
  {
    SavedIsReached();
    EditedSteps(Saved(), 9);
    assert map[0 := 1] - {0} == map[];
  }

  /** A download after a rescue that failed: it drops the marker without asking, as the drain asks,
      whether a remint is still unresolved, and the rescue that follows deletes the edit's bytes. */
  lemma DownloadCanLoseEdit()
    ensures Hazard(Stranded(), BeginDownload(false))
    ensures var r := Step(Step(Step(Stranded(), BeginDownload(false)), FetchDone), Rescue(0, 0));
            !r.marked && !Exists(r, 7)
  {
    var s1 := Stranded().(marked := false, op := Fetching);
    assert Step(Stranded(), BeginDownload(false)) == s1;
    FetchSteps(s1);
    assert Put(s1.slots, 1, 0, 9) == map[0 := map[0 := 7], 1 := map[0 := 9]];
    SupersededIsDropped(Step(s1, FetchDone), 9);
  }

  /** A rescue for an unmarked row that has a slot drops the retired one. */
  lemma SupersededIsDropped(s: State, copy: Bytes)
    requires s.op.Idle? && !s.marked && s.row == 1 && 0 in s.log && s.log[0] == 1
    requires s.slots.Keys == {0, 1} && s.slots[1] == map[0 := copy]
    ensures Step(s, Rescue(0, 0)) == s.(slots := map[1 := map[0 := copy]], log := s.log - {0})
  {
    assert s.slots - {0} == map[1 := map[0 := copy]];
  }

  lemma FetchSteps(s: State)
    requires s.op.Fetching? && s.row in s.versions
    ensures Step(s, FetchDone) == s.(slots := Put(s.slots, s.row, s.name, s.versions[s.row]), op := Idle)
  {
  }

  /** A save before the rescue ran: `modify_file_content` rescues nothing first, so the newer edit
      lands in the row's slot, and the rescue then replaces it by the older one. */
  lemma RescueCanOverwriteNewerEdit()
    ensures var s := SaveUnsent(Stranded(), 8);
            && s.unsent == Some(Edit(8, 1, 0)) && Hazard(s, Rescue(0, 0))
            && var r := Step(s, Rescue(0, 0));
               r.marked && r.slots == map[1 := map[0 := 7]] && !Exists(r, 8)
  {
    SaveSteps(Stranded(), 8);
    var slots := map[0 := map[0 := 7], 1 := map[0 := 8]];
    assert SaveUnsent(Stranded(), 8).slots == slots;
    assert (slots - {0})[1 := slots[0]] == map[1 := map[0 := 7]];
  }

  /** Two remints, the older one failing to resolve in a pass: the younger is dropped as having
      nothing to move, and then the older leads nowhere. */
  lemma RescueOutOfOrderCanLoseEdit()
    ensures var s := EditedElsewhere(Stranded(), 11);
            && Hazard(s, Rescue(1, 0))
            && var r := Step(Step(Step(Step(s, Rescue(1, 0)), Rescue(0, 0)), DrainCheck), SweepOrphan(0));
               !r.marked && !Exists(r, 7)
  {
    var s := Stranded().(row := 2, head := 2, next := 3, log := map[0 := 1, 1 := 2],
                         versions := map[0 := 5, 1 := 9, 2 := 11], hashed := {0, 1, 2});
    EditedSteps(Stranded(), 11);
    assert EditedElsewhere(Stranded(), 11) == s;
    assert OnWay(s.log - {0}, 1, 1);
    var s1 := s.(log := map[0 := 1]);
    assert s.log - {1} == map[0 := 1];
    assert Step(s, Rescue(1, 0)) == s1;
    assert s1.log - {0} == map[];
    DeadEnd(s1);
  }

  lemma DeadEnd(s1: State)
    requires s1 == Stranded().(row := 2, head := 2, next := 3, log := map[0 := 1],
                               versions := map[0 := 5, 1 := 9, 2 := 11], hashed := {0, 1, 2})
    ensures var r := Step(Step(Step(s1, Rescue(0, 0)), DrainCheck), SweepOrphan(0));
            !r.marked && !Exists(r, 7)
  {
    var s2 := s1.(log := map[]);
    assert Step(s1, Rescue(0, 0)) == s2;
    var s3 := s2.(marked := false);
    assert Step(s2, DrainCheck) == s3;
    assert Step(s3, SweepOrphan(0)) == s3.(slots := map[]);
  }

  /** What happens to the edit of a row that lost its marker: the next version of the file orphans
      its slot, and the sweep removes it. */
  lemma UnmarkedEditIsLost(s: State)
    requires s.op.Idle? && !s.marked && s.row == 0 && s.next == 1 && s.log == map[]
    requires s.slots.Keys == {0} && s.versions == map[0 := 5]
    ensures var r := Step(EditedElsewhere(s, 9), SweepOrphan(0));
            !r.marked && !Exists(r, 7)
  {
    var s1 := EditedElsewhere(s, 9);
    assert s1.row == 1 && s1.log == map[] && s1.slots == s.slots && s1.op.Idle?;
    assert s.slots - {0} == map[];
    assert Step(s1, SweepOrphan(0)).slots == map[];
    assert s1.versions == map[0 := 5, 1 := 9];
  }

  /** The size sweep does not look at markers: it may take the only copy of an edit, and the drain
      then concludes there is nothing to send. */
  lemma SizeSweepCanLoseEdit()
    ensures Hazard(Saved(), Evict(0))
    ensures var r := Step(Step(Saved(), Evict(0)), DrainCheck);
            !r.marked && !Exists(r, 7)
  {
    assert Saved().slots - {0} == map[];
    var s1 := Saved().(slots := map[]);
    assert Step(Saved(), Evict(0)) == s1;
  }

  /** A rename does not touch the slot: under the new name the drain finds no copy, no remint is
      logged either, and it drops the marker; so does a download. */
  lemma RenameCanLoseEdit()
    ensures var s := Step(Saved(), Rename(1));
            && Promise(s) && Hazard(s, DrainCheck) && Hazard(s, BeginDownload(false))
            && var r := Step(EditedElsewhere(Step(s, DrainCheck), 9), SweepOrphan(0));
               !r.marked && !Exists(r, 7)
  {
    var s := Saved().(name := 1, title := 1);
    assert Step(Saved(), Rename(1)) == s;
    UnmarkedEditIsLost(Step(s, DrainCheck));
  }

  /** The marker released with a gone directory, when the file below it lives on elsewhere. */
  lemma ReleaseCanLoseEdit()
    ensures Hazard(Saved(), Release)
    ensures var r := Step(EditedElsewhere(Step(Saved(), Release), 9), SweepOrphan(0));
            !r.marked && !Exists(r, 7)
  {
    UnmarkedEditIsLost(Step(Saved(), Release));
  }

  /** The user saves what the version holds anyway under the new name, which resolves the edit, and
      renames the file back: the abandoned bytes are the unmarked row's copy again. */
  lemma RenameCanExposeStale()
    ensures var s := Step(Step(Step(Step(Saved(), Rename(1)), BeginModify(5)), ImportDone), Compare);
            && s.unsent.None? && Hazard(s, Rename(0)) && Hazard(Step(s, RemoteRename(0)), Refresh)
            && var r := Step(s, Rename(0));
               !r.marked && HasCopy(r) && !HeldInSlot(r)
  {
    var s := Saved().(name := 1, title := 1);
    assert Step(Saved(), Rename(1)) == s;
    ResolvedSteps(s, 5);
  }

  /** The user saves what the new version holds anyway, which resolves the edit, and clears the local
      copy. The remint left in the log then moves the superseded bytes into the slot of a row that
      is no longer marked. */
  lemma RescueCanLeaveStaleSlot()
    ensures var s := Step(Step(Step(Step(Stranded(), BeginModify(9)), ImportDone), Compare), Discard(false));
            && Hazard(s, Rescue(0, 0))
            && var r := Step(s, Rescue(0, 0));
               !r.marked && HasCopy(r) && !HeldInSlot(r)
  {
    ResolvedSteps(Stranded(), 9);
    var s2 := Stranded().(slots := map[0 := map[0 := 7], 1 := map[0 := 9]], marked := false, unsent := None);
    assert Put(Stranded().slots, 1, 0, 9) == s2.slots;
    var s3 := s2.(slots := map[0 := map[0 := 7]]);
    assert s2.slots - {1} == s3.slots;
    assert Step(s2, Discard(false)) == s3;
    LandsStale(s3);
  }

  /** A save of what the row's version holds. */
  lemma ResolvedSteps(s: State, bytes: Bytes)
    requires s.op.Idle? && s.row in s.hashed && s.row in s.versions && s.versions[s.row] == bytes
    ensures Step(Step(Step(s, BeginModify(bytes)), ImportDone), Compare) ==
            s.(marked := false, slots := Put(s.slots, s.row, s.name, bytes), unsent := None)
  {
  }

  lemma LandsStale(s: State)
    requires s.op.Idle? && !s.marked && s.row == 1 && s.name == 0 && 0 in s.log && s.log[0] == 1
    requires s.slots == map[0 := map[0 := 7]] && 1 in s.versions && s.versions[1] == 9
    ensures Hazard(s, Rescue(0, 0))
    ensures var r := Step(s, Rescue(0, 0));
            !r.marked && HasCopy(r) && !HeldInSlot(r)
  {
    assert (s.slots - {0})[1 := s.slots[0]] == map[1 := map[0 := 7]];
  }

  // ---- slots with more than one file -------------------------------------------------------

  /** A copy downloaded under one name, an edit saved under the next, and a newer version. */
  function TwoFiles(name: Name): State {
    State(1, name, true, map[0 := 1], map[0 := map[0 := 5, 1 := 8]], map[0 := 5, 1 := 9], {0, 1}, 1, name, 2,
          Some(Edit(8, 0, 1)), Idle)
  }

  lemma TwoFilesIsReached(name: Name)
    ensures var copied := Step(Step(Listed(5, true), BeginDownload(false)), FetchDone);
            var saved := SaveUnsent(Step(copied, Rename(1)), 8);
            EditedElsewhere(Step(saved, RemoteRename(name)), 9) == TwoFiles(name)
  {
    var s0 := Listed(5, true).(op := Fetching);
    assert Step(Listed(5, true), BeginDownload(false)) == s0;
    FetchSteps(s0);
    var copied := Listed(5, true).(slots := map[0 := map[0 := 5]]);
    assert Step(s0, FetchDone) == copied;
    var renamed := copied.(name := 1, title := 1);
    SaveSteps(renamed, 8);
    var saved := renamed.(marked := true, slots := map[0 := map[0 := 5, 1 := 8]],
                          unsent := Some(Edit(8, 0, 1)));
    assert SaveUnsent(renamed, 8) == saved;
    EditedSteps(saved.(title := name), 9);
  }

  /** The rescue takes the first file it finds in the slot for the only one, and gives it the name
      the edit is under. */
  lemma RescueCanPickWrongFile()
    ensures Hazard(TwoFiles(1), Rescue(0, 0))
    ensures var r := Step(TwoFiles(1), Rescue(0, 0)); r.marked && !Exists(r, 8)
  {
    var slot := map[0 := 5, 1 := 8];
    assert (slot - {0})[1 := 5] == map[1 := 5];
    assert (TwoFiles(1).slots - {0})[1 := map[1 := 5]] == map[1 := map[1 := 5]];
    assert Step(TwoFiles(1), Rescue(0, 0)).slots == map[1 := map[1 := 5]];
  }

  /** Under yet another name, the wrong file becomes the local copy, is sent in the edit's stead, and
      the edit is removed with the slot. */
  lemma UploadCanRemoveHiddenEdit()
    ensures var s := Step(Step(Step(TwoFiles(2), Rescue(0, 0)), BeginUpload), SendDone);
            && s.unsent == Some(Edit(8, 1, 1)) && Hazard(s, MoveSlot)
            && !Exists(Step(s, MoveSlot), 8)
  {
    var slot := map[0 := 5, 1 := 8];
    assert (slot - {0})[2 := 5] == map[1 := 8, 2 := 5];
    var slots := map[1 := map[1 := 8, 2 := 5]];
    assert (TwoFiles(2).slots - {0})[1 := map[1 := 8, 2 := 5]] == slots;
    var s1 := TwoFiles(2).(slots := slots, log := map[], unsent := Some(Edit(8, 1, 1)));
    assert TwoFiles(2).log - {0} == map[];
    assert Step(TwoFiles(2), Rescue(0, 0)) == s1;
    HiddenEditRemoved(s1);
  }

  lemma HiddenEditRemoved(s: State)
    requires s.op.Idle? && s.row == 1 && s.name == 2 && s.next == 2 && s.unsent == Some(Edit(8, 1, 1))
    requires s.slots == map[1 := map[1 := 8, 2 := 5]] && s.versions == map[0 := 5, 1 := 9]
    ensures var t := Step(Step(s, BeginUpload), SendDone);
            && t.unsent == s.unsent && Hazard(t, MoveSlot) && !Exists(Step(t, MoveSlot), 8)
  {
    var b := s.(marked := true, op := Sending(Upload));
    assert Step(s, BeginUpload) == b;
    var t := Step(b, SendDone);
    assert t.versions == map[0 := 5, 1 := 9, 2 := 5] && t.slots == s.slots && t.op == Sent(Upload, 2);
    assert (s.slots - {1})[2 := map[2 := 5]] == map[2 := map[2 := 5]];
    assert Step(t, MoveSlot).slots == map[2 := map[2 := 5]];
  }

  // ---- an upload that stopped before its row was written -----------------------------------

  /** The first edit was sent and its slot moved, the second saved under the old uuid, and a listing
      then brought the row to the version sent. */
  function Overtaken(): State {
    State(1, 0, true, map[0 := 1], map[0 := map[0 := 8], 1 := map[0 := 7]], map[0 := 5, 1 := 7], {0, 1},
          1, 0, 2, Some(Edit(8, 0, 0)), Idle)
  }

  function SentUnrecorded(s: State): State {
    Step(Step(Step(Step(s, BeginUpload), SendDone), MoveSlot), Stop)
  }

  /** Before that listing: the newer edit is the row's own copy, and nothing is logged. */
  function Unrecorded(): State {
    Overtaken().(row := 0, log := map[])
  }

  lemma UnrecordedIsReached()
    ensures SaveUnsent(SentUnrecorded(Saved()), 8) == Unrecorded() && Promise(Unrecorded())
  {
    SentSteps(Saved());
    var s := SentUnrecorded(Saved());
    assert s.slots == map[1 := map[0 := 7]];
    SaveSteps(s, 8);
    assert Put(s.slots, 0, 0, 8) == map[0 := map[0 := 8], 1 := map[0 := 7]];
  }

  lemma OvertakenIsReached()
    ensures Step(SaveUnsent(SentUnrecorded(Saved()), 8), Refresh) == Overtaken()
  {
    UnrecordedIsReached();
  }

  lemma SentSteps(s: State)
    requires s.op.Idle? && HasCopy(s) && !HeldInSlot(s)
    ensures var bytes := s.slots[s.row][s.name];
            SentUnrecorded(s) ==
            s.(marked := true, slots := (s.slots - {s.row})[s.next := map[s.name := bytes]],
               versions := s.versions[s.next := bytes], hashed := s.hashed + {s.next}, head := s.next,
               title := s.name, next := s.next + 1, unsent := Deliver(s))
  {
    var b := s.(marked := true, op := Sending(Upload));
    assert Step(s, BeginUpload) == b;
    assert Step(b, SendDone) == SendStep(b);
    assert Step(SendStep(b), MoveSlot) == MoveStep(SendStep(b));
  }

  /** An upload there finds the row's copy on the server and drops the marker, and the rescue then
      deletes the second edit as a superseded copy. */
  lemma UploadCanLoseOvertakenEdit()
    ensures Hazard(Overtaken(), BeginUpload)
    ensures var r := Step(Step(Overtaken(), BeginUpload), Rescue(0, 0));
            !r.marked && !Exists(r, 8)
  {
    var s1 := Overtaken().(marked := false);
    assert Step(Overtaken(), BeginUpload) == s1;
    SupersededIsDropped(s1, 7);
  }

  /** The drain does both in one turn: its copy test finds the newer edit in the row's own slot, the
      walk down the path brings the row to the earlier upload, and that being on the server takes the
      marker. It even counts the file as uploaded. */
  lemma DrainCanLoseOvertakenEdit()
    ensures var s := Unrecorded();
            && Promise(s) && s.log == map[] && FileCache.Rescued(s) && HasCopy(s)
            && FileCache.UploadLosesEdit(s, FileCache.Refreshes, false)
            && FileCache.Counts(s, FileCache.Refreshes, false)
            && var t := FileCache.UploadTo(Step(s, Refresh), false);
               && !t.marked && t.unsent == Some(Edit(8, 0, 0))
               && !Exists(Step(t, Rescue(0, 0)), 8)
  {
    UnrecordedIsReached();
    assert Step(Unrecorded(), Refresh) == Overtaken();
    assert Step(Overtaken(), BeginUpload) == Overtaken().(marked := false);
    UploadCanLoseOvertakenEdit();
  }

  /** The ordinary case is harmless: another device's edit, met by the walk, leaves the unsent edit in a
      logged slot of a marked row. */
  lemma DrainMeetsRemoteEdit(works: bool)
    ensures var s := Step(Saved(), RemoteEdit(9, true));
            && HasCopy(s) && FileCache.UploadTo(Step(s, Refresh), works) == Stranded()
  {
    EditedSteps(Saved(), 9);
    assert EditedElsewhere(Saved(), 9) == Stranded();
    FileCache.UploadWithoutCopy(Stranded(), works);
  }
}
