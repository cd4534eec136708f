/** Any number of processes writing and rotating the daily logs of one directory, sharing nothing but
    the file system (`log_files.rs`). Each system call is one step; pruning is `LogPrune`. */
module LogRotation {
  import opened Prelude

  type Pid = nat
  type Inode = nat
  type Day = nat

  /** A log line; no two lines written are the same line. */
  datatype Line = Line(id: nat, len: nat)

  /** `<day>.log`, and `<day>.log.old`, `<day>.log.old1`, ... it is moved aside to. */
  datatype Name = Daily(day: Day) | Aside(day: Day, n: nat)

  /** Where a process is in `LogFile::write`. */
  datatype Pc =
    | Ready
    | Full(line: Line)
    | Claiming(line: Line, n: nat)
    | Claimed(line: Line, n: nat)
    | Unclaiming(line: Line, n: nat, gone: bool)
    | Opening(line: Line)
    | Appending(line: Line)

  datatype Proc = Proc(day: Day, handle: Inode, pc: Pc)

  /** A file some name leads to. */
  datatype File = File(name: Name, lines: seq<Line>)

  datatype World = World(
    names: map<Name, Inode>,
    files: map<Inode, File>,
    next: Inode,
    procs: map<Pid, Proc>,
    asked: map<Line, Pid>,               // lines to write, and the process asked to
    written: map<Line, (Inode, nat)>,    // lines written, and where
    claims: map<Name, Pid>)              // moved-aside names claimed, and by which process

  datatype Act =
    | Spawn(day: Day)
    | Log(line: Line)
    | StatPath(fails: bool)
    | TryClaim(fails: bool)
    | Rename(fails: bool)
    | RemoveClaim(fails: bool)
    | Open(fails: bool)
    | Append(fails: bool)
    | SwitchDay(day: Day, fails: bool)
    | Crash

  function Size(lines: seq<Line>): nat {
    if lines == [] then 0 else Size(lines[..|lines| - 1]) + lines[|lines| - 1].len
  }

  function SetPc(w: World, p: Pid, pc: Pc): World
    requires p in w.procs
  {
    w.(procs := w.procs[p := w.procs[p].(pc := pc)])
  }

  /** Opens the file at a name for appending, creating it if there is none. */
  function Opened(w: World, name: Name): (World, Inode) {
    if name in w.names then (w, w.names[name])
    else (w.(names := w.names[name := w.next], files := w.files[w.next := File(name, [])],
             next := w.next + 1),
          w.next)
  }

  /** A process starts, or goes on, with the file at its daily name open. */
  function Holding(w: World, p: Pid, q: Proc): World {
    w.(procs := w.procs[p := q])
  }

  function OpenFor(w: World, p: Pid, day: Day, pc: Pc): World {
    var (w', ino) := Opened(w, Daily(day));
    Holding(w', p, Proc(day, ino, pc))
  }

  /** A file no name leads to any more is gone. */
  function Unlinked(w: World, name: Name): World {
    if name !in w.names then w
    else w.(names := w.names - {name}, files := w.files - {w.names[name]})
  }

  /** `rename`: the file at one name moves to another, replacing the file there. */
  function Renamed(w: World, from: Name, to: Name): World
    requires from in w.names && w.names[from] in w.files
  {
    var ino := w.names[from];
    var w' := Unlinked(w, to);
    w'.(names := (w'.names - {from})[to := ino],
        files := w'.files[ino := w.files[ino].(name := to)])
  }

  predicate Oversized(w: World, ino: Inode, maxSize: nat) {
    ino in w.files && Size(w.files[ino].lines) > maxSize
  }

  /** One system call of process `p`; an action that cannot happen in this state changes nothing. */
  function Step(w: World, p: Pid, act: Act, maxSize: nat): World {
    if p !in w.procs then
      if act.Spawn? then OpenFor(w, p, act.day, Ready) else w
    else
      var q := w.procs[p];
      match act
      case Spawn(_) => w
      case Log(line) =>
        if !q.pc.Ready? || line in w.asked then w
        else SetPc(w.(asked := w.asked[line := p]), p,
                   if Oversized(w, q.handle, maxSize) then Full(line) else Appending(line))
      case StatPath(fails) =>
        if !q.pc.Full? then w
        else if fails then SetPc(w, p, Appending(q.pc.line))
        else if Daily(q.day) in w.names && Oversized(w, w.names[Daily(q.day)], maxSize)
        then SetPc(w, p, Claiming(q.pc.line, 0))
        else SetPc(w, p, Opening(q.pc.line))
      case TryClaim(fails) =>
        if !q.pc.Claiming? then w
        else if Aside(q.day, q.pc.n) in w.names then SetPc(w, p, Claiming(q.pc.line, q.pc.n + 1))
        else if fails then SetPc(w, p, Appending(q.pc.line))
        else Claim(w, p, q)
      case Rename(fails) =>
        if !q.pc.Claimed? then w
        else if fails || Daily(q.day) !in w.names || w.names[Daily(q.day)] !in w.files
        then SetPc(w, p, Unclaiming(q.pc.line, q.pc.n, !fails))
        else MoveAside(w, p, q)
      case RemoveClaim(fails) =>
        if !q.pc.Unclaiming? then w else Unclaim(w, p, q, fails)
      case Open(fails) =>
        if !q.pc.Opening? then w
        else if fails then SetPc(w, p, Appending(q.pc.line))
        else OpenFor(w, p, q.day, Appending(q.pc.line))
      case Append(fails) =>
        if !q.pc.Appending? || q.handle !in w.files then w
        else if fails then SetPc(w, p, Ready)
        else Written(w, p, q)
      case SwitchDay(day, fails) =>
        if !q.pc.Ready? || day <= q.day || fails then w else OpenFor(w, p, day, Ready)
      case Crash => w.(procs := w.procs - {p})
  }

  /** `create_new` at a free moved-aside name. */
  function Claim(w: World, p: Pid, q: Proc): World
    requires p in w.procs && q.pc.Claiming?
  {
    var name := Aside(q.day, q.pc.n);
    SetPc(Opened(w, name).0, p, Claimed(q.pc.line, q.pc.n)).(claims := w.claims[name := p])
  }

  function MoveAside(w: World, p: Pid, q: Proc): World
    requires p in w.procs && q.pc.Claimed?
    requires Daily(q.day) in w.names && w.names[Daily(q.day)] in w.files
  {
    var name := Aside(q.day, q.pc.n);
    SetPc(Renamed(w, Daily(q.day), name), p, Opening(q.pc.line)).(claims := w.claims - {name})
  }

  function Unclaim(w: World, p: Pid, q: Proc, fails: bool): World
    requires p in w.procs && q.pc.Unclaiming?
  {
    var name := Aside(q.day, q.pc.n);
    SetPc(if fails then w else Unlinked(w, name), p,
          if q.pc.gone then Opening(q.pc.line) else Appending(q.pc.line)).(claims := w.claims - {name})
  }

  function Written(w: World, p: Pid, q: Proc): World
    requires p in w.procs && q.pc.Appending? && q.handle in w.files
  {
    var f := w.files[q.handle];
    SetPc(w, p, Ready).(files := w.files[q.handle := f.(lines := f.lines + [q.pc.line])],
                        written := w.written[q.pc.line := (q.handle, |f.lines|)])
  }

  // ---- the invariant -----------------------------------------------------------------------

  /** The moved-aside name a process has claimed and not yet used or given up. */
  function ClaimOf(q: Proc): Option<Name> {
    if q.pc.Claimed? || q.pc.Unclaiming? then Some(Aside(q.day, q.pc.n)) else None
  }

  function LineOf(pc: Pc): Option<Line> {
    if pc.Ready? then None else Some(pc.line)
  }

  /** Every file has exactly the one name that leads to it. */
  ghost predicate Files(w: World) {
    && (forall n :: n in w.names ==>
          w.names[n] in w.files && w.names[n] < w.next && w.files[w.names[n]].name == n)
    && (forall i :: i in w.files ==> w.files[i].name in w.names && w.names[w.files[i].name] == i)
  }

  /** A process writes to a file that still has a name, and its claims are its own. */
  ghost predicate Held(w: World) {
    && (forall p :: p in w.procs ==> w.procs[p].handle in w.files)
    && (forall p :: p in w.procs && ClaimOf(w.procs[p]).Some? ==>
          var name := ClaimOf(w.procs[p]).value;
          && name in w.claims && w.claims[name] == p)
  }

  /** The file at a claimed name is empty, and no process writes to it. */
  ghost predicate Vacant(w: World) {
    forall name :: name in w.claims ==>
      && name.Aside? && name in w.names && w.names[name] in w.files
      && w.files[w.names[name]].lines == []
      && forall q :: q in w.procs ==> w.procs[q].handle != w.names[name]
  }

  ghost predicate Claims(w: World) {
    Held(w) && Vacant(w)
  }

  predicate WrittenAt(w: World, l: Line)
    requires l in w.written
  {
    var (i, k) := w.written[l];
    l in w.asked && i in w.files && k < |w.files[i].lines| && w.files[i].lines[k] == l
  }

  ghost predicate Lines(w: World) {
    && (forall l :: l in w.written ==> WrittenAt(w, l))
    && (forall i, k :: i in w.files && 0 <= k < |w.files[i].lines| ==>
          w.files[i].lines[k] in w.written && w.written[w.files[i].lines[k]] == (i, k))
    && (forall p :: p in w.procs && LineOf(w.procs[p].pc).Some? ==>
          var l := LineOf(w.procs[p].pc).value;
          l in w.asked && w.asked[l] == p && l !in w.written)
  }

  ghost predicate Inv(w: World) {
    Files(w) && Claims(w) && Lines(w)
  }

  lemma OpenedKeepsFiles(w: World, name: Name)
    requires Files(w)
    ensures Files(Opened(w, name).0)
  {
  }

  lemma OpenedKeepsClaims(w: World, name: Name)
    requires Files(w) && Claims(w)
    ensures Claims(Opened(w, name).0)
  {
  }

  lemma OpenedKeepsLines(w: World, name: Name)
    requires Files(w) && Lines(w)
    ensures Lines(Opened(w, name).0)
  {
  }

  lemma HoldingKeepsClaims(w: World, p: Pid, q: Proc)
    requires Files(w) && Claims(w) && ClaimOf(q).None?
    requires Daily(q.day) in w.names && w.names[Daily(q.day)] == q.handle
    ensures Claims(Holding(w, p, q))
  {
  }

  lemma HoldingKeepsLines(w: World, p: Pid, q: Proc)
    requires Lines(w)
    requires if p in w.procs then LineOf(q.pc) == LineOf(w.procs[p].pc) else q.pc.Ready?
    ensures Lines(Holding(w, p, q))
  {
  }

  lemma ClaimKeepsFiles(w: World, p: Pid)
    requires Files(w) && Claims(w)
    requires p in w.procs && w.procs[p].pc.Claiming?
    requires Aside(w.procs[p].day, w.procs[p].pc.n) !in w.names
    ensures Files(Claim(w, p, w.procs[p]))
  {
  }

  lemma ClaimKeepsHeld(w: World, p: Pid)
    requires Files(w) && Claims(w)
    requires p in w.procs && w.procs[p].pc.Claiming?
    requires Aside(w.procs[p].day, w.procs[p].pc.n) !in w.names
    ensures Held(Claim(w, p, w.procs[p]))
  {
  }

  lemma ClaimKeepsVacant(w: World, p: Pid)
    requires Files(w) && Claims(w)
    requires p in w.procs && w.procs[p].pc.Claiming?
    requires Aside(w.procs[p].day, w.procs[p].pc.n) !in w.names
    ensures Vacant(Claim(w, p, w.procs[p]))
  {
  }

  lemma ClaimKeepsLines(w: World, p: Pid)
    requires Inv(w)
    requires p in w.procs && w.procs[p].pc.Claiming?
    requires Aside(w.procs[p].day, w.procs[p].pc.n) !in w.names
    ensures Lines(Claim(w, p, w.procs[p]))
  {
  }

  lemma MoveAsideKeepsFiles(w: World, p: Pid)
    requires Files(w) && Claims(w)
    requires p in w.procs && w.procs[p].pc.Claimed? && Daily(w.procs[p].day) in w.names
    ensures Files(MoveAside(w, p, w.procs[p]))
  {
  }

  lemma MoveAsideKeepsHeld(w: World, p: Pid)
    requires Files(w) && Claims(w)
    requires p in w.procs && w.procs[p].pc.Claimed? && Daily(w.procs[p].day) in w.names
    ensures Held(MoveAside(w, p, w.procs[p]))
  {
  }

  lemma MoveAsideKeepsVacant(w: World, p: Pid)
    requires Files(w) && Claims(w)
    requires p in w.procs && w.procs[p].pc.Claimed? && Daily(w.procs[p].day) in w.names
    ensures Vacant(MoveAside(w, p, w.procs[p]))
  {
  }

  lemma MoveAsideKeepsLines(w: World, p: Pid)
    requires Inv(w)
    requires p in w.procs && w.procs[p].pc.Claimed? && Daily(w.procs[p].day) in w.names
    ensures Lines(MoveAside(w, p, w.procs[p]))
  {
    var w' := MoveAside(w, p, w.procs[p]);
    var name := Aside(w.procs[p].day, w.procs[p].pc.n);
    assert ClaimOf(w.procs[p]) == Some(name);
    assert name in w.claims && w.files[w.names[name]].lines == [];
    forall l | l in w'.written
      ensures WrittenAt(w', l)
    {
      assert WrittenAt(w, l);
      var (i, k) := w.written[l];
      assert i in w.files && i != w.names[name];
      assert w'.written[l] == (i, k) && i in w'.files && w'.files[i].lines == w.files[i].lines;
    }
  }

  lemma UnclaimKeepsFiles(w: World, p: Pid, fails: bool)
    requires Files(w) && Claims(w)
    requires p in w.procs && w.procs[p].pc.Unclaiming?
    ensures Files(Unclaim(w, p, w.procs[p], fails))
  {
  }

  lemma UnclaimKeepsHeld(w: World, p: Pid, fails: bool)
    requires Files(w) && Claims(w)
    requires p in w.procs && w.procs[p].pc.Unclaiming?
    ensures Held(Unclaim(w, p, w.procs[p], fails))
  {
  }

  lemma UnclaimKeepsVacant(w: World, p: Pid, fails: bool)
    requires Files(w) && Claims(w)
    requires p in w.procs && w.procs[p].pc.Unclaiming?
    ensures Vacant(Unclaim(w, p, w.procs[p], fails))
  {
  }

  lemma UnclaimKeepsLines(w: World, p: Pid, fails: bool)
    requires Inv(w)
    requires p in w.procs && w.procs[p].pc.Unclaiming?
    ensures Lines(Unclaim(w, p, w.procs[p], fails))
  {
    var w' := Unclaim(w, p, w.procs[p], fails);
    var name := Aside(w.procs[p].day, w.procs[p].pc.n);
    assert ClaimOf(w.procs[p]) == Some(name);
    assert name in w.claims && w.files[w.names[name]].lines == [];
    forall l | l in w'.written
      ensures WrittenAt(w', l)
    {
      assert WrittenAt(w, l);
      var (i, k) := w.written[l];
      assert i in w.files && i != w.names[name];
      assert w'.written[l] == (i, k) && i in w'.files && w'.files[i].lines == w.files[i].lines;
    }
  }

  lemma WrittenKeepsFiles(w: World, p: Pid)
    requires Files(w) && Claims(w)
    requires p in w.procs && w.procs[p].pc.Appending?
    ensures Files(Written(w, p, w.procs[p]))
  {
  }

  lemma WrittenKeepsClaims(w: World, p: Pid)
    requires Files(w) && Claims(w)
    requires p in w.procs && w.procs[p].pc.Appending?
    ensures Claims(Written(w, p, w.procs[p]))
  {
  }

  lemma WrittenKeepsLines(w: World, p: Pid)
    requires Inv(w)
    requires p in w.procs && w.procs[p].pc.Appending?
    ensures Lines(Written(w, p, w.procs[p]))
  {
    var q := w.procs[p];
    var l, lines := q.pc.line, w.files[q.handle].lines;
    var w' := Written(w, p, q);
    assert LineOf(q.pc) == Some(l);
    forall i, k | i in w'.files && 0 <= k < |w'.files[i].lines|
      ensures w'.files[i].lines[k] in w'.written && w'.written[w'.files[i].lines[k]] == (i, k)
    {
      if i != q.handle || k < |lines| {
        assert w'.files[i].lines[k] == w.files[i].lines[k];
      }
    }
    forall m | m in w'.written
      ensures WrittenAt(w', m)
    {
      if m != l {
        assert WrittenAt(w, m);
      }
    }
  }

  lemma OpenForKeepsInv(w: World, p: Pid, day: Day, pc: Pc)
    requires Inv(w)
    requires if p in w.procs then LineOf(pc) == LineOf(w.procs[p].pc) else pc.Ready?
    requires !pc.Claimed? && !pc.Unclaiming?
    ensures Inv(OpenFor(w, p, day, pc))
  {
    var name := Daily(day);
    OpenedKeepsFiles(w, name);
    OpenedKeepsClaims(w, name);
    OpenedKeepsLines(w, name);
    var (w', ino) := Opened(w, name);
    HoldingKeepsClaims(w', p, Proc(day, ino, pc));
    HoldingKeepsLines(w', p, Proc(day, ino, pc));
  }

  lemma UnclaimKeepsInv(w: World, p: Pid, fails: bool)
    requires Inv(w)
    requires p in w.procs && w.procs[p].pc.Unclaiming?
    ensures Inv(Unclaim(w, p, w.procs[p], fails))
  {
    UnclaimKeepsFiles(w, p, fails);
    UnclaimKeepsHeld(w, p, fails);
    UnclaimKeepsVacant(w, p, fails);
    UnclaimKeepsLines(w, p, fails);
  }

  /** A step that only moves a process on, with the same line and the same claim or none new. */
  lemma SetPcKeepsInv(w: World, p: Pid, pc: Pc)
    requires Inv(w) && p in w.procs
    requires pc.Ready? || LineOf(pc) == LineOf(w.procs[p].pc)
    requires ClaimOf(w.procs[p].(pc := pc)).None? ||
             ClaimOf(w.procs[p].(pc := pc)) == ClaimOf(w.procs[p])
    ensures Inv(SetPc(w, p, pc))
  {
  }

  lemma LogKeepsInv(w: World, p: Pid, line: Line, pc: Pc)
    requires Inv(w) && p in w.procs && w.procs[p].pc.Ready? && line !in w.asked
    requires pc == Full(line) || pc == Appending(line)
    ensures Inv(SetPc(w.(asked := w.asked[line := p]), p, pc))
  {
    LogKeepsClaims(w, p, line, pc);
    LogKeepsLines(w, p, line, pc);
  }

  lemma LogKeepsClaims(w: World, p: Pid, line: Line, pc: Pc)
    requires Files(w) && Claims(w) && p in w.procs && w.procs[p].pc.Ready?
    requires pc == Full(line) || pc == Appending(line)
    ensures var w' := SetPc(w.(asked := w.asked[line := p]), p, pc);
            Files(w') && Claims(w')
  {
  }

  lemma LogKeepsLines(w: World, p: Pid, line: Line, pc: Pc)
    requires Lines(w) && p in w.procs && line !in w.asked
    requires pc == Full(line) || pc == Appending(line)
    ensures Lines(SetPc(w.(asked := w.asked[line := p]), p, pc))
  {
  }

  lemma TryClaimKeepsInv(w: World, p: Pid, fails: bool, maxSize: nat)
    requires Inv(w) && p in w.procs && w.procs[p].pc.Claiming?
    ensures Inv(Step(w, p, TryClaim(fails), maxSize))
  {
    var q := w.procs[p];
    var w' := Step(w, p, TryClaim(fails), maxSize);
    if Aside(q.day, q.pc.n) !in w.names && !fails {
      assert w' == Claim(w, p, q);
      ClaimKeepsFiles(w, p);
      ClaimKeepsHeld(w, p);
      ClaimKeepsVacant(w, p);
      ClaimKeepsLines(w, p);
    } else {
      var pc := if fails && Aside(q.day, q.pc.n) !in w.names then Appending(q.pc.line)
                else Claiming(q.pc.line, q.pc.n + 1);
      assert w' == SetPc(w, p, pc);
      SetPcKeepsInv(w, p, pc);
    }
  }

  lemma RenameKeepsInv(w: World, p: Pid, fails: bool, maxSize: nat)
    requires Inv(w) && p in w.procs && w.procs[p].pc.Claimed?
    ensures Inv(Step(w, p, Rename(fails), maxSize))
  {
    var q := w.procs[p];
    var w' := Step(w, p, Rename(fails), maxSize);
    if fails || Daily(q.day) !in w.names {
      assert w' == SetPc(w, p, Unclaiming(q.pc.line, q.pc.n, !fails));
      SetPcKeepsInv(w, p, Unclaiming(q.pc.line, q.pc.n, !fails));
    } else {
      assert w' == MoveAside(w, p, q);
      MoveAsideKeepsFiles(w, p);
      MoveAsideKeepsHeld(w, p);
      MoveAsideKeepsVacant(w, p);
      MoveAsideKeepsLines(w, p);
    }
  }

  lemma StatPathKeepsInv(w: World, p: Pid, fails: bool, maxSize: nat)
    requires Inv(w) && p in w.procs && w.procs[p].pc.Full?
    ensures Inv(Step(w, p, StatPath(fails), maxSize))
  {
    var w' := Step(w, p, StatPath(fails), maxSize);
    assert w' == SetPc(w, p, w'.procs[p].pc);
    SetPcKeepsInv(w, p, w'.procs[p].pc);
  }

  lemma OpenKeepsInv(w: World, p: Pid, fails: bool, maxSize: nat)
    requires Inv(w) && p in w.procs && w.procs[p].pc.Opening?
    ensures Inv(Step(w, p, Open(fails), maxSize))
  {
    var q := w.procs[p];
    var w' := Step(w, p, Open(fails), maxSize);
    if fails {
      assert w' == SetPc(w, p, Appending(q.pc.line));
      SetPcKeepsInv(w, p, Appending(q.pc.line));
    } else {
      assert w' == OpenFor(w, p, q.day, Appending(q.pc.line));
      OpenForKeepsInv(w, p, q.day, Appending(q.pc.line));
    }
  }

  lemma AppendKeepsInv(w: World, p: Pid, fails: bool, maxSize: nat)
    requires Inv(w) && p in w.procs && w.procs[p].pc.Appending?
    ensures Inv(Step(w, p, Append(fails), maxSize))
  {
    var w' := Step(w, p, Append(fails), maxSize);
    if fails {
      assert w' == SetPc(w, p, Ready);
      SetPcKeepsInv(w, p, Ready);
    } else {
      assert w' == Written(w, p, w.procs[p]);
      WrittenKeepsFiles(w, p);
      WrittenKeepsClaims(w, p);
      WrittenKeepsLines(w, p);
    }
  }

  lemma CrashKeepsInv(w: World, p: Pid)
    requires Inv(w)
    ensures Inv(w.(procs := w.procs - {p}))
  {
  }

  lemma StepKeepsInv(w: World, p: Pid, act: Act, maxSize: nat)
    requires Inv(w)
    ensures Inv(Step(w, p, act, maxSize))
  {
    if p !in w.procs {
      if act.Spawn? {
        OpenForKeepsInv(w, p, act.day, Ready);
      }
    } else {
      ProcessStepKeepsInv(w, p, act, maxSize);
    }
  }

  lemma ProcessStepKeepsInv(w: World, p: Pid, act: Act, maxSize: nat)
    requires Inv(w) && p in w.procs
    ensures Inv(Step(w, p, act, maxSize))
  {
    var q := w.procs[p];
    match act
    case Spawn(_) =>
    case Log(line) =>
      if q.pc.Ready? && line !in w.asked {
        LogKeepsInv(w, p, line,
                    if Oversized(w, q.handle, maxSize) then Full(line) else Appending(line));
      }
    case SwitchDay(day, fails) =>
      if q.pc.Ready? && day > q.day && !fails {
        OpenForKeepsInv(w, p, day, Ready);
      }
    case Crash => CrashKeepsInv(w, p);
    case _ => RotationStepKeepsInv(w, p, act, maxSize);
  }

  lemma RotationStepKeepsInv(w: World, p: Pid, act: Act, maxSize: nat)
    requires Inv(w) && p in w.procs
    requires !act.Spawn? && !act.Log? && !act.SwitchDay? && !act.Crash?
    ensures Inv(Step(w, p, act, maxSize))
  {
    var q := w.procs[p];
    match act
    case StatPath(fails) =>
      if q.pc.Full? {
        StatPathKeepsInv(w, p, fails, maxSize);
      }
    case TryClaim(fails) =>
      if q.pc.Claiming? {
        TryClaimKeepsInv(w, p, fails, maxSize);
      }
    case Rename(fails) =>
      if q.pc.Claimed? {
        RenameKeepsInv(w, p, fails, maxSize);
      }
    case RemoveClaim(fails) =>
      if q.pc.Unclaiming? {
        UnclaimKeepsInv(w, p, fails);
      }
    case Open(fails) =>
      if q.pc.Opening? {
        OpenKeepsInv(w, p, fails, maxSize);
      }
    case Append(fails) =>
      if q.pc.Appending? {
        AppendKeepsInv(w, p, fails, maxSize);
      }
  }

  // ---- whole runs --------------------------------------------------------------------------

  function Start(): World {
    World(map[], map[], 0, map[], map[], map[], map[])
  }

  function Run(w: World, steps: seq<(Pid, Act)>, maxSize: nat): (r: World)
    requires Inv(w)
    ensures Inv(r)
    decreases |steps|
  {
    if steps == [] then w
    else
      StepKeepsInv(w, steps[0].0, steps[0].1, maxSize);
      Run(Step(w, steps[0].0, steps[0].1, maxSize), steps[1..], maxSize)
  }

  /** How often a line stands in a file. */
  predicate StandsAt(w: World, name: Name, k: nat, line: Line) {
    && name in w.names && w.names[name] in w.files
    && k < |w.files[w.names[name]].lines| && w.files[w.names[name]].lines[k] == line
  }

  /** In every interleaving of any number of processes, with calls failing and processes dying
      anywhere: a written line stands in exactly one file that still has a name, exactly once. */
  lemma EveryLineInOneFile(steps: seq<(Pid, Act)>, maxSize: nat, line: Line)
    ensures Inv(Start())
    ensures var w := Run(Start(), steps, maxSize);
            line in w.written ==>
              exists name, k :: StandsAt(w, name, k, line) &&
                forall name', k' :: StandsAt(w, name', k', line) ==> name' == name && k' == k
  {
    var w := Run(Start(), steps, maxSize);
    if line in w.written {
      assert WrittenAt(w, line);
      var (i, k) := w.written[line];
      var name := w.files[i].name;
      assert StandsAt(w, name, k, line);
      forall name', k': nat | StandsAt(w, name', k', line)
        ensures name' == name && k' == k
      {
        assert w.written[w.files[w.names[name']].lines[k']] == (w.names[name'], k');
      }
    }
  }

  /** Two processes never hold a claim on the same moved-aside name. */
  lemma ClaimsAreExclusive(steps: seq<(Pid, Act)>, maxSize: nat, p: Pid, q: Pid)
    ensures Inv(Start())
    ensures var w := Run(Start(), steps, maxSize);
            (p in w.procs && q in w.procs && ClaimOf(w.procs[p]).Some?
             && ClaimOf(w.procs[p]) == ClaimOf(w.procs[q])) ==> p == q
  {
  }

  /** A rename replaces nothing but the empty file its own process created to claim the name, and
      keeps the moved file's lines. */
  lemma RenameReplacesEmptyClaim(w: World, p: Pid, maxSize: nat)
    requires Inv(w) && p in w.procs && w.procs[p].pc.Claimed? && Daily(w.procs[p].day) in w.names
    ensures var q := w.procs[p];
            var from, to := Daily(q.day), Aside(q.day, q.pc.n);
            var w' := Step(w, p, Rename(false), maxSize);
            && to in w.names && w.files[w.names[to]].lines == [] && w.claims[to] == p
            && from !in w'.names && to in w'.names && w'.names[to] == w.names[from]
            && w'.files[w'.names[to]].lines == w.files[w.names[from]].lines
            && forall n :: n != from && n != to ==>
                 (n in w'.names <==> n in w.names) && (n in w.names ==> w'.names[n] == w.names[n])
  {
  }

  /** No step shortens a file that holds a line, or takes its last name away. */
  lemma FilesOnlyGrow(w: World, p: Pid, act: Act, maxSize: nat, i: Inode)
    requires Inv(w) && i in w.files && w.files[i].lines != []
    ensures var w' := Step(w, p, act, maxSize);
            i in w'.files && w.files[i].lines <= w'.files[i].lines
  {
    if act.Rename? || act.RemoveClaim? {
      UnlinkingKeepsLinesOf(w, p, act, maxSize, i);
    } else {
      OtherStepKeepsLinesOf(w, p, act, maxSize, i);
    }
  }

  lemma UnlinkingKeepsLinesOf(w: World, p: Pid, act: Act, maxSize: nat, i: Inode)
    requires Files(w) && Claims(w) && i in w.files && w.files[i].lines != []
    requires act.Rename? || act.RemoveClaim?
    ensures var w' := Step(w, p, act, maxSize);
            i in w'.files && w'.files[i].lines == w.files[i].lines
  {
    if p in w.procs {
      var q := w.procs[p];
      if act.Rename? && q.pc.Claimed? && Daily(q.day) in w.names {
        MoveAsideKeepsLinesOf(w, p, i);
      } else if act.RemoveClaim? && q.pc.Unclaiming? {
        UnclaimKeepsLinesOf(w, p, act.fails, i);
      }
    }
  }

  lemma OtherStepKeepsLinesOf(w: World, p: Pid, act: Act, maxSize: nat, i: Inode)
    requires Files(w) && i in w.files && !act.Rename? && !act.RemoveClaim?
    ensures var w' := Step(w, p, act, maxSize);
            i in w'.files && w.files[i].lines <= w'.files[i].lines
  {
    assert i < w.next;
    OtherStepOnlyAdds(w, p, act, maxSize, i);
  }

  lemma OtherStepOnlyAdds(w: World, p: Pid, act: Act, maxSize: nat, i: Inode)
    requires i in w.files && i < w.next && !act.Rename? && !act.RemoveClaim?
    ensures var w' := Step(w, p, act, maxSize);
            i in w'.files && w.files[i].lines <= w'.files[i].lines
  {
  }

  lemma MoveAsideKeepsLinesOf(w: World, p: Pid, i: Inode)
    requires Files(w) && Claims(w) && i in w.files && w.files[i].lines != []
    requires p in w.procs && w.procs[p].pc.Claimed? && Daily(w.procs[p].day) in w.names
    ensures var w' := MoveAside(w, p, w.procs[p]);
            i in w'.files && w'.files[i].lines == w.files[i].lines
  {
  }

  lemma UnclaimKeepsLinesOf(w: World, p: Pid, fails: bool, i: Inode)
    requires Files(w) && Claims(w) && i in w.files && w.files[i].lines != []
    requires p in w.procs && w.procs[p].pc.Unclaiming?
    ensures var w' := Unclaim(w, p, w.procs[p], fails);
            i in w'.files && w'.files[i].lines == w.files[i].lines
  {
  }

  // ---- where a line lands ------------------------------------------------------------------

  /** The bytes of a file are those of its lines. */
  lemma {:induction false} SizeAdds(a: seq<Line>, b: seq<Line>)
    ensures Size(a + b) == Size(a) + Size(b)
    ensures |a| == 1 ==> Size(a) == a[0].len
  {
    if b == [] {
      assert a + b == a;
    } else {
      var init := b[..|b| - 1];
      SizeAdds(a, init);
      assert (a + b)[..|a + b| - 1] == a + init;
    }
    if |a| == 1 {
      assert Size(a[..0]) == 0;
    }
  }

  /** The steps of one process, with no other between them and none failing. */
  function Alone(w: World, p: Pid, acts: seq<Act>, maxSize: nat): World
    decreases |acts|
  {
    if acts == [] then w else Alone(Step(w, p, acts[0], maxSize), p, acts[1..], maxSize)
  }

  /** They are a run. */
  lemma {:induction false} AloneIsRun(w: World, p: Pid, acts: seq<Act>, maxSize: nat)
    requires Inv(w)
    ensures Alone(w, p, acts, maxSize) ==
            Run(w, seq(|acts|, k requires 0 <= k < |acts| => (p, acts[k])), maxSize)
    decreases |acts|
  {
    if acts != [] {
      var steps := seq(|acts|, k requires 0 <= k < |acts| => (p, acts[k]));
      StepKeepsInv(w, p, acts[0], maxSize);
      AloneIsRun(Step(w, p, acts[0], maxSize), p, acts[1..], maxSize);
      assert steps[1..] == seq(|acts| - 1, k requires 0 <= k < |acts| - 1 => (p, acts[1..][k]));
    }
  }

  /** A process about to write a new line. */
  predicate AboutToLog(w: World, p: Pid, line: Line) {
    && p in w.procs && w.procs[p].pc.Ready? && w.procs[p].handle in w.files
    && line !in w.asked
  }

  /** The bytes in the file a process has open. */
  function OpenSize(w: World, p: Pid): nat
    requires p in w.procs && w.procs[p].handle in w.files
  {
    Size(w.files[w.procs[p].handle].lines)
  }

  /** A line is added to a file, and no name changes. */
  ghost predicate AddedTo(w: World, w': World, ino: Inode, line: Line)
    requires ino in w.files
  {
    && w'.names == w.names
    && w'.files == w.files[ino := w.files[ino].(lines := w.files[ino].lines + [line])]
  }

  lemma AloneCons(w: World, p: Pid, act: Act, rest: seq<Act>, maxSize: nat)
    ensures Alone(w, p, [act] + rest, maxSize) == Alone(Step(w, p, act, maxSize), p, rest, maxSize)
  {
    assert ([act] + rest)[1..] == rest;
  }

  /** The last step: the line goes to the open file. */
  lemma Appends(w: World, p: Pid, line: Line, maxSize: nat)
    requires p in w.procs && w.procs[p].pc == Appending(line) && w.procs[p].handle in w.files
    ensures var w' := Alone(w, p, [Append(false)], maxSize);
            && AddedTo(w, w', w.procs[p].handle, line)
            && p in w'.procs && w'.procs[p] == w.procs[p].(pc := Ready)
  {
    var w1 := Step(w, p, Append(false), maxSize);
    AloneCons(w, p, Append(false), [], maxSize);
    assert Alone(w1, p, [], maxSize) == w1;
  }

  /** The file opened is the one at the daily name, a new one if there is none. */
  lemma Opens(w: World, p: Pid, line: Line, maxSize: nat)
    requires p in w.procs && w.procs[p].pc == Opening(line)
    ensures Step(w, p, Open(false), maxSize) == OpenFor(w, p, w.procs[p].day, Appending(line))
  {
  }

  lemma OpensAndAppends(w: World, p: Pid, line: Line, maxSize: nat)
    requires p in w.procs && w.procs[p].pc == Opening(line)
    requires Daily(w.procs[p].day) in w.names ==> w.names[Daily(w.procs[p].day)] in w.files
    ensures var w' := Alone(w, p, [Open(false), Append(false)], maxSize);
            var o, ino := Opened(w, Daily(w.procs[p].day)).0, Opened(w, Daily(w.procs[p].day)).1;
            && AddedTo(o, w', ino, line)
            && p in w'.procs && w'.procs[p] == Proc(w.procs[p].day, ino, Ready)
  {
    var w1 := OpenFor(w, p, w.procs[p].day, Appending(line));
    Opens(w, p, line, maxSize);
    assert [Open(false), Append(false)] == [Open(false)] + [Append(false)];
    AloneCons(w, p, Open(false), [Append(false)], maxSize);
    Appends(w1, p, line, maxSize);
  }

  lemma LogStep(w: World, p: Pid, line: Line, maxSize: nat)
    requires AboutToLog(w, p, line)
    ensures Step(w, p, Log(line), maxSize) ==
            Asked(w, p, line, if OpenSize(w, p) > maxSize then Full(line) else Appending(line))
  {
  }

  lemma StatStep(w: World, p: Pid, line: Line, maxSize: nat)
    requires p in w.procs && w.procs[p].pc == Full(line)
    requires Daily(w.procs[p].day) in w.names ==> w.names[Daily(w.procs[p].day)] in w.files
    ensures var daily := Daily(w.procs[p].day);
            Step(w, p, StatPath(false), maxSize) ==
            SetPc(w, p, if daily in w.names && Size(w.files[w.names[daily]].lines) > maxSize
                        then Claiming(line, 0) else Opening(line))
  {
  }

  /** With its file above the size, the process looks at the one at the daily name. */
  lemma FullSteps(w: World, p: Pid, line: Line, rest: seq<Act>, maxSize: nat)
    requires AboutToLog(w, p, line) && OpenSize(w, p) > maxSize
    requires Daily(w.procs[p].day) in w.names ==> w.names[Daily(w.procs[p].day)] in w.files
    ensures var daily := Daily(w.procs[p].day);
            Alone(w, p, [Log(line)] + ([StatPath(false)] + rest), maxSize) ==
            Alone(Asked(w, p, line, if daily in w.names && Size(w.files[w.names[daily]].lines) > maxSize
                                    then Claiming(line, 0) else Opening(line)),
                  p, rest, maxSize)
  {
    var w1 := Asked(w, p, line, Full(line));
    LogStep(w, p, line, maxSize);
    StatStep(w1, p, line, maxSize);
    AloneCons(w, p, Log(line), [StatPath(false)] + rest, maxSize);
    AloneCons(w1, p, StatPath(false), rest, maxSize);
    AskedAny(w, p, line, Full(line), Claiming(line, 0));
    AskedAny(w, p, line, Full(line), Opening(line));
  }

  /** The line is to be written, and the process at a step. */
  function Asked(w: World, p: Pid, line: Line, pc: Pc): World
    requires p in w.procs
  {
    SetPc(w.(asked := w.asked[line := p]), p, pc)
  }

  lemma AskedAny(w: World, p: Pid, line: Line, pc: Pc, pc': Pc)
    requires p in w.procs
    ensures SetPc(Asked(w, p, line, pc), p, pc') == Asked(w, p, line, pc')
  {
  }

  lemma TryStep(w: World, p: Pid, line: Line, k: nat, maxSize: nat)
    requires p in w.procs && w.procs[p].pc == Claiming(line, k)
    ensures Step(w, p, TryClaim(false), maxSize) ==
            if Aside(w.procs[p].day, k) in w.names then SetPc(w, p, Claiming(line, k + 1))
            else Claim(w, p, w.procs[p])
  {
  }

  /** A file within the size is appended to: its name and every other stay. */
  lemma SmallFileGrows(w: World, p: Pid, line: Line, maxSize: nat)
    requires AboutToLog(w, p, line) && OpenSize(w, p) <= maxSize
    ensures var w' := Alone(w, p, [Log(line), Append(false)], maxSize);
            && AddedTo(w, w', w.procs[p].handle, line)
            && p in w'.procs && w'.procs[p] == w.procs[p]
  {
    LogStep(w, p, line, maxSize);
    assert [Log(line), Append(false)] == [Log(line)] + [Append(false)];
    AloneCons(w, p, Log(line), [Append(false)], maxSize);
    Appends(Asked(w, p, line, Appending(line)), p, line, maxSize);
  }

  /** The names the file could be moved aside to are taken up to `n`, which is free. */
  predicate FirstFree(w: World, day: Day, n: nat) {
    Aside(day, n) !in w.names && forall m :: 0 <= m < n ==> Aside(day, m) in w.names
  }

  function Tries(n: nat): seq<Act> {
    seq(n, _ => TryClaim(false))
  }

  /** The tries pass the names taken. */
  lemma {:induction false} TriesPass(w: World, p: Pid, line: Line, k: nat, n: nat, rest: seq<Act>,
                                     maxSize: nat)
    requires p in w.procs && w.procs[p].pc == Claiming(line, k) && k <= n
    requires forall m :: k <= m < n ==> Aside(w.procs[p].day, m) in w.names
    ensures Alone(w, p, Tries(n - k) + rest, maxSize) ==
            Alone(SetPc(w, p, Claiming(line, n)), p, rest, maxSize)
    decreases n - k
  {
    if k < n {
      var w1 := SetPc(w, p, Claiming(line, k + 1));
      assert Tries(n - k) + rest == [TryClaim(false)] + (Tries(n - k - 1) + rest);
      AloneCons(w, p, TryClaim(false), Tries(n - k - 1) + rest, maxSize);
      TryStep(w, p, line, k, maxSize);
      TriesPass(w1, p, line, k + 1, n, rest, maxSize);
      assert SetPc(w1, p, Claiming(line, n)) == SetPc(w, p, Claiming(line, n));
    } else {
      assert Tries(0) + rest == rest;
      assert SetPc(w, p, Claiming(line, n)) == w;
    }
  }

  /** What a rotation comes to: the daily file stands unchanged under the moved-aside name, the line
      alone in a new daily file that the process now has open, and every other name as it was. */
  ghost predicate RotatedTo(w: World, w': World, p: Pid, line: Line, n: nat)
    requires p in w.procs && Daily(w.procs[p].day) in w.names && w.names[Daily(w.procs[p].day)] in w.files
  {
    var q := w.procs[p];
    var daily, aside, full := Daily(q.day), Aside(q.day, n), w.names[Daily(q.day)];
    && w'.names == w.names[aside := full][daily := w.next + 1]
    && w'.files == w.files[full := File(aside, w.files[full].lines)][w.next + 1 := File(daily, [line])]
    && p in w'.procs && w'.procs[p] == Proc(q.day, w.next + 1, Ready)
  }

  /** With its file above the size, a process looks at the daily one and tries the names taken. */
  function UpToFree(line: Line, n: nat, rest: seq<Act>): seq<Act> {
    [Log(line)] + ([StatPath(false)] + (Tries(n) + rest))
  }

  function Rotation(line: Line, n: nat): seq<Act> {
    UpToFree(line, n, [TryClaim(false)] + [Rename(false), Open(false), Append(false)])
  }

  /** The daily file is above the size, and the process has a file open that is. */
  predicate MustRotate(w: World, p: Pid, line: Line, n: nat, maxSize: nat) {
    && AboutToLog(w, p, line) && OpenSize(w, p) > maxSize
    && Daily(w.procs[p].day) in w.names && w.names[Daily(w.procs[p].day)] in w.files
    && Size(w.files[w.names[Daily(w.procs[p].day)]].lines) > maxSize
    && FirstFree(w, w.procs[p].day, n)
  }

  lemma ComesToFree(w: World, p: Pid, line: Line, n: nat, rest: seq<Act>, maxSize: nat)
    requires MustRotate(w, p, line, n, maxSize)
    ensures Alone(w, p, UpToFree(line, n, rest), maxSize) ==
            Alone(Asked(w, p, line, Claiming(line, n)), p, rest, maxSize)
  {
    FullSteps(w, p, line, Tries(n) + rest, maxSize);
    TriesPass(Asked(w, p, line, Claiming(line, 0)), p, line, 0, n, rest, maxSize);
    AskedAny(w, p, line, Claiming(line, 0), Claiming(line, n));
  }

  /** A file above the size is moved aside, to the first free name, before the line is written. */
  lemma FullFileRotates(w: World, p: Pid, line: Line, n: nat, maxSize: nat)
    requires Inv(w) && MustRotate(w, p, line, n, maxSize)
    ensures RotatedTo(w, Alone(w, p, Rotation(line, n), maxSize), p, line, n)
  {
    var w2 := Asked(w, p, line, Claiming(line, n));
    var tail := [Rename(false), Open(false), Append(false)];
    ComesToFree(w, p, line, n, [TryClaim(false)] + tail, maxSize);
    AloneCons(w2, p, TryClaim(false), tail, maxSize);
    TryStep(w2, p, line, n, maxSize);
    ClaimsName(w, w2, p, line, n);
    FinishRotation(w, Claim(w2, p, w2.procs[p]), p, line, n, maxSize);
  }

  lemma ClaimsName(w: World, w2: World, p: Pid, line: Line, n: nat)
    requires p in w.procs && Aside(w.procs[p].day, n) !in w.names
    requires w2 == Asked(w, p, line, Claiming(line, n))
    ensures ClaimsFirst(w, Claim(w2, p, w2.procs[p]), p, line, n)
  {
  }

  /** The moved-aside name leads to a new empty file. */
  ghost predicate ClaimsFirst(w: World, w3: World, p: Pid, line: Line, n: nat)
    requires p in w.procs
  {
    var q, aside := w.procs[p], Aside(w.procs[p].day, n);
    && aside !in w.names
    && w3.names == w.names[aside := w.next] && w3.files == w.files[w.next := File(aside, [])]
    && w3.next == w.next + 1
    && p in w3.procs && w3.procs[p] == Proc(q.day, q.handle, Claimed(line, n))
  }

  /** The name is claimed: rename, open, append. */
  lemma FinishRotation(w: World, w3: World, p: Pid, line: Line, n: nat, maxSize: nat)
    requires Files(w) && p in w.procs && Daily(w.procs[p].day) in w.names
    requires ClaimsFirst(w, w3, p, line, n)
    ensures RotatedTo(w, Alone(w3, p, [Rename(false), Open(false), Append(false)], maxSize), p, line, n)
  {
    var q := w.procs[p];
    var daily, aside, full := Daily(q.day), Aside(q.day, n), w.names[Daily(q.day)];
    MovesAside(w, w3, p, line, n, maxSize);
    var w4 := Step(w3, p, Rename(false), maxSize);
    var tail := [Open(false), Append(false)];
    assert [Rename(false), Open(false), Append(false)] == [Rename(false)] + tail;
    AloneCons(w3, p, Rename(false), tail, maxSize);
    OpensAndAppends(w4, p, line, maxSize);
    AddedAlone(w4.files, daily, w4.next, line);
    assert (w.names - {daily})[aside := full][daily := w.next + 1] ==
           w.names[aside := full][daily := w.next + 1];
  }

  lemma AddedAlone(files: map<Inode, File>, daily: Name, ino: Inode, line: Line)
    ensures files[ino := File(daily, [])][ino := File(daily, [] + [line])] ==
            files[ino := File(daily, [line])]
  {
    assert [] + [line] == [line];
  }

  lemma MovesAside(w: World, w3: World, p: Pid, line: Line, n: nat, maxSize: nat)
    requires Files(w) && p in w.procs && Daily(w.procs[p].day) in w.names
    requires ClaimsFirst(w, w3, p, line, n)
    ensures var q, w4 := w.procs[p], Step(w3, p, Rename(false), maxSize);
            var daily, aside, full := Daily(q.day), Aside(q.day, n), w.names[Daily(q.day)];
            && w4.names == (w.names - {daily})[aside := full]
            && w4.files == w.files[full := File(aside, w.files[full].lines)]
            && w4.next == w.next + 1
            && p in w4.procs && w4.procs[p] == Proc(q.day, q.handle, Opening(line))
  {
    var q := w3.procs[p];
    assert Step(w3, p, Rename(false), maxSize) == MoveAside(w3, p, q);
  }

  /** The file a process has open is above the size, but no longer the daily one: another has moved it
      aside, and perhaps started a new one. That one is written to, a new one if there is none. */
  lemma MovedFileIsFollowed(w: World, p: Pid, line: Line, maxSize: nat)
    requires Inv(w) && AboutToLog(w, p, line) && OpenSize(w, p) > maxSize
    requires var daily := Daily(w.procs[p].day);
             daily in w.names ==> Size(w.files[w.names[daily]].lines) <= maxSize
    ensures var w' := Alone(w, p, [Log(line), StatPath(false), Open(false), Append(false)], maxSize);
            var daily := Daily(w.procs[p].day);
            var o, ino := Opened(w, daily).0, Opened(w, daily).1;
            && (daily !in w.names ==> o.files[ino].lines == [])
            && AddedTo(o, w', ino, line)
            && p in w'.procs && w'.procs[p] == Proc(w.procs[p].day, ino, Ready)
  {
    var w2 := Asked(w, p, line, Opening(line));
    var tail := [Open(false), Append(false)];
    assert [Log(line), StatPath(false), Open(false), Append(false)] ==
           [Log(line)] + ([StatPath(false)] + tail);
    FullSteps(w, p, line, tail, maxSize);
    OpensAndAppends(w2, p, line, maxSize);
    assert Opened(w2, Daily(w.procs[p].day)).0.files == Opened(w, Daily(w.procs[p].day)).0.files;
  }

  /** Where a rotation can fail before the file is moved. */
  datatype Fault = NoStat | NoClaim | NoRename

  function FaultyRotation(line: Line, n: nat, fault: Fault): seq<Act> {
    match fault
    case NoStat => [Log(line)] + ([StatPath(true)] + [Append(false)])
    case NoClaim => UpToFree(line, n, [TryClaim(true)] + [Append(false)])
    case NoRename =>
      UpToFree(line, n, [TryClaim(false)] + ([Rename(true)] + ([RemoveClaim(false)] + [Append(false)])))
  }

  /** A file that cannot be moved aside is written past the size rather than losing the line. */
  lemma FailedRotationStillWrites(w: World, p: Pid, line: Line, n: nat, fault: Fault, maxSize: nat)
    requires Inv(w) && MustRotate(w, p, line, n, maxSize)
    ensures var w' := Alone(w, p, FaultyRotation(line, n, fault), maxSize);
            && AddedTo(w, w', w.procs[p].handle, line)
            && p in w'.procs && w'.procs[p] == w.procs[p]
  {
    match fault
    case NoStat =>
      LogStep(w, p, line, maxSize);
      AloneCons(w, p, Log(line), [StatPath(true)] + [Append(false)], maxSize);
      GivesUp(w, p, line, Full(line), StatPath(true), maxSize);
    case NoClaim =>
      ComesToFree(w, p, line, n, [TryClaim(true)] + [Append(false)], maxSize);
      GivesUp(w, p, line, Claiming(line, n), TryClaim(true), maxSize);
    case NoRename => FailedRenameStillWrites(w, p, line, n, maxSize);
  }

  lemma GivesUp(w: World, p: Pid, line: Line, pc: Pc, act: Act, maxSize: nat)
    requires p in w.procs && w.procs[p].pc.Ready? && w.procs[p].handle in w.files
    requires match pc
             case Full(l) => l == line && act == StatPath(true)
             case Claiming(l, n) => l == line && act == TryClaim(true) && Aside(w.procs[p].day, n) !in w.names
             case _ => false
    ensures var w' := Alone(Asked(w, p, line, pc), p, [act] + [Append(false)], maxSize);
            && AddedTo(w, w', w.procs[p].handle, line)
            && p in w'.procs && w'.procs[p] == w.procs[p]
  {
    AloneCons(Asked(w, p, line, pc), p, act, [Append(false)], maxSize);
    AskedAny(w, p, line, pc, Appending(line));
    Appends(Asked(w, p, line, Appending(line)), p, line, maxSize);
  }

  lemma FailedRenameStillWrites(w: World, p: Pid, line: Line, n: nat, maxSize: nat)
    requires Inv(w) && MustRotate(w, p, line, n, maxSize)
    ensures var w' := Alone(w, p, FaultyRotation(line, n, NoRename), maxSize);
            && AddedTo(w, w', w.procs[p].handle, line)
            && p in w'.procs && w'.procs[p] == w.procs[p]
  {
    var w2 := Asked(w, p, line, Claiming(line, n));
    var tail := [Rename(true)] + ([RemoveClaim(false)] + [Append(false)]);
    ComesToFree(w, p, line, n, [TryClaim(false)] + tail, maxSize);
    AloneCons(w2, p, TryClaim(false), tail, maxSize);
    TryStep(w2, p, line, n, maxSize);
    ClaimsName(w, w2, p, line, n);
    var w3 := Claim(w2, p, w2.procs[p]);
    AloneCons(w3, p, Rename(true), [RemoveClaim(false)] + [Append(false)], maxSize);
    var w4 := Step(w3, p, Rename(true), maxSize);
    AloneCons(w4, p, RemoveClaim(false), [Append(false)], maxSize);
    GivesUpName(w, w3, p, line, n, maxSize);
    Appends(Step(w4, p, RemoveClaim(false), maxSize), p, line, maxSize);
  }

  lemma GivesUpName(w: World, w3: World, p: Pid, line: Line, n: nat, maxSize: nat)
    requires Files(w) && p in w.procs && ClaimsFirst(w, w3, p, line, n)
    ensures var w5 := Step(Step(w3, p, Rename(true), maxSize), p, RemoveClaim(false), maxSize);
            && w5.names == w.names && w5.files == w.files
            && p in w5.procs && w5.procs[p] == w.procs[p].(pc := Appending(line))
  {
    var q := w3.procs[p];
    var w4 := SetPc(w3, p, Unclaiming(line, n, false));
    assert Step(w3, p, Rename(true), maxSize) == w4;
    assert Step(w4, p, RemoveClaim(false), maxSize) == Unclaim(w4, p, w4.procs[p], false);
    assert w.names[Aside(q.day, n) := w.next] - {Aside(q.day, n)} == w.names;
  }

  /** A process that starts, and one that goes on to a later day, has that day's file open, new and empty
      if there was none; the file it had before and all others stay. It never goes back a day. */
  lemma DayIsOpened(w: World, p: Pid, day: Day, maxSize: nat)
    requires Inv(w) && (p in w.procs ==> w.procs[p].pc.Ready?)
    ensures var act := if p in w.procs then SwitchDay(day, false) else Spawn(day);
            var w' := Step(w, p, act, maxSize);
            if p in w.procs && day <= w.procs[p].day then w' == w
            else
              && p in w'.procs && w'.procs[p].day == day && w'.procs[p].pc.Ready?
              && Daily(day) in w'.names && w'.names[Daily(day)] == w'.procs[p].handle
              && w'.procs[p].handle in w'.files
              && (forall i :: i in w.files ==> i in w'.files && w'.files[i] == w.files[i])
              && (if Daily(day) in w.names then w'.names == w.names && w'.files == w.files
                  else w'.names - {Daily(day)} == w.names
                       && w'.files[w'.procs[p].handle].lines == [])
  {
  }
}
