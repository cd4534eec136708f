/** Lock-free throttling of byte progress (`progress.rs`): any number of concurrent reports over two
    atomics, step by atomic step. */
module Progress {
  import opened Prelude

  const TWO_64 := U64_MAX + 1

  type Task = nat

  /** `pending` and `last_emit_millis`. */
  datatype Atomics = Atomics(pending: U64, lastEmit: U64)

  function FetchAdd(a: Atomics, delta: U64): Atomics {
    a.(pending := (a.pending + delta) % TWO_64)
  }

  /** Whether a report at `now` that read `last` may try to claim the slot. */
  predicate Due(now: U64, last: U64, interval: U64) {
    SaturatingSub(now, last) >= interval
  }

  function CompareExchange(a: Atomics, last: U64, now: U64): Atomics {
    if a.lastEmit == last then a.(lastEmit := now) else a
  }

  function Swap(a: Atomics): Atomics {
    a.(pending := 0)
  }

  /** One transfer's progress, as a single caller sees it; `forwarded` is what the callback got. */
  class ThrottledProgress {
    const interval: U64
    var atomics: Atomics
    var forwarded: seq<U64>

    constructor (interval: U64)
      ensures this.interval == interval && atomics == Atomics(0, 0) && forwarded == []
    {
      this.interval := interval;
      atomics, forwarded := Atomics(0, 0), [];
    }

    /** A report nothing else comes between: what is pending goes out exactly when it is due. */
    method Report(delta: U64, now: U64)
      modifies this
      ensures var due := delta > 0 && (interval == 0 || old(atomics).lastEmit + interval <= now);
              var total := (old(atomics).pending + delta) % TWO_64;
              && atomics == (if due then Atomics(0, now) else Atomics(total, old(atomics).lastEmit))
              && forwarded == old(forwarded) + if due && total > 0 then [total] else []
    {
      if delta == 0 {
        return;
      }
      atomics := FetchAdd(atomics, delta);
      var last := atomics.lastEmit;
      if Due(now, last, interval) {
        atomics := CompareExchange(atomics, last, now);
        Flush();
      }
    }

    /** `flush` and `emit`. */
    method Flush()
      modifies this
      ensures atomics == Swap(old(atomics))
      ensures forwarded == old(forwarded) + if old(atomics).pending > 0 then [old(atomics).pending] else []
    {
      var pending := atomics.pending;
      atomics := Swap(atomics);
      if pending > 0 {
        forwarded := forwarded + [pending];
      }
    }
  }

  // ---- concurrent reports ------------------------------------------------------------------

  /** Where a report is. A flush starts at `Emitting`. */
  datatype Pc = Added | Timed(now: U64) | Loaded(now: U64, last: U64) | Emitting

  /** `clock`: milliseconds since the start. `taken`: bytes swapped out and not yet handed to the
      callback. `recorded`, `forwarded`: totals so far; `lost`: what the 64-bit counter wrapped away;
      `claims`: slots claimed. */
  datatype World = World(atomics: Atomics, interval: U64, clock: nat, tasks: map<Task, Pc>,
                         taken: map<Task, U64>, recorded: nat, forwarded: nat, lost: nat,
                         claims: nat)

  datatype Event =
    | Tick(millis: nat)
    | Report(task: Task, delta: U64)
    | ReadClock(task: Task)
    | Load(task: Task, last: U64)   // a relaxed load is let see any value
    | Claim(task: Task)
    | Flush(task: Task)
    | SwapOut(task: Task)
    | Callback(task: Task)

  function Start(interval: U64): World {
    World(Atomics(0, 0), interval, 0, map[], map[], 0, 0, 0, 0)
  }

  function Clamped(clock: nat): U64 {
    if clock < TWO_64 then clock else TWO_64 - 1
  }

  predicate Idle(w: World, t: Task) {
    t !in w.tasks && t !in w.taken
  }

  function ReportStep(w: World, t: Task, delta: U64): World {
    w.(atomics := FetchAdd(w.atomics, delta), tasks := w.tasks[t := Added],
       recorded := w.recorded + delta,
       lost := w.lost + if w.atomics.pending + delta >= TWO_64 then TWO_64 else 0)
  }

  function ClaimStep(w: World, t: Task, now: U64, last: U64): World {
    if Due(now, last, w.interval) && w.atomics.lastEmit == last
    then w.(atomics := CompareExchange(w.atomics, last, now), tasks := w.tasks[t := Emitting],
            claims := w.claims + 1)
    else w.(tasks := w.tasks - {t})
  }

  function SwapStep(w: World, t: Task): World {
    w.(atomics := Swap(w.atomics), tasks := w.tasks - {t}, taken := w.taken[t := w.atomics.pending])
  }

  function CallbackStep(w: World, t: Task): World
    requires t in w.taken
  {
    w.(taken := w.taken - {t}, forwarded := w.forwarded + w.taken[t])
  }

  /** One atomic step; an event that cannot happen in this state changes nothing. */
  function Step(w: World, ev: Event): World {
    match ev
    case Tick(millis) => w.(clock := w.clock + millis)
    case Report(t, delta) => if !Idle(w, t) || delta == 0 then w else ReportStep(w, t, delta)
    case ReadClock(t) =>
      if t in w.tasks && w.tasks[t].Added? then w.(tasks := w.tasks[t := Timed(Clamped(w.clock))]) else w
    case Load(t, last) =>
      if t in w.tasks && w.tasks[t].Timed? then w.(tasks := w.tasks[t := Loaded(w.tasks[t].now, last)])
      else w
    case Claim(t) =>
      if t in w.tasks && w.tasks[t].Loaded? then ClaimStep(w, t, w.tasks[t].now, w.tasks[t].last) else w
    case Flush(t) => if Idle(w, t) then w.(tasks := w.tasks[t := Emitting]) else w
    case SwapOut(t) => if t in w.tasks && w.tasks[t].Emitting? then SwapStep(w, t) else w
    case Callback(t) => if t in w.taken then CallbackStep(w, t) else w
  }

  function Run(w: World, events: seq<Event>): World
    decreases |events|
  {
    if events == [] then w else Run(Step(w, events[0]), events[1..])
  }

  // ---- every byte once ---------------------------------------------------------------------

  ghost function Sum(m: map<Task, U64>): nat
    decreases |m|
  {
    if m == map[] then 0
    else
      var t :| t in m;
      assert (m - {t}).Keys == m.Keys - {t};
      assert |m - {t}| == |(m - {t}).Keys|;
      m[t] + Sum(m - {t})
  }

  lemma {:induction false} SumWithout(m: map<Task, U64>, t: Task)
    requires t in m
    ensures Sum(m) == m[t] + Sum(m - {t})
    decreases |m|
  {
    var t' :| t' in m && Sum(m) == m[t'] + Sum(m - {t'});
    if t' != t {
      assert (m - {t'}).Keys == m.Keys - {t'} && |m - {t'}| == |(m - {t'}).Keys|;
      assert (m - {t}).Keys == m.Keys - {t} && |m - {t}| == |(m - {t}).Keys|;
      SumWithout(m - {t'}, t);
      SumWithout(m - {t}, t');
      assert m - {t'} - {t} == m - {t} - {t'};
    }
  }

  /** Recorded bytes are pending, taken, forwarded, or wrapped away; claims keep their distance. */
  ghost predicate Inv(w: World) {
    && w.recorded == w.atomics.pending + Sum(w.taken) + w.forwarded + w.lost
    && (w.lost == 0 || w.lost >= TWO_64)
    && w.tasks.Keys !! w.taken.Keys
    && Paced(w)
  }

  ghost predicate Paced(w: World) {
    && (forall t :: t in w.tasks && w.tasks[t].Timed? ==> w.tasks[t].now <= w.clock)
    && (forall t :: t in w.tasks && w.tasks[t].Loaded? ==> w.tasks[t].now <= w.clock)
    && w.atomics.lastEmit <= w.clock
    && (w.interval > 0 ==> w.claims * w.interval <= w.atomics.lastEmit)
  }

  lemma ClaimKeepsPaced(w: World, t: Task)
    requires Paced(w) && t in w.tasks && w.tasks[t].Loaded?
    ensures Paced(ClaimStep(w, t, w.tasks[t].now, w.tasks[t].last))
  {
  }

  lemma SwapKeepsInv(w: World, t: Task)
    requires Inv(w) && t in w.tasks && w.tasks[t].Emitting?
    ensures Inv(SwapStep(w, t))
  {
    var w' := SwapStep(w, t);
    SumWithout(w'.taken, t);
    assert w'.taken - {t} == w.taken;
  }

  lemma ReportKeepsInv(w: World, t: Task, delta: U64)
    requires Inv(w) && Idle(w, t)
    ensures Inv(ReportStep(w, t, delta))
  {
  }

  lemma CallbackKeepsInv(w: World, t: Task)
    requires Inv(w) && t in w.taken
    ensures Inv(CallbackStep(w, t))
  {
    SumWithout(w.taken, t);
  }

  lemma ClaimKeepsInv(w: World, t: Task)
    requires Inv(w) && t in w.tasks && w.tasks[t].Loaded?
    ensures Inv(ClaimStep(w, t, w.tasks[t].now, w.tasks[t].last))
  {
    ClaimKeepsPaced(w, t);
  }

  lemma StepKeepsInv(w: World, ev: Event)
    requires Inv(w)
    ensures Inv(Step(w, ev))
  {
    match ev
    case Claim(t) =>
      if t in w.tasks && w.tasks[t].Loaded? {
        ClaimKeepsInv(w, t);
      }
    case SwapOut(t) =>
      if t in w.tasks && w.tasks[t].Emitting? {
        SwapKeepsInv(w, t);
      }
    case Callback(t) =>
      if t in w.taken {
        CallbackKeepsInv(w, t);
      }
    case Report(t, delta) =>
      if Idle(w, t) {
        ReportKeepsInv(w, t, delta);
      }
    case Tick(_) =>
    case ReadClock(_) =>
    case Load(_, _) =>
    case Flush(_) =>
  }

  lemma {:induction false} RunKeepsInv(w: World, events: seq<Event>)
    requires Inv(w)
    ensures Inv(Run(w, events))
    decreases |events|
  {
    if events != [] {
      StepKeepsInv(w, events[0]);
      RunKeepsInv(Step(w, events[0]), events[1..]);
    }
  }

  /** A report finds the counter too full for it. */
  predicate Wraps(w: World, ev: Event) {
    ev.Report? && Idle(w, ev.task) && w.atomics.pending + ev.delta >= TWO_64
  }

  predicate NeverWraps(w: World, events: seq<Event>)
    decreases |events|
  {
    events == [] || (!Wraps(w, events[0]) && NeverWraps(Step(w, events[0]), events[1..]))
  }

  lemma {:induction false} LostExactly(w: World, events: seq<Event>)
    ensures Run(w, events).lost >= w.lost
    ensures Run(w, events).lost == w.lost <==> NeverWraps(w, events)
    decreases |events|
  {
    if events != [] {
      LostExactly(Step(w, events[0]), events[1..]);
    }
  }

  /** In every interleaving, each recorded byte is pending, taken but not yet delivered, or forwarded,
      and none twice, if and only if no report found 2^64 bytes pending with its own; fewer than
      2^64 bytes in all never do. */
  lemma BytesAreConserved(interval: U64, events: seq<Event>)
    ensures var w := Run(Start(interval), events);
            && (w.recorded == w.atomics.pending + Sum(w.taken) + w.forwarded <==>
                NeverWraps(Start(interval), events))
            && (w.recorded < TWO_64 ==> NeverWraps(Start(interval), events))
  {
    RunKeepsInv(Start(interval), events);
    LostExactly(Start(interval), events);
  }

  /** Where it does, the total is off by 2^64. */
  lemma CounterCanWrap(delta: U64)
    requires delta > 0
    ensures var w := Run(Start(1), [Report(0, TWO_64 - 1), Report(1, delta)]);
            w.atomics.pending == delta - 1 && w.recorded == TWO_64 - 1 + delta && w.lost == TWO_64
  {
    var w0 := Start(1);
    var w1 := Step(w0, Report(0, TWO_64 - 1));
    var events := [Report(0, TWO_64 - 1), Report(1, delta)];
    assert events[1..] == [Report(1, delta)] && events[1..][1..] == [];
    assert Run(w0, events) == Run(w1, events[1..]);
    assert Run(w1, events[1..]) == Run(Step(w1, Report(1, delta)), []);
  }

  function FlushedBy(w: World, t: Task): World {
    Step(Step(Step(w, Flush(t)), SwapOut(t)), Callback(t))
  }

  lemma FlushSteps(w: World, t: Task)
    requires w.tasks == map[] && w.taken == map[]
    ensures FlushedBy(w, t) == w.(atomics := Swap(w.atomics), forwarded := w.forwarded + w.atomics.pending)
  {
    var w1 := w.(tasks := map[t := Emitting]);
    assert Step(w, Flush(t)) == w1;
    assert w1.tasks - {t} == map[];
    var w2 := w.(atomics := Swap(w.atomics), taken := map[t := w.atomics.pending]);
    assert Step(w1, SwapOut(t)) == w2;
    assert w2.taken - {t} == map[];
  }

  /** Once all reports have returned and a flush runs, the forwarded total is exact. */
  lemma FlushDeliversTheRest(interval: U64, events: seq<Event>, t: Task)
    ensures var w := Run(Start(interval), events);
            w.tasks == map[] && w.taken == map[] && NeverWraps(Start(interval), events) ==>
              && FlushedBy(w, t).forwarded == w.recorded == FlushedBy(w, t).recorded
              && FlushedBy(w, t).atomics.pending == 0
  {
    BytesAreConserved(interval, events);
    var w := Run(Start(interval), events);
    if w.tasks == map[] && w.taken == map[] {
      FlushSteps(w, t);
    }
  }

  /** With a positive interval, slots are claimed at most once per interval of elapsed time. */
  lemma ClaimsAreThrottled(interval: U64, events: seq<Event>)
    requires interval > 0
    ensures var w := Run(Start(interval), events);
            w.claims * interval <= w.clock
  {
    RunKeepsInv(Start(interval), events);
    IntervalIsFixed(Start(interval), events);
  }

  lemma {:induction false} IntervalIsFixed(w: World, events: seq<Event>)
    ensures Run(w, events).interval == w.interval
    decreases |events|
  {
    if events != [] {
      IntervalIsFixed(Step(w, events[0]), events[1..]);
    }
  }

  // ---- a report that is due ----------------------------------------------------------------

  /** The steps of one report with none of another between them, up to the callback if it gets there. */
  function ReportedBy(w: World, t: Task, delta: U64): World {
    var w3 := Step(Step(Step(w, Report(t, delta)), ReadClock(t)), Load(t, w.atomics.lastEmit));
    var w4 := Step(w3, Claim(t));
    Step(Step(w4, SwapOut(t)), Callback(t))
  }

  /** Once the interval has passed since the last claim, a report forwards all that is pending with its
      own bytes; before, it only adds them. */
  lemma DueReportForwards(w: World, t: Task, delta: U64)
    requires Inv(w) && Idle(w, t) && delta > 0
    requires w.atomics.pending + delta < TWO_64 && w.clock < TWO_64
    ensures var w', total := ReportedBy(w, t, delta), w.atomics.pending + delta;
            && Idle(w', t) && w'.tasks == w.tasks && w'.taken == w.taken
            && if w.atomics.lastEmit + w.interval <= w.clock
               then w'.atomics == Atomics(0, w.clock) && w'.forwarded == w.forwarded + total
               else w'.atomics == Atomics(total, w.atomics.lastEmit) && w'.forwarded == w.forwarded
  {
    var total := w.atomics.pending + delta;
    var w1 := ReportStep(w, t, delta);
    assert Step(w, Report(t, delta)) == w1;
    var w2 := w1.(tasks := w1.tasks[t := Timed(w.clock)]);
    assert Step(w1, ReadClock(t)) == w2;
    var w3 := w2.(tasks := w2.tasks[t := Loaded(w.clock, w.atomics.lastEmit)]);
    assert Step(w2, Load(t, w.atomics.lastEmit)) == w3;
    assert w3.tasks - {t} == w.tasks;
    var w4 := Step(w3, Claim(t));
    if w.atomics.lastEmit + w.interval <= w.clock {
      assert w4.tasks - {t} == w.tasks;
      var w5 := Step(w4, SwapOut(t));
      assert w5.taken == w.taken[t := total];
      assert w5.taken - {t} == w.taken;
    } else {
      assert w4.tasks == w.tasks;
    }
  }
}
