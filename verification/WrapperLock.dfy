/** The generated wrapper under `overlap: forbid`, as a protocol: any number of runs of the same job that share one
    lock directory, interleaved step by step, with signals and kills at any point. */
module WrapperLock {

  /** Where one run stands in its script. The later half, from Exiting on, is the EXIT trap. */
  datatype Pc =
    | Init
    | Ready
    | LockNamed
    | Skipping
    | Acquired
    | Running
    | CommandDone(status: int)
    | FinishFlagged(status: int)
    | FinishDone(status: int)
    | Exiting(status: int)
    | ExitFlagged(status: int)
    | Unlocking(status: int)
    | Cleaning(status: int)
    | Gone(status: int)
    | Killed

  /** The script's variables, and what the run has done so far: whether its mkdir succeeded, whether its trap ran rmdir,
      the status of its command, and the finish reports it made. */
  datatype Run = Run(
    pc: Pc,
    lockDir: bool,
    runStarted: bool,
    finishReported: bool,
    acquired: bool,
    unlocked: bool,
    command: seq<int>,
    reports: seq<int>)

  datatype System = System(runs: seq<Run>, lock: bool)

  const FRESH := Run(Init, false, false, false, false, false, [], [])

  function Initial(n: nat): System {
    System(seq(n, _ => FRESH), false)
  }

  /** `choice` is the command's exit status, or a reason other than the lock for mkdir to fail. */
  datatype Event = Advance(run: nat, choice: int) | Interrupt(run: nat, status: int) | Kill(run: nat)

  function FinishRun(r: Run, status: int): Run {
    if r.runStarted then r.(reports := r.reports + [status]) else r
  }

  /** One step of one run, and the lock directory after it. */
  function StepRun(r: Run, lock: bool, choice: int): (Run, bool) {
    match r.pc
    case Init => (r.(pc := Ready), lock)
    case Ready => (r.(pc := LockNamed, lockDir := true), lock)
    case LockNamed =>
      if !lock && choice == 0 then (r.(pc := Acquired, acquired := true), true) else (r.(pc := Skipping), lock)
    case Skipping => (r.(pc := Exiting(0)), lock)
    case Acquired => (r.(pc := Running, runStarted := true), lock)
    case Running => (r.(pc := CommandDone(choice), command := [choice]), lock)
    case CommandDone(s) =>
      if r.finishReported then (r.(pc := FinishDone(s)), lock)
      else (r.(pc := FinishFlagged(s), finishReported := true), lock)
    case FinishFlagged(s) => (FinishRun(r, s).(pc := FinishDone(s)), lock)
    case FinishDone(s) => (r.(pc := Exiting(s)), lock)
    case Exiting(s) =>
      if r.finishReported then (r.(pc := Unlocking(s)), lock)
      else (r.(pc := ExitFlagged(s), finishReported := true), lock)
    case ExitFlagged(s) => (FinishRun(r, s).(pc := Unlocking(s)), lock)
    case Unlocking(s) =>
      if r.lockDir then (r.(pc := Cleaning(s), unlocked := true), false) else (r.(pc := Cleaning(s)), lock)
    case Cleaning(s) => (r.(pc := Gone(s)), lock)
    case Gone(_) => (r, lock)
    case Killed => (r, lock)
  }

  /** A signal, or a command failing under `set -e`: the script exits, the trap is cut short, a run without traps dies.
      */
  function InterruptRun(r: Run, status: int): Run {
    match r.pc
    case Init => r.(pc := Killed)
    case Exiting(_) => r.(pc := Gone(status))
    case ExitFlagged(_) => r.(pc := Gone(status))
    case Unlocking(_) => r.(pc := Gone(status))
    case Cleaning(_) => r.(pc := Gone(status))
    case Gone(_) => r
    case Killed => r
    case _ => r.(pc := Exiting(status))
  }

  function Next(s: System, e: Event): System {
    if e.run >= |s.runs| then s
    else
      var r := s.runs[e.run];
      match e
      case Advance(i, choice) =>
        var (r', lock) := StepRun(r, s.lock, choice);
        System(s.runs[i := r'], lock)
      case Interrupt(i, status) => s.(runs := s.runs[i := InterruptRun(r, status)])
      case Kill(i) => s.(runs := s.runs[i := if r.pc.Gone? then r else r.(pc := Killed)])
  }

  function Execute(s: System, events: seq<Event>): System {
    if events == [] then s else Next(Execute(s, events[..|events| - 1]), events[|events| - 1])
  }

  // ---- mutual exclusion

  /** Alive between a successful mkdir and the rmdir of its own trap. */
  predicate InCritical(r: Run) {
    r.acquired && !r.unlocked && !r.pc.Gone? && !r.pc.Killed?
  }

  /** Made the directory and has not removed it. */
  predicate Holds(r: Run) { r.acquired && !r.unlocked }

  /** Removed the directory without ever having made it. */
  predicate Intruded(r: Run) { r.unlocked && !r.acquired }

  function Count(runs: seq<Run>, p: Run -> bool): nat {
    if runs == [] then 0 else Count(runs[..|runs| - 1], p) + if p(runs[|runs| - 1]) then 1 else 0
  }

  function Bit(b: bool): nat { if b then 1 else 0 }

  lemma {:induction false} CountUpdate(runs: seq<Run>, i: nat, r: Run, p: Run -> bool)
    requires i < |runs|
    ensures Count(runs[i := r], p) + Bit(p(runs[i])) == Count(runs, p) + Bit(p(r))
  {
    var last := |runs| - 1;
    if i < last {
      assert runs[i := r][..last] == runs[..last][i := r];
      CountUpdate(runs[..last], i, r, p);
    } else {
      assert runs[i := r][..last] == runs[..last];
    }
  }

  lemma {:induction false} CountMonotone(runs: seq<Run>, p: Run -> bool, q: Run -> bool)
    requires forall i :: 0 <= i < |runs| && p(runs[i]) ==> q(runs[i])
    ensures Count(runs, p) <= Count(runs, q)
  {
    if runs != [] {
      CountMonotone(runs[..|runs| - 1], p, q);
    }
  }

  /** At most one more holder than there have been intrusions, and not even one more while the directory is missing. */
  predicate LockInv(s: System) {
    && Count(s.runs, Holds) <= Bit(s.lock) + Count(s.runs, Intruded)
    && forall i :: 0 <= i < |s.runs| ==> RunInv(s.runs[i])
  }

  /** What one run's variables say about its past. */
  predicate RunInv(r: Run) {
    && (r.pc in {Init, Ready, LockNamed, Skipping} ==> !r.acquired)
    && (r.unlocked ==> r.pc.Cleaning? || r.pc.Gone? || r.pc.Killed?)
    && (r.pc in {LockNamed, Skipping} || r.acquired ==> r.lockDir)
    && (r.runStarted || r.pc in {Acquired, Running} ==> r.acquired)
    && (r.pc in {Init, Ready, LockNamed, Skipping, Acquired} ==> !r.runStarted)
    && (r.pc == Running || r.pc.CommandDone? || r.pc.FinishFlagged? ==> r.runStarted)
    && |r.reports| <= 1
    && (r.reports != [] ==> r.finishReported && r.runStarted)
    && (r.pc in {Init, Ready, LockNamed, Skipping, Acquired, Running} || r.pc.CommandDone? ==> !r.finishReported)
    && (r.pc.FinishFlagged? || r.pc.ExitFlagged? ==> r.reports == [] && r.finishReported)
  }

  lemma {:induction false} StepKeepsRunInv(r: Run, lock: bool, choice: int, status: int)
    requires RunInv(r)
    ensures RunInv(StepRun(r, lock, choice).0) && RunInv(InterruptRun(r, status)) && RunInv(r.(pc := Killed))
  {
  }

  lemma {:induction false} NextKeepsRunInv(s: System, e: Event)
    requires forall i :: 0 <= i < |s.runs| ==> RunInv(s.runs[i])
    ensures |Next(s, e).runs| == |s.runs|
    ensures forall i :: 0 <= i < |s.runs| ==> RunInv(Next(s, e).runs[i])
  {
    if e.run < |s.runs| {
      assert RunInv(s.runs[e.run]);
      var choice := if e.Advance? then e.choice else 0;
      var status := if e.Interrupt? then e.status else 0;
      StepKeepsRunInv(s.runs[e.run], s.lock, choice, status);
    }
  }

  /** The effect of an event on who holds and who intruded. */
  lemma {:induction false} NextCounts(s: System, e: Event)
    requires e.run < |s.runs| && RunInv(s.runs[e.run])
    ensures |Next(s, e).runs| == |s.runs|
    ensures var r, r' := s.runs[e.run], Next(s, e).runs[e.run];
      && (Holds(r') ==> Holds(r) || (Next(s, e).lock && !s.lock))
      && (Intruded(r) ==> Intruded(r'))
      && (s.lock && !Next(s, e).lock ==> (Holds(r) && !Holds(r')) || (!Intruded(r) && Intruded(r')))
      && (!s.lock && Next(s, e).lock ==> !Holds(r))
  {
  }

  lemma {:induction false} NextKeepsLockInv(s: System, e: Event)
    requires LockInv(s)
    ensures LockInv(Next(s, e)) && |Next(s, e).runs| == |s.runs|
  {
    NextKeepsRunInv(s, e);
    if e.run < |s.runs| {
      var t := Next(s, e);
      var r' := t.runs[e.run];
      assert t.runs == s.runs[e.run := r'];
      NextCounts(s, e);
      CountUpdate(s.runs, e.run, r', Holds);
      CountUpdate(s.runs, e.run, r', Intruded);
    }
  }

  lemma {:induction false} CountInitial(n: nat, p: Run -> bool)
    requires !p(FRESH)
    ensures Count(Initial(n).runs, p) == 0
  {
    if n > 0 {
      assert Initial(n).runs[..n - 1] == Initial(n - 1).runs;
      CountInitial(n - 1, p);
    }
  }

  /** The invariant holds after any events, in any order, on any number of runs. */
  lemma {:induction false} LockInvAlways(n: nat, events: seq<Event>)
    ensures LockInv(Execute(Initial(n), events)) && |Execute(Initial(n), events).runs| == n
  {
    if events == [] {
      CountInitial(n, Holds);
    } else {
      LockInvAlways(n, events[..|events| - 1]);
      NextKeepsLockInv(Execute(Initial(n), events[..|events| - 1]), events[|events| - 1]);
    }
  }

  /** Safety: in every interleaving, the runs inside number at most one if the lock directory exists, plus one for each
      run that removed the directory without having made it. Without such a run, mutual exclusion holds. */
  lemma {:induction false} OverlapBound(n: nat, events: seq<Event>)
    ensures var s := Execute(Initial(n), events);
      && Count(s.runs, InCritical) <= Bit(s.lock) + Count(s.runs, Intruded)
      && (Count(s.runs, Intruded) == 0 ==> Count(s.runs, InCritical) <= 1)
  {
    var s := Execute(Initial(n), events);
    LockInvAlways(n, events);
    CountMonotone(s.runs, InCritical, Holds);
  }

  lemma {:induction false} CountTwo(runs: seq<Run>, p: Run -> bool, i: nat, j: nat)
    requires i < j < |runs| && p(runs[i]) && p(runs[j])
    ensures Count(runs, p) >= 2
  {
    var last := |runs| - 1;
    if j < last {
      CountTwo(runs[..last], p, i, j);
    } else {
      CountOne(runs[..last], p, i);
    }
  }

  lemma {:induction false} CountOne(runs: seq<Run>, p: Run -> bool, i: nat)
    requires i < |runs| && p(runs[i])
    ensures Count(runs, p) >= 1
  {
    var last := |runs| - 1;
    if i < last {
      CountOne(runs[..last], p, i);
    }
  }

  lemma {:induction false} CountApart(runs: seq<Run>, p: Run -> bool, q: Run -> bool)
    requires forall i :: 0 <= i < |runs| ==> !(p(runs[i]) && q(runs[i]))
    ensures Count(runs, p) + Count(runs, q) <= |runs|
  {
    if runs != [] {
      CountApart(runs[..|runs| - 1], p, q);
    }
  }

  /** Two runs cannot overlap: an overlap needs a third run that intruded. */
  lemma {:induction false} TwoRunsExclusive(n: nat, events: seq<Event>)
    requires n <= 2
    ensures Count(Execute(Initial(n), events).runs, InCritical) <= 1
  {
    var s := Execute(Initial(n), events);
    OverlapBound(n, events);
    LockInvAlways(n, events);
    CountApart(s.runs, InCritical, Intruded);
  }

  // ---- how a skipped run breaks it

  lemma {:induction false} ExecuteSnoc(s: System, events: seq<Event>, e: Event)
    ensures Execute(s, events + [e]) == Next(Execute(s, events), e)
  {
    assert (events + [e])[..|events|] == events;
  }

  lemma {:induction false} ExecuteConcat(s: System, first: seq<Event>, last: seq<Event>)
    ensures Execute(s, first + last) == Execute(Execute(s, first), last)
  {
    if last == [] {
      assert first + last == first;
    } else {
      assert (first + last)[..|first + last| - 1] == first + last[..|last| - 1];
      ExecuteConcat(s, first, last[..|last| - 1]);
    }
  }

  /** `k` ordinary steps of one run in a row. */
  function Alone(run: nat, k: nat): seq<Event> {
    if k == 0 then [] else Alone(run, k - 1) + [Advance(run, 0)]
  }

  function StepTimes(r: Run, lock: bool, k: nat): (Run, bool) {
    if k == 0 then (r, lock)
    else
      var before := StepTimes(r, lock, k - 1);
      StepRun(before.0, before.1, 0)
  }

  lemma {:induction false} ExecuteAlone(s: System, b: nat, k: nat)
    requires b < |s.runs|
    ensures Execute(s, Alone(b, k))
      == System(s.runs[b := StepTimes(s.runs[b], s.lock, k).0], StepTimes(s.runs[b], s.lock, k).1)
  {
    if k == 0 {
      assert s.runs[b := s.runs[b]] == s.runs;
    } else {
      ExecuteAlone(s, b, k - 1);
      OneMore(s, b, Alone(b, k - 1), StepTimes(s.runs[b], s.lock, k - 1));
    }
  }

  lemma {:induction false} OneMore(s: System, b: nat, events: seq<Event>, mid: (Run, bool))
    requires b < |s.runs|
    requires Execute(s, events) == System(s.runs[b := mid.0], mid.1)
    ensures Execute(s, events + [Advance(b, 0)])
      == System(s.runs[b := StepRun(mid.0, mid.1, 0).0], StepRun(mid.0, mid.1, 0).1)
  {
    ExecuteSnoc(s, events, Advance(b, 0));
    StepAgain(s, b, mid.0, mid.1);
  }

  lemma {:induction false} StepAgain(s: System, b: nat, r: Run, lock: bool)
    requires b < |s.runs|
    ensures Next(System(s.runs[b := r], lock), Advance(b, 0))
      == System(s.runs[b := StepRun(r, lock, 0).0], StepRun(r, lock, 0).1)
  {
    assert s.runs[b := r][b := StepRun(r, lock, 0).0] == s.runs[b := StepRun(r, lock, 0).0];
  }

  lemma {:induction false} StepOnce(r: Run, lock: bool, k: nat, mid: Run, midLock: bool)
    requires StepTimes(r, lock, k) == (mid, midLock)
    ensures StepTimes(r, lock, k + 1) == StepRun(mid, midLock, 0)
  {
  }

  /** A run that finds the lock taken skips, and its own trap then removes the lock, all within five steps. */
  lemma {:induction false} SkipSteps(r: Run)
    requires RunInv(r) && r.pc == LockNamed
    ensures !StepTimes(r, true, 5).1
  {
    var r1 := r.(pc := Skipping);
    var r2 := r.(pc := Exiting(0));
    var r3 := r.(pc := ExitFlagged(0), finishReported := true);
    var r4 := r.(pc := Unlocking(0), finishReported := true);
    StepOnce(r, true, 0, r, true);
    StepOnce(r, true, 1, r1, true);
    StepOnce(r, true, 2, r2, true);
    StepOnce(r, true, 3, r3, true);
    StepOnce(r, true, 4, r4, true);
  }

  /** Whenever one run is inside, a second is about to try the lock and a third waits to try it, six ordinary steps,
      with no signal and no failure, put the first and the third inside together. */
  lemma {:induction false} SkipLetsAnotherIn(s: System, a: nat, b: nat, c: nat)
    requires a < |s.runs| && b < |s.runs| && c < |s.runs| && a != b && b != c && a != c
    requires LockInv(s) && s.lock
    requires InCritical(s.runs[a]) && s.runs[b].pc == LockNamed && s.runs[c].pc == LockNamed
    ensures var t := Execute(s, Alone(b, 5) + Alone(c, 1));
      |t.runs| == |s.runs| && InCritical(t.runs[a]) && InCritical(t.runs[c])
  {
    assert RunInv(s.runs[b]) && RunInv(s.runs[c]);
    var t := Execute(s, Alone(b, 5));
    ExecuteAlone(s, b, 5);
    SkipSteps(s.runs[b]);
    ExecuteAlone(t, c, 1);
    ExecuteConcat(s, Alone(b, 5), Alone(c, 1));
    assert StepTimes(t.runs[c], t.lock, 1) == StepRun(t.runs[c], t.lock, 0);
  }

  /** Three runs get there from the start. */
  function OverlapEvents(): seq<Event> {
    Alone(1, 2) + (Alone(2, 2) + Alone(0, 3))
  }

  const NAMED := FRESH.(pc := LockNamed, lockDir := true)
  const INSIDE := NAMED.(pc := Acquired, acquired := true)

  lemma {:induction false} FreshSteps()
    ensures StepTimes(FRESH, false, 2) == (NAMED, false)
    ensures StepTimes(FRESH, false, 3) == (INSIDE, true)
  {
    StepOnce(FRESH, false, 0, FRESH, false);
    StepOnce(FRESH, false, 1, FRESH.(pc := Ready), false);
    StepOnce(FRESH, false, 2, NAMED, false);
  }

  lemma {:induction false} OverlapStart(n: nat)
    requires n >= 3
    ensures var s := Execute(Initial(n), OverlapEvents());
      |s.runs| == n && s.lock && InCritical(s.runs[0]) && s.runs[1].pc == LockNamed && s.runs[2].pc == LockNamed
  {
    var s := Initial(n);
    FreshSteps();
    ExecuteAlone(s, 1, 2);
    var s1 := Execute(s, Alone(1, 2));
    assert s1 == System(s.runs[1 := NAMED], false);
    ExecuteAlone(s1, 2, 2);
    var s2 := Execute(s1, Alone(2, 2));
    assert s2 == System(s1.runs[2 := NAMED], false);
    ExecuteAlone(s2, 0, 3);
    assert Execute(s2, Alone(0, 3)) == System(s2.runs[0 := INSIDE], true);
    ExecuteConcat(s1, Alone(2, 2), Alone(0, 3));
    ExecuteConcat(s, Alone(1, 2), Alone(2, 2) + Alone(0, 3));
  }

  lemma {:induction false} ThreeRunsOverlap(n: nat)
    requires n >= 3
    ensures Count(Execute(Initial(n), OverlapEvents() + (Alone(1, 5) + Alone(2, 1))).runs, InCritical) >= 2
  {
    var s := Execute(Initial(n), OverlapEvents());
    OverlapStart(n);
    LockInvAlways(n, OverlapEvents());
    SkipLetsAnotherIn(s, 0, 1, 2);
    ExecuteConcat(Initial(n), OverlapEvents(), Alone(1, 5) + Alone(2, 1));
    var t := Execute(s, Alone(1, 5) + Alone(2, 1));
    CountTwo(t.runs, InCritical, 0, 2);
  }

  /** Mutual exclusion, exactly: `forbid` keeps every interleaving of n runs from overlapping if and only if n is at
      most two. */
  lemma {:induction false} ExclusionExactly(n: nat)
    ensures (forall events :: Count(Execute(Initial(n), events).runs, InCritical) <= 1) <==> n <= 2
  {
    if n <= 2 {
      forall events ensures Count(Execute(Initial(n), events).runs, InCritical) <= 1 {
        TwoRunsExclusive(n, events);
      }
    } else {
      ThreeRunsOverlap(n);
    }
  }

  // ---- finish reports

  /** At most one finish report per run, only by a run that was marked started, and none by a run that was skipped. */
  lemma {:induction false} FinishAtMostOnce(n: nat, events: seq<Event>, i: nat)
    requires i < n
    ensures |Execute(Initial(n), events).runs| == n
    ensures var r := Execute(Initial(n), events).runs[i];
      |r.reports| <= 1 && (r.reports != [] ==> r.runStarted) && (!r.acquired ==> r.reports == [])
  {
    LockInvAlways(n, events);
    assert RunInv(Execute(Initial(n), events).runs[i]);
  }

  /** Nothing but its own steps happened to the run. */
  predicate Undisturbed(events: seq<Event>, i: nat) {
    forall k :: 0 <= k < |events| && events[k].run == i ==> events[k].Advance?
  }

  /** The steps that a run takes itself. */
  function OwnSteps(events: seq<Event>, i: nat): nat {
    if events == [] then 0
    else
      var e := events[|events| - 1];
      OwnSteps(events[..|events| - 1], i) + if e.run == i && e.Advance? then 1 else 0
  }

  /** The most steps that a run can still take. */
  function StepsLeft(r: Run): nat {
    match r.pc
    case Init => 11
    case Ready => 10
    case LockNamed => 9
    case Acquired => 8
    case Running => 7
    case CommandDone(_) => 6
    case FinishFlagged(_) => 5
    case FinishDone(_) => 4
    case Skipping => 5
    case Exiting(_) => if r.finishReported then 3 else 4
    case ExitFlagged(_) => 3
    case Unlocking(_) => 2
    case Cleaning(_) => 1
    case Gone(_) => 0
    case Killed => 0
  }

  /** Where an undisturbed run stands determines what it has reported. */
  predicate CalmRun(r: Run) {
    && (r.pc in {Init, Ready, LockNamed, Skipping} ==> !r.acquired && r.command == [])
    && (r.pc in {Acquired, Running} ==> r.acquired && r.command == [])
    && (r.pc.CommandDone? || r.pc.FinishFlagged? ==> r.command == [r.pc.status] && r.reports == [] && r.acquired)
    && (r.pc.FinishDone? ==> r.command == r.reports == [r.pc.status] && r.finishReported && r.acquired)
    && (r.pc.Exiting? || r.pc.ExitFlagged? || r.pc.Unlocking? || r.pc.Cleaning? || r.pc.Gone? ==>
          && r.lockDir
          && if r.acquired then r.command == r.reports == [r.pc.status] && r.finishReported
             else r.command == r.reports == [] && r.pc.status == 0)
    && (r.pc.ExitFlagged? ==> !r.acquired)
    && (r.pc.FinishDone? || r.pc.Skipping? ==> r.lockDir)
    && (r.pc.Cleaning? || r.pc.Gone? ==> r.unlocked)
    && r.pc != Killed
  }

  lemma {:induction false} CalmStep(r: Run, lock: bool, choice: int)
    requires CalmRun(r) && RunInv(r)
    ensures CalmRun(StepRun(r, lock, choice).0)
    ensures r.pc.Gone? || StepsLeft(StepRun(r, lock, choice).0) < StepsLeft(r)
  {
  }

  lemma {:induction false} CalmAlways(n: nat, events: seq<Event>, i: nat)
    requires i < n && Undisturbed(events, i)
    ensures |Execute(Initial(n), events).runs| == n && CalmRun(Execute(Initial(n), events).runs[i])
    ensures var r := Execute(Initial(n), events).runs[i]; r.pc.Gone? || StepsLeft(r) + OwnSteps(events, i) <= 11
  {
    if events != [] {
      var init, e := events[..|events| - 1], events[|events| - 1];
      CalmAlways(n, init, i);
      LockInvAlways(n, init);
      var s := Execute(Initial(n), init);
      assert RunInv(s.runs[i]);
      if e.run == i {
        assert events[|events| - 1].Advance?;
        CalmStep(s.runs[i], s.lock, e.choice);
      }
    }
  }

  /** A run that nothing disturbs leaves within eleven of its own steps. If it got the lock, it ends with its command's
      status and has reported exactly that; otherwise it ran nothing, reported nothing and ends with 0. Either way its
      trap removed the directory. */
  lemma {:induction false} FinishReportsStatus(n: nat, events: seq<Event>, i: nat)
    requires i < n && Undisturbed(events, i)
    ensures |Execute(Initial(n), events).runs| == n
    ensures var r := Execute(Initial(n), events).runs[i];
      && (OwnSteps(events, i) >= 11 ==> r.pc.Gone?)
      && (r.pc.Gone? ==>
            && r.unlocked
            && if r.acquired then r.command == r.reports == [r.pc.status]
               else r.command == r.reports == [] && r.pc.status == 0)
  {
    CalmAlways(n, events, i);
  }
}
