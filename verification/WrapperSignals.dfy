/** What a signal does to one run of the wrapper, wherever it strikes and whatever the other runs do meanwhile. */
module WrapperSignals {
  import opened WrapperLock

  /** The traps are set and the EXIT trap has not begun. */
  predicate BeforeTrap(pc: Pc) {
    || pc in {Ready, LockNamed, Skipping, Acquired, Running}
    || pc.CommandDone? || pc.FinishFlagged? || pc.FinishDone?
  }

  /** The run has set `RUN_STARTED`. */
  predicate Started(pc: Pc) {
    pc == Running || pc.CommandDone? || pc.FinishFlagged? || pc.FinishDone?
  }

  /** Before the trap begins, the place in the script determines every variable. */
  predicate OnCourse(r: Run) {
    && (r.lockDir <==> r.pc != Init && r.pc != Ready)
    && (r.runStarted <==> Started(r.pc))
    && !r.unlocked
    && (r.finishReported <==> r.pc.FinishFlagged? || r.pc.FinishDone?)
    && (r.pc.FinishDone? ==> r.command == r.reports == [r.pc.status])
    && (r.pc.CommandDone? || r.pc.FinishFlagged? ==> r.command == [r.pc.status])
    && (!r.pc.FinishDone? ==> r.reports == [])
  }

  predicate Course(r: Run) {
    r.pc == Init || BeforeTrap(r.pc) ==> OnCourse(r)
  }

  lemma {:induction false} CourseStep(r: Run, lock: bool, choice: int)
    requires Course(r)
    ensures Course(StepRun(r, lock, choice).0)
  {
  }

  lemma {:induction false} CourseCut(r: Run, status: int)
    requires Course(r)
    ensures Course(InterruptRun(r, status)) && Course(r.(pc := Killed))
  {
  }

  /** No event brings a run back to before its trap. */
  lemma {:induction false} CourseKept(s: System, e: Event, i: nat)
    requires i < |s.runs| && Course(s.runs[i])
    ensures |Next(s, e).runs| == |s.runs| && Course(Next(s, e).runs[i])
  {
    var r := s.runs[i];
    CourseStep(r, s.lock, if e.Advance? then e.choice else 0);
    CourseCut(r, if e.Interrupt? then e.status else 0);
  }

  lemma {:induction false} CourseAlways(n: nat, events: seq<Event>, i: nat)
    requires i < n
    ensures |Execute(Initial(n), events).runs| == n
    ensures Course(Execute(Initial(n), events).runs[i])
  {
    if events != [] {
      var init := events[..|events| - 1];
      CourseAlways(n, init, i);
      CourseKept(Execute(Initial(n), init), events[|events| - 1], i);
    }
  }

  // ---- one signal

  /** The steps that the trap has still to take. */
  function TrapLeft(pc: Pc): nat {
    if pc.Exiting? then 4 else if pc.ExitFlagged? then 3 else if pc.Unlocking? then 2 else if pc.Cleaning? then 1 else 0
  }

  /** What the run will have reported, given where the signal struck. */
  function ReportsAfter(struck: Pc, status: int): seq<int> {
    match struck
    case Running => [status]
    case CommandDone(_) => [status]
    case FinishDone(s) => [s]
    case _ => []
  }

  /** A run that a signal struck at `struck`, on its way through the trap. */
  predicate InTrap(r: Run, struck: Pc, status: int) {
    && (r.pc.Exiting? || r.pc.ExitFlagged? || r.pc.Unlocking? || r.pc.Cleaning? || r.pc.Gone?) && r.pc.status == status
    && (r.lockDir <==> struck != Ready)
    && (r.runStarted <==> Started(struck))
    && (r.pc.Exiting? ==> (r.finishReported <==> struck.FinishFlagged? || struck.FinishDone?))
    && (r.pc.ExitFlagged? ==> !struck.FinishFlagged? && !struck.FinishDone?)
    && (r.pc.Exiting? || r.pc.ExitFlagged? ==> r.reports == if struck.FinishDone? then [struck.status] else [])
    && (r.pc.Unlocking? || r.pc.Cleaning? || r.pc.Gone? ==> r.reports == ReportsAfter(struck, status))
    && (r.pc.Exiting? || r.pc.ExitFlagged? || r.pc.Unlocking? ==> !r.unlocked)
    && (r.pc.Cleaning? || r.pc.Gone? ==> (r.unlocked <==> struck != Ready))
  }

  lemma {:induction false} TrapStep(r: Run, lock: bool, choice: int, struck: Pc, status: int)
    requires BeforeTrap(struck) && InTrap(r, struck, status)
    ensures var next := StepRun(r, lock, choice).0;
      InTrap(next, struck, status) && (TrapLeft(next.pc) < TrapLeft(r.pc) || next.pc.Gone?)
  {
  }

  lemma {:induction false} StruckRun(r: Run, status: int)
    requires BeforeTrap(r.pc) && OnCourse(r)
    ensures InTrap(InterruptRun(r, status), r.pc, status)
  {
  }

  lemma {:induction false} TrapRuns(s: System, i: nat, after: seq<Event>, struck: Pc, status: int)
    requires i < |s.runs| && BeforeTrap(struck) && InTrap(s.runs[i], struck, status) && Undisturbed(after, i)
    ensures |Execute(s, after).runs| == |s.runs| && InTrap(Execute(s, after).runs[i], struck, status)
    ensures Execute(s, after).runs[i].pc.Gone? || TrapLeft(Execute(s, after).runs[i].pc) + OwnSteps(after, i) <= 4
  {
    if after != [] {
      var init, e := after[..|after| - 1], after[|after| - 1];
      TrapRuns(s, i, init, struck, status);
      var t := Execute(s, init);
      if e.run == i {
        assert e.Advance?;
        TrapStep(t.runs[i], t.lock, e.choice, struck, status);
      }
    }
  }

  /** The run of `i` when a signal strikes, and some time later. */
  lemma {:induction false} SplitAt(n: nat, before: seq<Event>, e: Event, after: seq<Event>)
    ensures Execute(Initial(n), before + [e] + after) == Execute(Next(Execute(Initial(n), before), e), after)
  {
    ExecuteConcat(Initial(n), before + [e], after);
    ExecuteSnoc(Initial(n), before, e);
  }

  /** A run that one signal strikes before its trap has begun, and that afterwards only advances, leaves within four
      of its own steps, with the signal's status. It removes the lock directory if it had named it, and it has
      reported what its command returned if that was reported already, the signal's status if it was marked started,
      and nothing if it was not. One case breaks the rule that a started run reports once: between setting
      `FINISH_REPORTED` and reporting, a signal loses the report. */
  lemma {:induction false} SignalledRunLeaves(n: nat, before: seq<Event>, i: nat, status: int, after: seq<Event>)
    requires i < n && i < |Execute(Initial(n), before).runs| && BeforeTrap(Execute(Initial(n), before).runs[i].pc)
    requires Undisturbed(after, i)
    ensures |Execute(Initial(n), before + [Interrupt(i, status)] + after).runs| == n
    ensures var was := Execute(Initial(n), before).runs[i];
      var r := Execute(Initial(n), before + [Interrupt(i, status)] + after).runs[i];
      && r.pc != Killed && (OwnSteps(after, i) >= 4 ==> r.pc.Gone?)
      && (r.pc.Gone? ==> r.pc.status == status && (r.unlocked <==> was.pc != Ready))
      && (r.pc.Gone? ==> r.reports == ReportsAfter(was.pc, status))
      && (r.pc.Gone? ==> (|r.reports| == 1 <==> was.runStarted && !was.pc.FinishFlagged?))
  {
    var s := Execute(Initial(n), before);
    CourseAlways(n, before, i);
    StruckRun(s.runs[i], status);
    SplitAt(n, before, Interrupt(i, status), after);
    TrapRuns(Next(s, Interrupt(i, status)), i, after, s.runs[i].pc, status);
  }

  /** The command has returned 0, the finish is flagged, and TERM arrives: the run is never reported. */
  lemma {:induction false} ReportLost()
    ensures var s := Execute(Initial(1), Alone(0, 6) + [Interrupt(0, 143)] + Alone(0, 4));
      && |s.runs| == 1 && s.runs[0].pc == Gone(143)
      && s.runs[0].runStarted && s.runs[0].command == [0] && s.runs[0].reports == []
  {
    var s, struck := Initial(1), Execute(Initial(1), Alone(0, 6));
    ExecuteAlone(s, 0, 6);
    FlaggedSteps();
    assert struck.runs[0] == FLAGGED;
    SplitAt(1, Alone(0, 6), Interrupt(0, 143), Alone(0, 4));
    var t := Next(struck, Interrupt(0, 143));
    assert t.runs == [FLAGGED.(pc := Exiting(143))];
    ExecuteAlone(t, 0, 4);
    FlaggedTrap(t.lock);
  }

  const FLAGGED := INSIDE.(pc := FinishFlagged(0), runStarted := true, finishReported := true, command := [0])

  lemma {:induction false} FlaggedSteps()
    ensures StepTimes(FRESH, false, 6).0 == FLAGGED
  {
    FreshSteps();
    var running := INSIDE.(pc := Running, runStarted := true);
    StepOnce(FRESH, false, 3, INSIDE, true);
    StepOnce(FRESH, false, 4, running, true);
    StepOnce(FRESH, false, 5, running.(pc := CommandDone(0), command := [0]), true);
  }

  lemma {:induction false} FlaggedTrap(lock: bool)
    ensures StepTimes(FLAGGED.(pc := Exiting(143)), lock, 4).0 == FLAGGED.(pc := Gone(143), unlocked := true)
  {
    var r := FLAGGED.(pc := Exiting(143));
    StepOnce(r, lock, 0, r, lock);
    StepOnce(r, lock, 1, r.(pc := Unlocking(143)), lock);
    StepOnce(r, lock, 2, r.(pc := Cleaning(143), unlocked := true), false);
    StepOnce(r, lock, 3, r.(pc := Gone(143), unlocked := true), false);
  }

  // ---- what cannot be cleaned up

  /** The event ends the run on the spot: a kill, a signal before the traps are set, or a second signal inside the
      trap. */
  predicate CutsShort(pc: Pc, e: Event) {
    || (e.Kill? && !pc.Gone?)
    || (e.Interrupt? && (pc == Init || pc.Exiting? || pc.ExitFlagged? || pc.Unlocking? || pc.Cleaning?))
  }

  /** A run that is cut short does nothing more, whatever happens later: it reports nothing further, and if it had
      the lock and had not removed the directory, it never will. */
  lemma {:induction false} CutShortForGood(n: nat, before: seq<Event>, e: Event, after: seq<Event>)
    requires e.run < n && e.run < |Execute(Initial(n), before).runs|
    requires CutsShort(Execute(Initial(n), before).runs[e.run].pc, e)
    ensures |Execute(Initial(n), before + [e] + after).runs| == n
    ensures var was := Execute(Initial(n), before).runs[e.run];
      var r := Execute(Initial(n), before + [e] + after).runs[e.run];
      && (r.pc == Killed || (e.Interrupt? && r.pc == Gone(e.status)))
      && r.reports == was.reports && (Holds(r) <==> Holds(was))
  {
    var s := Execute(Initial(n), before);
    LockInvAlways(n, before);
    SplitAt(n, before, e, after);
    EndsAt(s, e);
    StaysEnded(Next(s, e), e.run, after);
  }

  lemma {:induction false} EndsAt(s: System, e: Event)
    requires e.run < |s.runs| && CutsShort(s.runs[e.run].pc, e)
    ensures |Next(s, e).runs| == |s.runs|
    ensures var was, r := s.runs[e.run], Next(s, e).runs[e.run];
      && (r.pc == Killed || (e.Interrupt? && r.pc == Gone(e.status))) && r == was.(pc := r.pc)
  {
  }

  lemma {:induction false} StaysEnded(s: System, i: nat, after: seq<Event>)
    requires i < |s.runs| && (s.runs[i].pc.Gone? || s.runs[i].pc.Killed?)
    ensures |Execute(s, after).runs| == |s.runs| && Execute(s, after).runs[i] == s.runs[i]
  {
    if after != [] {
      StaysEnded(s, i, after[..|after| - 1]);
    }
  }
}
