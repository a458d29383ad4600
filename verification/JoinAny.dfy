/** 30_Thread_Synchronhization/join_any.c: main joins its threads in the order they end.

    Each thread counts itself under `mtx`, marks itself UNJOINED under its own mutex and
    signals `cond`; main waits on `cond` and joins every marked thread it finds in a scan,
    holding `mtx` and the thread's mutex while it joins. */
module JoinAny {
  import opened Collections

  datatype Who = Main | Thread(id: nat) | Spurious  // Spurious: pthread_cond_wait() returns by itself

  datatype ThreadState = UNJOINED | JOINED | ALIVE

  datatype ThreadPc =
    | Unborn
    | LockMtx
    | Increment   // holds mtx
    | UnlockMtx   // holds mtx; has incremented total_unjoined
    | LockOwn
    | Mark        // holds its own mutex
    | UnlockOwn   // holds its own mutex; its state is UNJOINED
    | Signal
    | Exited

  datatype MainPc =
    | Create(i: nat)
    | LockMtx
    | Test         // holds mtx; while (total_unjoined == 0)
    | Waiting      // asleep in pthread_cond_wait(), which released mtx
    | Woken        // must lock mtx again before pthread_cond_wait() returns
    | ScanLock(i: nat)
    | ScanTest(i: nat)    // holds mtx and thread i's mutex, as the next three do
    | Join(i: nat)
    | Account(i: nat)
    | ScanUnlock(i: nat)
    | UnlockMtx
    | Check
    | Finished

  datatype ThreadInfo = ThreadInfo(pc: ThreadPc, state: ThreadState, lock: Option<Who>)

  /** `joins` records the calls of pthread_join(). */
  datatype State = State(threads: seq<ThreadInfo>, main: MainPc, mtx: Option<Who>, totalUnjoined: int,
                         totalJoined: int, joins: seq<nat>)

  ghost function With(s: State, i: nat, t: ThreadInfo): State
    requires i < |s.threads|
  {
    s.(threads := s.threads[i := t])
  }

  ghost function ThreadStep(s: State, i: nat): Option<State>
    requires i < |s.threads|
  {
    var t := s.threads[i];
    match t.pc
    case Unborn => None
    case LockMtx => if s.mtx.Some? then None else Some(With(s, i, t.(pc := Increment)).(mtx := Some(Thread(i))))
    case Increment => Some(With(s, i, t.(pc := ThreadPc.UnlockMtx)).(totalUnjoined := s.totalUnjoined + 1))
    case UnlockMtx => Some(With(s, i, t.(pc := LockOwn)).(mtx := None))
    case LockOwn => if t.lock.Some? then None else Some(With(s, i, t.(pc := Mark, lock := Some(Thread(i)))))
    case Mark => Some(With(s, i, t.(pc := UnlockOwn, state := UNJOINED)))
    case UnlockOwn => Some(With(s, i, t.(pc := Signal, lock := None)))
    case Signal => Some(With(s, i, t.(pc := Exited)).(main := if s.main.Waiting? then Woken else s.main))
    case Exited => None
  }

  ghost function MainStep(s: State): Option<State> {
    var n := |s.threads|;
    match s.main
    case Create(i) =>
      if i >= n then Some(s.(main := MainPc.LockMtx))
      else Some(With(s, i, ThreadInfo(ThreadPc.LockMtx, ALIVE, None)).(main := Create(i + 1)))
    case LockMtx => if s.mtx.Some? then None else Some(s.(main := Test, mtx := Some(Main)))
    case Test => if s.totalUnjoined == 0 then Some(s.(main := Waiting, mtx := None)) else Some(s.(main := ScanLock(0)))
    case Waiting => None
    case Woken => if s.mtx.Some? then None else Some(s.(main := Test, mtx := Some(Main)))
    case ScanLock(i) =>
      if i >= n then Some(s.(main := MainPc.UnlockMtx))
      else if s.threads[i].lock.Some? then None
      else Some(With(s, i, s.threads[i].(lock := Some(Main))).(main := ScanTest(i)))
    case ScanTest(i) =>
      if i >= n then None
      else Some(s.(main := if s.threads[i].state == UNJOINED then Join(i) else ScanUnlock(i)))
    case Join(i) =>
      if i >= n || s.threads[i].pc != Exited then None  // pthread_join() blocks
      else Some(s.(main := Account(i), joins := s.joins + [i]))
    case Account(i) =>
      if i >= n then None
      else Some(With(s, i, s.threads[i].(state := JOINED)).(main := ScanUnlock(i),
                totalUnjoined := s.totalUnjoined - 1, totalJoined := s.totalJoined + 1))
    case ScanUnlock(i) =>
      if i >= n then None
      else Some(With(s, i, s.threads[i].(lock := None)).(main := ScanLock(i + 1)))
    case UnlockMtx => Some(s.(main := Check, mtx := None))
    case Check => Some(s.(main := if s.totalJoined == n then Finished else MainPc.LockMtx))
    case Finished => None
  }

  ghost function Step(s: State, who: Who): Option<State> {
    match who
    case Main => MainStep(s)
    case Thread(i) => if i < |s.threads| then ThreadStep(s, i) else None
    case Spurious => if s.main.Waiting? then Some(s.(main := Woken)) else None
  }

  /** The thread list as malloc() left it; argc > 1 is checked by main. */
  ghost predicate Initial(s: State) {
    && |s.threads| > 0 && s.main == Create(0) && s.mtx == None
    && s.totalUnjoined == 0 && s.totalJoined == 0 && s.joins == []
    && forall i :: 0 <= i < |s.threads| ==> s.threads[i].pc == Unborn
  }

  /** The state a schedule leads to, if each of its steps can be taken. */
  ghost function Run(init: State, schedule: seq<Who>): Option<State> {
    if schedule == [] then Some(init)
    else
      var before := Run(init, schedule[..|schedule| - 1]);
      if before.None? then None else Step(before.value, schedule[|schedule| - 1])
  }

  // ---------- counting ----------

  /** Has incremented total_unjoined and is not yet JOINED. */
  ghost predicate Counted(t: ThreadInfo) {
    && !t.pc.Unborn? && !t.pc.LockMtx? && !t.pc.Increment? && t.state != JOINED
  }

  ghost predicate IsJoined(t: ThreadInfo) {
    !t.pc.Unborn? && t.state == JOINED
  }

  // ---------- the invariant ----------

  ghost predicate MainHoldsMtx(m: MainPc) {
    m.Test? || m.ScanLock? || m.ScanTest? || m.Join? || m.Account? || m.ScanUnlock? || m.UnlockMtx?
  }

  /** Main holds the mutex of thread i. */
  ghost predicate MainHolds(m: MainPc, i: nat) {
    (m.ScanTest? || m.Join? || m.Account? || m.ScanUnlock?) && m.i == i
  }

  ghost predicate ThreadOk(s: State, i: nat)
    requires i < |s.threads|
  {
    var t := s.threads[i];
    && (t.pc.Unborn? <==> s.main.Create? && s.main.i <= i)
    && (s.mtx == Some(Thread(i)) <==> t.pc.Increment? || t.pc.UnlockMtx?)
    && (!t.pc.Unborn? ==>
        && t.lock == (if t.pc.Mark? || t.pc.UnlockOwn? then Some(Thread(i))
                      else if MainHolds(s.main, i) then Some(Main) else None)
        && (t.state == ALIVE <==> t.pc.LockMtx? || t.pc.Increment? || t.pc.UnlockMtx? || t.pc.LockOwn? || t.pc.Mark?)
        && (t.state == JOINED ==> t.pc.Exited? && i in s.joins))
    // no lost wake-up: while main sleeps, whoever is counted has its signal still to send
    && (s.main.Waiting? && Counted(t) ==> !t.pc.Exited?)
    && (MainHolds(s.main, i) ==> !t.pc.Mark? && !t.pc.UnlockOwn?)
  }

  ghost predicate MainOk(s: State) {
    && (s.mtx == Some(Main) <==> MainHoldsMtx(s.main))
    && (s.mtx.Some? ==> s.mtx.value.Main? || (s.mtx.value.Thread? && s.mtx.value.id < |s.threads|))
    && ((s.main.Create? || s.main.ScanLock?) ==> s.main.i <= |s.threads|)
    && ((s.main.ScanTest? || s.main.Join? || s.main.Account? || s.main.ScanUnlock?) ==> s.main.i < |s.threads|)
    && (s.main.Join? || s.main.Account? ==> s.threads[s.main.i].state == UNJOINED)
    && (s.main.Account? ==> s.threads[s.main.i].pc.Exited?)
    && (s.main.LockMtx? || s.main.Test? || s.main.Waiting? || s.main.Woken? || s.main.Create? ==>
          s.totalJoined < |s.threads|)
    && (s.main.Finished? ==> s.totalJoined == |s.threads|)
  }

  /** pthread_join() was called once for each joined thread and, between its return and the
      bookkeeping, for the thread at hand. */
  ghost predicate JoinsOk(s: State) {
    && (forall a, b :: 0 <= a < b < |s.joins| ==> s.joins[a] != s.joins[b])
    && (forall i :: i in s.joins ==> i < |s.threads| && (IsJoined(s.threads[i]) || s.main == Account(i)))
    && (s.main.Account? ==> s.main.i in s.joins)
  }

  ghost predicate Inv(s: State) {
    && |s.threads| > 0
    && (forall i :: 0 <= i < |s.threads| ==> ThreadOk(s, i))
    && MainOk(s)
    && JoinsOk(s)
    && s.totalUnjoined == Count(s.threads, Counted)
    && s.totalJoined == Count(s.threads, IsJoined)
  }

  lemma InitialInv(s: State)
    requires Initial(s)
    ensures Inv(s)
  {
    CountAll(s.threads, Counted);
    CountAll(s.threads, IsJoined);
  }

  /** What a step changes: one thread, main's place, and the rest of the state. */
  lemma ThreadStepSelf(s: State, i: nat)
    requires i < |s.threads| && ThreadOk(s, i) && MainOk(s) && ThreadStep(s, i).Some?
    ensures ThreadOk(ThreadStep(s, i).value, i)
  {
  }

  lemma ThreadStepOther(s: State, i: nat, j: nat)
    requires i < |s.threads| && j < |s.threads| && i != j && ThreadOk(s, i) && ThreadOk(s, j) && ThreadStep(s, i).Some?
    ensures ThreadOk(ThreadStep(s, i).value, j)
  {
  }

  lemma ThreadStepOk(s: State, i: nat, j: nat)
    requires Inv(s) && i < |s.threads| && ThreadStep(s, i).Some? && j < |s.threads|
    ensures |ThreadStep(s, i).value.threads| == |s.threads| && ThreadOk(ThreadStep(s, i).value, j)
  {
    assert |ThreadStep(s, i).value.threads| == |s.threads|;
    assert ThreadOk(s, i) && ThreadOk(s, j);
    hide Count, ThreadOk, MainOk, JoinsOk, ThreadStep;
    if i == j {
      ThreadStepSelf(s, i);
    } else {
      ThreadStepOther(s, i, j);
    }
  }

  lemma ThreadStepMain(s: State, i: nat)
    requires Inv(s) && i < |s.threads| && ThreadStep(s, i).Some?
    ensures MainOk(ThreadStep(s, i).value) && JoinsOk(ThreadStep(s, i).value)
  {
    assert ThreadOk(s, i);
    hide Count;
  }

  lemma ThreadStepCounted(s: State, i: nat)
    requires i < |s.threads| && ThreadOk(s, i) && ThreadStep(s, i).Some?
    ensures var s' := ThreadStep(s, i).value; var t, t' := s.threads[i], s'.threads[i];
            && s'.threads == s.threads[i := t'] && s'.totalJoined == s.totalJoined && IsJoined(t') == IsJoined(t)
            && s'.totalUnjoined == s.totalUnjoined - (if Counted(t) then 1 else 0) + (if Counted(t') then 1 else 0)
  {
  }

  lemma ThreadStepCounts(s: State, i: nat)
    requires Inv(s) && i < |s.threads| && ThreadStep(s, i).Some?
    ensures var s' := ThreadStep(s, i).value;
            s'.totalUnjoined == Count(s'.threads, Counted) && s'.totalJoined == Count(s'.threads, IsJoined)
  {
    var s' := ThreadStep(s, i).value;
    assert ThreadOk(s, i);
    hide ThreadOk, MainOk, JoinsOk, Count, ThreadStep;
    ThreadStepCounted(s, i);
    CountUpdate(s.threads, Counted, i, s'.threads[i]);
    CountUpdate(s.threads, IsJoined, i, s'.threads[i]);
    hide Counted, IsJoined;
  }

  lemma ThreadStepKeepsInv(s: State, i: nat)
    requires Inv(s) && i < |s.threads| && ThreadStep(s, i).Some?
    ensures Inv(ThreadStep(s, i).value)
  {
    var s' := ThreadStep(s, i).value;
    assert |s'.threads| == |s.threads|;
    ThreadStepCounts(s, i);
    ThreadStepMain(s, i);
    forall j | 0 <= j < |s'.threads| ensures ThreadOk(s', j) {
      ThreadStepOk(s, i, j);
    }
    hide MainOk, JoinsOk, ThreadOk, Count, ThreadStep;
  }

  lemma MainStepOk(s: State, j: nat)
    requires Inv(s) && MainStep(s).Some? && j < |s.threads|
    ensures |MainStep(s).value.threads| == |s.threads| && ThreadOk(MainStep(s).value, j)
  {
    assert ThreadOk(s, j);
    if s.main.Test? {
      CountAll(s.threads, Counted);
    }
    hide Count, IsJoined;
  }

  lemma MainStepMain(s: State)
    requires Inv(s) && MainStep(s).Some?
    ensures MainOk(MainStep(s).value)
  {
    assert s.totalJoined <= |s.threads|;
    hide Count, JoinsOk;
  }

  lemma MainStepJoins(s: State)
    requires Inv(s) && MainStep(s).Some?
    ensures JoinsOk(MainStep(s).value)
  {
    if s.main.Create? && s.main.i < |s.threads| {
      assert ThreadOk(s, s.main.i);
    }
    hide Count, ThreadOk;
  }

  lemma MainStepCounts(s: State)
    requires Inv(s) && MainStep(s).Some?
    ensures var s' := MainStep(s).value;
            s'.totalUnjoined == Count(s'.threads, Counted) && s'.totalJoined == Count(s'.threads, IsJoined)
  {
    var s' := MainStep(s).value;
    if s.main.Create? || s.main.ScanLock? || s.main.Account? || s.main.ScanUnlock? {
      var i := s.main.i;
      if i < |s.threads| {
        CountUpdate(s.threads, Counted, i, s'.threads[i]);
        CountUpdate(s.threads, IsJoined, i, s'.threads[i]);
        assert ThreadOk(s, i);
      }
    }
    hide JoinsOk, Count;
  }

  lemma StepKeepsInv(s: State, who: Who)
    requires Inv(s) && Step(s, who).Some?
    ensures Inv(Step(s, who).value) && |Step(s, who).value.threads| == |s.threads|
  {
    var s' := Step(s, who).value;
    match who
    case Main =>
      assert |s'.threads| == |s.threads|;
      MainStepMain(s);
      MainStepJoins(s);
      MainStepCounts(s);
      forall j | 0 <= j < |s'.threads| ensures ThreadOk(s', j) {
        MainStepOk(s, j);
      }
      hide MainOk, JoinsOk, ThreadOk, Count, MainStep;
    case Thread(i) =>
      ThreadStepKeepsInv(s, i);
      hide Inv;
    case Spurious =>
      forall j | 0 <= j < |s.threads| ensures ThreadOk(s', j) {
        assert ThreadOk(s, j);
      }
  }

  lemma {:induction false} RunKeepsInv(init: State, schedule: seq<Who>)
    requires Initial(init) && Run(init, schedule).Some?
    ensures Inv(Run(init, schedule).value) && |Run(init, schedule).value.threads| == |init.threads|
  {
    if schedule == [] {
      InitialInv(init);
    } else {
      var before := schedule[..|schedule| - 1];
      RunKeepsInv(init, before);
      StepKeepsInv(Run(init, before).value, schedule[|schedule| - 1]);
    }
  }

  // ---------- the results ----------

  lemma SomeMember(ts: seq<ThreadInfo>, p: ThreadInfo -> bool) returns (i: nat)
    requires Count(ts, p) > 0
    ensures i < |ts| && p(ts[i])
  {
    CountAll(ts, p);
    i :| 0 <= i < |ts| && p(ts[i]);
  }

  /** The counter is exact, and a thread is joined at most once, after it marked itself and ended. */
  lemma CountersAndJoins(init: State, schedule: seq<Who>)
    requires Initial(init) && Run(init, schedule).Some?
    ensures var s := Run(init, schedule).value;
            && s.totalUnjoined == Count(s.threads, Counted)
            && s.totalJoined == Count(s.threads, IsJoined)
            && (forall a, b :: 0 <= a < b < |s.joins| ==> s.joins[a] != s.joins[b])
            && (forall i :: i in s.joins ==>
                  i < |s.threads| && s.threads[i].pc.Exited? && s.threads[i].state in {UNJOINED, JOINED})
            && (s.main.Join? ==>
                  s.main.i < |s.threads| && s.main.i !in s.joins && s.threads[s.main.i].state == UNJOINED)
  {
    RunKeepsInv(init, schedule);
    var s := Run(init, schedule).value;
    forall i | i in s.joins
      ensures i < |s.threads| && s.threads[i].pc.Exited? && s.threads[i].state in {UNJOINED, JOINED}
    {
      assert i < |s.threads|;
      assert ThreadOk(s, i);
    }
  }

  /** Main never sleeps on a positive counter unless some thread still owes it a signal. */
  lemma NoLostWakeUp(init: State, schedule: seq<Who>) returns (i: nat)
    requires Initial(init) && Run(init, schedule).Some?
    requires Run(init, schedule).value.main.Waiting? && Run(init, schedule).value.totalUnjoined != 0
    ensures i < |Run(init, schedule).value.threads|
    ensures Run(init, schedule).value.threads[i].pc in {ThreadPc.UnlockMtx, LockOwn, Mark, UnlockOwn, Signal}
  {
    RunKeepsInv(init, schedule);
    i := SomeMember(Run(init, schedule).value.threads, Counted);
    assert ThreadOk(Run(init, schedule).value, i);
  }

  lemma UnfinishedThread(s: State) returns (i: nat)
    requires Inv(s) && s.main.Waiting?
    ensures i < |s.threads| && !s.threads[i].pc.Exited? && !s.threads[i].pc.Unborn?
  {
    CountAll(s.threads, IsJoined);
    i :| 0 <= i < |s.threads| && !IsJoined(s.threads[i]);
    assert ThreadOk(s, i);
  }

  lemma HolderSteps(s: State)
    requires Inv(s) && s.mtx.Some? && !MainHoldsMtx(s.main)
    ensures exists who :: who != Spurious && Step(s, who).Some?
  {
    var i := s.mtx.value.id;
    assert ThreadOk(s, i);
    assert Step(s, Thread(i)).Some?;
  }

  lemma SomeoneSteps(s: State)
    requires Inv(s) && !s.main.Finished?
    ensures exists who :: who != Spurious && Step(s, who).Some?
  {
    hide Count;
    if s.mtx.Some? && !MainHoldsMtx(s.main) {
      HolderSteps(s);
    } else if s.main.Waiting? {
      var i := UnfinishedThread(s);
      assert ThreadOk(s, i);
      assert Step(s, Thread(i)).Some?;
    } else if (s.main.ScanLock? || s.main.Join?) && Step(s, Main).None? {
      assert ThreadOk(s, s.main.i);
      assert Step(s, Thread(s.main.i)).Some?;
    } else {
      assert Step(s, Main).Some?;
    }
  }

  /** No reachable state is stuck: joining with both mutexes held blocks nobody the joined thread needs. */
  lemma NeverStuck(init: State, schedule: seq<Who>)
    requires Initial(init) && Run(init, schedule).Some? && !Run(init, schedule).value.main.Finished?
    ensures exists who :: who != Spurious && Step(Run(init, schedule).value, who).Some?
  {
    RunKeepsInv(init, schedule);
    SomeoneSteps(Run(init, schedule).value);
  }

  /** When main leaves its loop every thread has ended, was joined exactly once, and every mutex is free. */
  lemma FinishedJoinedAll(init: State, schedule: seq<Who>)
    requires Initial(init) && Run(init, schedule).Some? && Run(init, schedule).value.main.Finished?
    ensures var s := Run(init, schedule).value;
            && s.totalUnjoined == 0 && s.totalJoined == |s.threads| && s.mtx == None
            && (forall i :: 0 <= i < |s.threads| ==>
                  s.threads[i] == ThreadInfo(Exited, JOINED, None) && exists a :: 0 <= a < |s.joins| && s.joins[a] == i)
            && (forall a, b :: 0 <= a < b < |s.joins| ==> s.joins[a] != s.joins[b])
            && (forall i :: i in s.joins ==> i < |s.threads|)
  {
    RunKeepsInv(init, schedule);
    var s := Run(init, schedule).value;
    CountAll(s.threads, IsJoined);
    forall i | 0 <= i < |s.threads|
      ensures s.threads[i] == ThreadInfo(Exited, JOINED, None) && i in s.joins
    {
      assert ThreadOk(s, i);
    }
    CountAll(s.threads, Counted);
    assert s.mtx.Some? ==> s.mtx.value.Thread? && ThreadOk(s, s.mtx.value.id);
  }

  // ---------- main's loop ends ----------

  ghost predicate AllExited(s: State) {
    forall i :: 0 <= i < |s.threads| ==> s.threads[i].pc.Exited?
  }

  /** How far main's scan has come. */
  ghost function Reached(s: State): nat {
    match s.main
    case ScanLock(i) => i
    case ScanTest(i) => i
    case Join(i) => i
    case Account(i) => i
    case ScanUnlock(i) => i + 1
    case UnlockMtx => |s.threads|
    case Check => |s.threads|
    case _ => 0
  }

  /** Some thread the scan has passed is not joined, so one more round is needed. */
  ghost predicate MissedOne(s: State) {
    exists i :: 0 <= i < Reached(s) && i < |s.threads| && !IsJoined(s.threads[i])
  }

  ghost function ThisRound(s: State): int {
    var n := |s.threads|;
    match s.main
    case Create(_) => 5 * n + 6
    case LockMtx => 5 * n + 5
    case Waiting => 5 * n + 6
    case Woken => 5 * n + 5
    case Test => 5 * n + 4
    case ScanLock(i) => 5 * (n - i) + 3
    case ScanTest(i) => 5 * (n - i) + 2
    case Join(i) => 5 * (n - i) + 1
    case Account(i) => 5 * (n - i)
    case ScanUnlock(i) => 5 * (n - i) - 1
    case UnlockMtx => 2
    case Check => 1
    case Finished => 0
  }

  ghost function StepsLeft(s: State): int {
    ThisRound(s) + if MissedOne(s) then 5 * |s.threads| + 5 else 0
  }

  /** With every thread ended, main finds the counter positive and the scan joins what is left. */
  lemma AllExitedFacts(s: State)
    requires Inv(s) && AllExited(s)
    ensures !s.main.Waiting? && (s.main.Create? ==> s.main.i == |s.threads|)
    ensures s.main.Test? ==> s.totalUnjoined != 0
    ensures s.main.Check? && s.totalJoined != |s.threads| ==> MissedOne(s)
    ensures forall i :: 0 <= i < |s.threads| ==> s.threads[i].state in {UNJOINED, JOINED}
  {
    forall i | 0 <= i < |s.threads|
      ensures s.threads[i].state in {UNJOINED, JOINED}
      ensures s.main.Waiting? ==> IsJoined(s.threads[i])
    {
      assert ThreadOk(s, i);
    }
    assert s.main.Create? && s.main.i < |s.threads| ==> ThreadOk(s, s.main.i);
    CountAll(s.threads, IsJoined);
    CountAll(s.threads, Counted);
    hide Count;
  }

  lemma RoundDecreases(s: State)
    requires MainStep(s).Some? && !s.main.Check? && (s.main.Test? ==> s.totalUnjoined != 0)
    requires s.main.ScanLock? ==> s.main.i <= |s.threads|
    requires s.main.Create? ==> s.main.i == |s.threads|
    ensures ThisRound(MainStep(s).value) < ThisRound(s)
  {
  }

  /** The scan joins what it passes. */
  lemma MissedEarlier(s: State)
    requires AllExited(s) && MainStep(s).Some? && !s.main.Check?
    requires s.main.ScanLock? ==> s.main.i <= |s.threads|
    requires forall i :: 0 <= i < |s.threads| ==> s.threads[i].state in {UNJOINED, JOINED}
    ensures MissedOne(MainStep(s).value) ==> MissedOne(s)
  {
    hide ThisRound;
  }

  lemma MainStepKeepsExited(s: State)
    requires AllExited(s) && MainStep(s).Some? && (s.main.Create? ==> s.main.i == |s.threads|)
    ensures AllExited(MainStep(s).value) && |MainStep(s).value.threads| == |s.threads|
  {
  }

  lemma StepsLeftDecreases(s: State, who: Who)
    requires Inv(s) && AllExited(s) && Step(s, who).Some?
    ensures AllExited(Step(s, who).value) && StepsLeft(Step(s, who).value) < StepsLeft(s)
  {
    AllExitedFacts(s);
    assert MainOk(s) && who == Main;
    assert s.main.ScanLock? ==> s.main.i <= |s.threads|;
    hide Inv, MainOk, ThreadOk, JoinsOk, Count;
    MainStepKeepsExited(s);
    if !s.main.Check? {
      RoundDecreases(s);
      MissedEarlier(s);
      hide MainStep, ThisRound, MissedOne, AllExited;
    }
  }

  /** Once every thread has ended, main leaves its loop within 10n + 11 steps, whatever is scheduled. */
  lemma {:induction false} MainFinishesAlone(init: State, early: seq<Who>, more: seq<Who>)
    requires Initial(init) && Run(init, early).Some? && AllExited(Run(init, early).value)
    requires Run(init, early + more).Some?
    ensures AllExited(Run(init, early + more).value)
    ensures |more| <= StepsLeft(Run(init, early).value) - StepsLeft(Run(init, early + more).value)
    ensures |more| <= 10 * |init.threads| + 11
  {
    hide Inv, StepsLeft, Step, AllExited, Initial;
    RunKeepsInv(init, early);
    RunKeepsInv(init, early + more);
    if more == [] {
      assert early + more == early;
    } else {
      var last, all := |more| - 1, early + more;
      assert all[..|all| - 1] == early + more[..last];
      MainFinishesAlone(init, early, more[..last]);
      RunKeepsInv(init, early + more[..last]);
      StepsLeftDecreases(Run(init, early + more[..last]).value, all[|all| - 1]);
    }
    StepsLeftBounds(Run(init, early).value);
    StepsLeftBounds(Run(init, early + more).value);
  }

  lemma StepsLeftBounds(s: State)
    requires Inv(s)
    ensures 0 <= StepsLeft(s) <= 10 * |s.threads| + 11
  {
    assert MainOk(s);
    hide ThreadOk, JoinsOk, Count;
  }
}
