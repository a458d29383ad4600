/** 26_Monitoring_Child_Processes/sigchild_handler.c: reaping children from a SIGCHLD handler.

    SIGCHLD does not queue: an exit while it is pending leaves no further trace.  The parent
    keeps it blocked except inside sigsuspend(), and the handler runs with it blocked. */
module SigChild {
  import opened Collections

  datatype Child = Unborn | Running | Zombie | Reaped

  datatype Pc =
    | Fork(i: nat)
    | Test       // while (childrenLeft > 0)
    | Suspend    // in sigsuspend() with SIGCHLD unblocked
    | Reap       // in the handler, about to call waitpid()
    | Returning  // the handler's loop is over; about to return from sigsuspend()
    | Done

  /** Parent(pick): pick is the child waitpid() chooses, when it has a choice. */
  datatype Actor = Parent(pick: nat) | Exit(i: nat)

  /** `runs` counts the calls of the handler. */
  datatype State = State(children: seq<Child>, pending: bool, pc: Pc, childrenLeft: int, sigCount: nat, runs: nat)

  ghost predicate SomeZombie(s: State) {
    exists i :: 0 <= i < |s.children| && s.children[i].Zombie?
  }

  ghost function Step(s: State, who: Actor): Option<State> {
    match who
    case Exit(i) =>
      if i < |s.children| && s.children[i].Running? then
        Some(s.(children := s.children[i := Zombie], pending := true))
      else None
    case Parent(pick) =>
      match s.pc
      case Fork(i) =>
        if i < |s.children| then Some(s.(children := s.children[i := Running], pc := Fork(i + 1)))
        else Some(s.(pc := Test))
      case Test => Some(s.(pc := if s.childrenLeft > 0 then Suspend else Done))
      case Suspend => if s.pending then Some(s.(pending := false, pc := Reap, runs := s.runs + 1)) else None
      case Reap =>
        if !SomeZombie(s) then Some(s.(pc := Returning))  // waitpid() returns 0, or -1 with ECHILD
        else if pick < |s.children| && s.children[pick].Zombie? then
          Some(s.(children := s.children[pick := Reaped], childrenLeft := s.childrenLeft - 1))
        else None
      case Returning => Some(s.(pc := Test, sigCount := s.sigCount + 1))
      case Done => None
  }

  ghost predicate Initial(s: State) {
    && |s.children| > 0 && !s.pending && s.pc == Fork(0) && s.childrenLeft == |s.children|
    && s.sigCount == 0 && s.runs == 0
    && forall i :: 0 <= i < |s.children| ==> s.children[i].Unborn?
  }

  /** The state a schedule leads to, if each of its steps can be taken. */
  ghost function Run(init: State, schedule: seq<Actor>): Option<State> {
    if schedule == [] then Some(init)
    else
      var before := Run(init, schedule[..|schedule| - 1]);
      if before.None? then None else Step(before.value, schedule[|schedule| - 1])
  }

  // ---------- the invariant ----------

  ghost predicate NotReaped(c: Child) { !c.Reaped? }

  ghost predicate Ended(c: Child) { c.Zombie? || c.Reaped? }

  ghost predicate InHandler(pc: Pc) { pc.Reap? || pc.Returning? }

  ghost predicate Shape(s: State) {
    && |s.children| > 0
    && (s.pc.Fork? ==> s.pc.i <= |s.children|)
    && (forall i :: 0 <= i < |s.children| ==> (s.children[i].Unborn? <==> s.pc.Fork? && s.pc.i <= i))
    && (s.pc.Done? ==> s.childrenLeft <= 0)
    && (s.pc.Suspend? ==> s.childrenLeft > 0)
  }

  ghost predicate Inv(s: State) {
    && Shape(s)
    && (!s.pc.Reap? && SomeZombie(s) ==> s.pending)
    && s.childrenLeft == Count(s.children, NotReaped)
    && s.runs + (if s.pending then 1 else 0) <= Count(s.children, Ended)
    && s.sigCount + (if InHandler(s.pc) then 1 else 0) == s.runs
  }

  lemma InitialInv(s: State)
    requires Initial(s)
    ensures Inv(s)
  {
    CountAll(s.children, NotReaped);
    CountAll(s.children, Ended);
  }

  /** The child a step changes, if any. */
  ghost function Touched(s: State, who: Actor): Option<nat> {
    match who
    case Exit(i) => Some(i)
    case Parent(pick) =>
      if s.pc.Fork? && s.pc.i < |s.children| then Some(s.pc.i)
      else if s.pc.Reap? && SomeZombie(s) then Some(pick)
      else None
  }

  lemma StepCounts(s: State, who: Actor)
    requires Inv(s) && Step(s, who).Some?
    ensures var s' := Step(s, who).value;
            && s'.childrenLeft == Count(s'.children, NotReaped)
            && s'.runs + (if s'.pending then 1 else 0) <= Count(s'.children, Ended)
  {
    var s' := Step(s, who).value;
    var t := Touched(s, who);
    if t.Some? {
      CountUpdate(s.children, NotReaped, t.value, s'.children[t.value]);
      CountUpdate(s.children, Ended, t.value, s'.children[t.value]);
    }
    hide Count, SomeZombie;
  }

  lemma StepKeepsInv(s: State, who: Actor)
    requires Inv(s) && Step(s, who).Some?
    ensures Inv(Step(s, who).value) && |Step(s, who).value.children| == |s.children|
  {
    StepCounts(s, who);
    hide Count;
  }

  lemma {:induction false} RunKeepsInv(init: State, schedule: seq<Actor>)
    requires Initial(init) && Run(init, schedule).Some?
    ensures Inv(Run(init, schedule).value) && |Run(init, schedule).value.children| == |init.children|
  {
    if schedule == [] {
      InitialInv(init);
    } else {
      var before := schedule[..|schedule| - 1];
      RunKeepsInv(init, before);
      StepKeepsInv(Run(init, before).value, schedule[|schedule| - 1]);
    }
  }

  // ---------- the results ----------

  /** Coalescing loses nothing: outside the reap loop an unreaped zombie keeps SIGCHLD pending,
      the counter is exact, and the handler runs at most once per exit. */
  lemma ZombieMeansPending(init: State, schedule: seq<Actor>)
    requires Initial(init) && Run(init, schedule).Some?
    ensures var s := Run(init, schedule).value;
            && (!s.pc.Reap? && SomeZombie(s) ==> s.pending)
            && s.childrenLeft == Count(s.children, NotReaped)
            && s.sigCount <= s.runs <= Count(s.children, Ended) <= |s.children|
  {
    RunKeepsInv(init, schedule);
  }

  /** The parent never sleeps for ever: while it is not done, it or a running child can step. */
  lemma NeverStuck(init: State, schedule: seq<Actor>)
    requires Initial(init) && Run(init, schedule).Some? && !Run(init, schedule).value.pc.Done?
    ensures exists who :: Step(Run(init, schedule).value, who).Some?
  {
    RunKeepsInv(init, schedule);
    var s := Run(init, schedule).value;
    hide Count;
    if s.pc.Suspend? && !s.pending {
      CountAll(s.children, NotReaped);
      var i :| 0 <= i < |s.children| && NotReaped(s.children[i]);
      assert Step(s, Exit(i)).Some?;
    } else if s.pc.Reap? && SomeZombie(s) {
      var i :| 0 <= i < |s.children| && s.children[i].Zombie?;
      assert Step(s, Parent(i)).Some?;
    } else {
      assert Step(s, Parent(0)).Some?;
    }
  }

  /** At the end every child was reaped, in one to n runs of the handler, as sigCount reports. */
  lemma DoneReapedAll(init: State, schedule: seq<Actor>)
    requires Initial(init) && Run(init, schedule).Some? && Run(init, schedule).value.pc.Done?
    ensures var s := Run(init, schedule).value;
            && (forall i :: 0 <= i < |s.children| ==> s.children[i].Reaped?)
            && 1 <= s.sigCount == s.runs <= |s.children|
  {
    RunKeepsInv(init, schedule);
    CountAll(Run(init, schedule).value.children, NotReaped);
    ReapedInHandler(init, schedule);
  }

  /** A child is reaped only by a run of the handler. */
  lemma {:induction false} ReapedInHandler(init: State, schedule: seq<Actor>)
    requires Initial(init) && Run(init, schedule).Some?
    ensures var s := Run(init, schedule).value;
            s.runs == 0 ==> forall i :: 0 <= i < |s.children| ==> !s.children[i].Reaped?
  {
    if schedule != [] {
      var before := schedule[..|schedule| - 1];
      ReapedInHandler(init, before);
      RunKeepsInv(init, before);
      StepReapsInHandler(Run(init, before).value, schedule[|schedule| - 1]);
      hide Inv, Step;
    }
  }

  lemma StepReapsInHandler(s: State, who: Actor)
    requires Inv(s) && Step(s, who).Some?
    requires s.runs == 0 ==> forall i :: 0 <= i < |s.children| ==> !s.children[i].Reaped?
    ensures var s' := Step(s, who).value;
            s'.runs == 0 ==> forall i :: 0 <= i < |s'.children| ==> !s'.children[i].Reaped?
  {
    hide Count;
  }

  // ---------- every run ends ----------

  ghost function Work(c: Child): nat {
    match c
    case Unborn => 3
    case Running => 2
    case Zombie => 1
    case Reaped => 0
  }

  ghost function TotalWork(cs: seq<Child>): (w: nat)
    ensures w <= 3 * |cs|
  {
    if cs == [] then 0 else Work(cs[0]) + TotalWork(cs[1..])
  }

  lemma {:induction false} TotalWorkUpdate(cs: seq<Child>, i: nat, c: Child)
    requires i < |cs|
    ensures TotalWork(cs[i := c]) == TotalWork(cs) - Work(cs[i]) + Work(c)
  {
    if i == 0 {
      assert cs[i := c][1..] == cs[1..];
    } else {
      assert cs[i := c][1..] == cs[1..][i - 1 := c];
      TotalWorkUpdate(cs[1..], i - 1, c);
    }
  }

  ghost function PcWork(pc: Pc): nat {
    match pc
    case Fork(_) => 3
    case Test => 2
    case Suspend => 1
    case Reap => 4
    case Returning => 3
    case Done => 0
  }

  ghost function StepsLeft(s: State): int {
    TotalWork(s.children) + 4 * (|s.children| - s.runs) + PcWork(s.pc)
  }

  lemma StepsLeftDecreases(s: State, who: Actor)
    requires Inv(s) && Step(s, who).Some?
    ensures StepsLeft(Step(s, who).value) < StepsLeft(s)
  {
    var s' := Step(s, who).value;
    var t := Touched(s, who);
    if t.Some? {
      TotalWorkUpdate(s.children, t.value, s'.children[t.value]);
    }
    hide Count, TotalWork;
  }

  /** Whatever is scheduled, n children make at most 7n + 3 steps; by NeverStuck the run ends Done. */
  lemma {:induction false} RunsEnd(init: State, schedule: seq<Actor>)
    requires Initial(init) && Run(init, schedule).Some?
    ensures |schedule| <= StepsLeft(init) - StepsLeft(Run(init, schedule).value)
    ensures |schedule| <= 7 * |init.children| + 3
  {
    RunKeepsInv(init, schedule);
    if schedule != [] {
      var before := schedule[..|schedule| - 1];
      RunsEnd(init, before);
      RunKeepsInv(init, before);
      StepsLeftDecreases(Run(init, before).value, schedule[|schedule| - 1]);
    }
  }
}
