/** 22_Signals_Advanced_Features/sig_speed_sigsuspend.c and sig_speed_sigwaitinfo.c: parent and
    child send one signal back and forth.

    The signal is blocked before fork() and a standard signal is one pending bit per process.
    sigsuspend() with a handler and sigwaitinfo() both wait for the bit and clear it, so that
    the two programs take the same steps. */
module SigSpeed {
  import opened Collections

  datatype Process = Parent | Child

  datatype Event = Sends(from: Process) | Gets(to: Process)

  datatype Pc =
    | Top      // the loop test, and what comes first in the loop: kill() in the child, the wait in the parent
    | Second   // the second half of the loop body
    | Exited

  /** `merged`: a signal was sent while one was pending; `orphan`: kill() found the process gone. */
  datatype State = State(n: int, child: Pc, parent: Pc, childCnt: int, parentCnt: int, childPending: bool,
                         parentPending: bool, merged: bool, orphan: bool, log: seq<Event>)

  ghost function SendTo(s: State, to: Process): State {
    match to
    case Parent =>
      s.(parentPending := true, merged := s.merged || s.parentPending, orphan := s.orphan || s.parent.Exited?,
         log := s.log + [Sends(Child)])
    case Child =>
      s.(childPending := true, merged := s.merged || s.childPending, orphan := s.orphan || s.child.Exited?,
         log := s.log + [Sends(Parent)])
  }

  ghost function Step(s: State, who: Process): Option<State> {
    match who
    case Child => (
      match s.child
      case Top => if s.childCnt < s.n then Some(SendTo(s, Parent).(child := Second)) else Some(s.(child := Exited))
      case Second =>
        if !s.childPending then None
        else Some(s.(childPending := false, child := Top, childCnt := s.childCnt + 1, log := s.log + [Gets(Child)]))
      case Exited => None
    )
    case Parent => (
      match s.parent
      case Top =>
        if s.parentCnt >= s.n then Some(s.(parent := Exited))
        else if !s.parentPending then None
        else Some(s.(parentPending := false, parent := Second, log := s.log + [Gets(Parent)]))
      case Second => Some(SendTo(s, Child).(parent := Top, parentCnt := s.parentCnt + 1))
      case Exited => None
    )
  }

  ghost predicate Initial(s: State) {
    s == State(s.n, Top, Top, 0, 0, false, false, false, false, [])
  }

  /** The state a schedule leads to, if each of its steps can be taken. */
  ghost function Run(init: State, schedule: seq<Process>): Option<State> {
    if schedule == [] then Some(init)
    else
      var before := Run(init, schedule[..|schedule| - 1]);
      if before.None? then None else Step(before.value, schedule[|schedule| - 1])
  }

  function Rounds(n: int): nat { if n > 0 then n else 0 }

  /** One round: child to parent and back. */
  function Turn(i: nat): Event {
    match i % 4
    case 0 => Sends(Child)
    case 1 => Gets(Parent)
    case 2 => Sends(Parent)
    case _ => Gets(Child)
  }

  ghost predicate Turns(log: seq<Event>) {
    forall i :: 0 <= i < |log| ==> log[i] == Turn(i)
  }

  /** The whole state follows from the length of the log, but for who has left already. */
  ghost predicate Inv(s: State) {
    Turns(s.log) && !s.merged && !s.orphan && Placed(s, |s.log| % 4, |s.log| / 4)
  }

  ghost predicate Placed(s: State, turn: nat, c: nat) {
    && turn < 4
    && s.childCnt == c && s.parentCnt == (if turn == 3 then c + 1 else c)
    && (turn == 0 ==> c <= Rounds(s.n)) && (turn != 0 ==> c < s.n)
    && s.parentPending == (turn == 1) && s.childPending == (turn == 3)
    && (if turn == 0 then s.child.Top? || (s.child.Exited? && c == Rounds(s.n)) else s.child.Second?)
    && (if turn == 2 then s.parent.Second? else s.parent.Top? || (s.parent.Exited? && s.parentCnt == Rounds(s.n)))
  }

  lemma NextTurn(l: nat)
    ensures (l + 1) % 4 == (if l % 4 == 3 then 0 else l % 4 + 1)
    ensures (l + 1) / 4 == (if l % 4 == 3 then l / 4 + 1 else l / 4)
  {
  }

  /** A step that logs the event whose turn it is, or an exit. */
  ghost predicate Continues(s: State, s': State) {
    || s'.log == s.log
    || s'.log == s.log + [Turn(|s.log|)]
  }

  lemma StepIsPlaced(s: State, who: Process, turn: nat, c: nat)
    requires Placed(s, turn, c) && !s.merged && !s.orphan && Step(s, who).Some?
    ensures var s' := Step(s, who).value;
            && s'.n == s.n && !s'.merged && !s'.orphan
            && if s'.log == s.log then Placed(s', turn, c)
               else Placed(s', if turn == 3 then 0 else turn + 1, if turn == 3 then c + 1 else c)
  {
  }

  lemma StepContinues(s: State, who: Process)
    requires Placed(s, |s.log| % 4, |s.log| / 4) && Step(s, who).Some?
    ensures Continues(s, Step(s, who).value)
  {
  }

  lemma StepKeepsInv(s: State, who: Process)
    requires Inv(s) && Step(s, who).Some?
    ensures Inv(Step(s, who).value) && Step(s, who).value.n == s.n
  {
    var s' := Step(s, who).value;
    hide Step, Placed, Turn;
    StepIsPlaced(s, who, |s.log| % 4, |s.log| / 4);
    StepContinues(s, who);
    NextTurn(|s.log|);
  }

  lemma {:induction false} RunKeepsInv(init: State, schedule: seq<Process>)
    requires Initial(init) && Run(init, schedule).Some?
    ensures Inv(Run(init, schedule).value) && Run(init, schedule).value.n == init.n
  {
    if schedule != [] {
      var before := schedule[..|schedule| - 1];
      RunKeepsInv(init, before);
      StepKeepsInv(Run(init, before).value, schedule[|schedule| - 1]);
    }
  }

  /** At most one signal is pending anywhere, none is merged or sent to a process that has left,
      and sends and receipts alternate strictly. */
  lemma StrictAlternation(init: State, schedule: seq<Process>)
    requires Initial(init) && Run(init, schedule).Some?
    ensures var s := Run(init, schedule).value;
            && !(s.childPending && s.parentPending) && !s.merged && !s.orphan
            && forall i :: 0 <= i < |s.log| ==> s.log[i] == Turn(i)
  {
    RunKeepsInv(init, schedule);
  }

  /** A state in which neither process can step has both gone after exactly n rounds. */
  lemma StuckOnlyAtTheEnd(init: State, schedule: seq<Process>)
    requires Initial(init) && Run(init, schedule).Some?
    ensures var s := Run(init, schedule).value;
            && (Step(s, Parent).None? && Step(s, Child).None? <==> s.child.Exited? && s.parent.Exited?)
            && (s.child.Exited? && s.parent.Exited? ==>
                  |s.log| == 4 * Rounds(init.n) && !s.childPending && !s.parentPending)
  {
    RunKeepsInv(init, schedule);
  }

  ghost function Gone(pc: Pc): nat { if pc.Exited? then 1 else 0 }

  lemma StepIsEventOrExit(s: State, who: Process)
    requires Step(s, who).Some?
    ensures var s' := Step(s, who).value;
            |s'.log| + Gone(s'.child) + Gone(s'.parent) == |s.log| + Gone(s.child) + Gone(s.parent) + 1
  {
    if who.Child? {
      match s.child
      case Top =>
      case Second =>
    } else {
      match s.parent
      case Top =>
      case Second =>
    }
  }

  /** Every step of a run is an event of the log or an exit, so a run has at most 4n + 2 steps. */
  lemma {:induction false} RunsEnd(init: State, schedule: seq<Process>)
    requires Initial(init) && Run(init, schedule).Some?
    ensures var s := Run(init, schedule).value;
            |schedule| == |s.log| + Gone(s.child) + Gone(s.parent) <= 4 * Rounds(init.n) + 2
  {
    RunKeepsInv(init, schedule);
    if schedule != [] {
      var before := schedule[..|schedule| - 1];
      RunsEnd(init, before);
      StepIsEventOrExit(Run(init, before).value, schedule[|schedule| - 1]);
    }
    assert |Run(init, schedule).value.log| <= 4 * Rounds(init.n);
    hide Inv, Step, Initial;
  }
}
