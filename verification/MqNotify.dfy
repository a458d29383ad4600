/** 52_Posix_Message_Queues/sigwaitinfo_notify.c: one-shot notification of a message queue.

    A message that arrives on an empty queue spends the registration and makes the blocked
    signal pending; the process accepts the signal, registers again and drains the queue. */
module MqNotify {
  import opened Collections

  datatype Message = Message(priority: nat, body: seq<char>)

  datatype Pc = Wait | Reregister | Drain | Failed  // Failed: mq_notify() found a registration (EBUSY)

  datatype Actor = Process | Sender(m: Message)

  /** `capacity` is the queue's mq_maxmsg; `sent` and `received` record every transfer in order. */
  datatype State = State(pc: Pc, registered: bool, pending: bool, capacity: nat, queue: seq<Message>,
                         sent: seq<Message>, received: seq<Message>)

  /** mq_send() places a message behind those of its own or a higher priority. */
  function Insert(queue: seq<Message>, m: Message): seq<Message> {
    if queue == [] || queue[0].priority < m.priority then [m] + queue
    else [queue[0]] + Insert(queue[1..], m)
  }

  ghost function Step(s: State, who: Actor): Option<State> {
    match who
    case Sender(m) =>
      if |s.queue| >= s.capacity then None
      else
        var notify := s.queue == [] && s.registered;
        Some(s.(queue := Insert(s.queue, m), sent := s.sent + [m], registered := s.registered && !notify,
                pending := s.pending || notify))
    case Process =>
      match s.pc
      case Wait => if s.pending then Some(s.(pending := false, pc := Reregister)) else None
      case Reregister => Some(if s.registered then s.(pc := Failed) else s.(registered := true, pc := Drain))
      case Drain =>
        if s.queue == [] then Some(s.(pc := Wait))
        else Some(s.(queue := s.queue[1..], received := s.received + [s.queue[0]]))
      case Failed => None
  }

  ghost predicate Sorted(queue: seq<Message>) {
    forall i, j :: 0 <= i < j < |queue| ==> queue[i].priority >= queue[j].priority
  }

  /** Just after the first registration, with `sent` already in the queue. */
  ghost predicate Initial(s: State) {
    && s.pc == Wait && s.registered && !s.pending && s.received == [] && Sorted(s.queue)
    && |s.queue| <= s.capacity && (forall p: nat :: Of(s.sent, p) == Of(s.queue, p))
  }

  /** The state a schedule leads to, if each of its steps can be taken. */
  ghost function Run(init: State, schedule: seq<Actor>): Option<State> {
    if schedule == [] then Some(init)
    else
      var before := Run(init, schedule[..|schedule| - 1]);
      if before.None? then None else Step(before.value, schedule[|schedule| - 1])
  }

  // ---------- the queue ----------

  /** The messages of priority p, in order. */
  ghost function Of(ms: seq<Message>, p: nat): seq<Message> {
    if ms == [] then [] else (if ms[0].priority == p then [ms[0]] else []) + Of(ms[1..], p)
  }

  lemma {:induction false} OfAppend(a: seq<Message>, b: seq<Message>, p: nat)
    ensures Of(a + b, p) == Of(a, p) + Of(b, p)
  {
    if a == [] {
      assert a + b == b;
    } else {
      assert (a + b)[1..] == a[1..] + b;
      OfAppend(a[1..], b, p);
    }
  }

  lemma {:induction false} OfSmaller(q: seq<Message>, p: nat)
    requires forall i :: 0 <= i < |q| ==> q[i].priority < p
    ensures Of(q, p) == []
  {
    if q != [] {
      OfSmaller(q[1..], p);
    }
  }

  lemma {:induction false} InsertAdds(q: seq<Message>, m: Message)
    ensures |Insert(q, m)| == |q| + 1
    ensures forall i :: 0 <= i <= |q| ==> Insert(q, m)[i] in q || Insert(q, m)[i] == m
  {
    if q != [] && q[0].priority >= m.priority {
      var rest := Insert(q[1..], m);
      InsertAdds(q[1..], m);
      forall i | 0 <= i <= |q| ensures Insert(q, m)[i] in q || Insert(q, m)[i] == m {
        if i > 0 {
          assert Insert(q, m)[i] == rest[i - 1];
        }
      }
    }
  }

  lemma {:induction false} InsertSorts(q: seq<Message>, m: Message)
    requires Sorted(q)
    ensures Sorted(Insert(q, m))
  {
    if q != [] && q[0].priority >= m.priority {
      var rest := Insert(q[1..], m);
      assert Sorted(q[1..]);
      InsertSorts(q[1..], m);
      InsertAdds(q[1..], m);
      forall j | 0 <= j < |rest| ensures q[0].priority >= rest[j].priority {
      }
      hide Insert;
    }
  }

  /** Within its priority a new message is the last one. */
  lemma {:induction false} InsertIsLast(q: seq<Message>, m: Message, p: nat)
    requires Sorted(q)
    ensures Of(Insert(q, m), p) == Of(q, p) + (if m.priority == p then [m] else [])
  {
    if q == [] {
    } else if q[0].priority < m.priority {
      assert ([m] + q)[1..] == q;
      if m.priority == p {
        OfSmaller(q, p);
      }
    } else {
      InsertIsLast(q[1..], m, p);
      assert Insert(q, m)[1..] == Insert(q[1..], m);
    }
  }

  // ---------- the invariant ----------

  ghost predicate Conserved(s: State) {
    forall p: nat :: Of(s.sent, p) == Of(s.received, p) + Of(s.queue, p)
  }

  ghost predicate Queued(s: State) {
    Sorted(s.queue) && Conserved(s)
  }

  /** Holds when the first registration found the queue empty. */
  ghost predicate Notified(s: State) {
    match s.pc
    case Wait => s.registered != s.pending && (s.queue != [] ==> s.pending)
    case Reregister => !s.registered && !s.pending
    case Drain => s.registered != s.pending
    case Failed => false
  }

  lemma SendConserves(s: State, m: Message, p: nat)
    requires Queued(s)
    ensures Of(s.sent + [m], p) == Of(s.received, p) + Of(Insert(s.queue, m), p)
  {
    OfAppend(s.sent, [m], p);
    InsertIsLast(s.queue, m, p);
    assert Of([m], p) == if m.priority == p then [m] else [];
    assert Of(s.sent, p) == Of(s.received, p) + Of(s.queue, p);
    hide Of, Insert;
  }

  lemma ReceiveConserves(s: State, p: nat)
    requires Queued(s) && s.queue != []
    ensures Of(s.sent, p) == Of(s.received + [s.queue[0]], p) + Of(s.queue[1..], p)
  {
    var m := s.queue[0];
    OfAppend(s.received, [m], p);
    assert Of([m], p) == if m.priority == p then [m] else [];
    assert Of(s.queue, p) == Of([m], p) + Of(s.queue[1..], p);
    assert Of(s.sent, p) == Of(s.received, p) + Of(s.queue, p);
    hide Of;
  }

  lemma StepKeepsQueued(s: State, who: Actor)
    requires Queued(s) && Step(s, who).Some?
    ensures Queued(Step(s, who).value)
  {
    var s' := Step(s, who).value;
    if who.Sender? {
      InsertSorts(s.queue, who.m);
    }
    forall p: nat ensures Of(s'.sent, p) == Of(s'.received, p) + Of(s'.queue, p) {
      if who.Sender? {
        SendConserves(s, who.m, p);
      } else if s.pc.Drain? && s.queue != [] {
        ReceiveConserves(s, p);
      } else {
        assert Of(s.sent, p) == Of(s.received, p) + Of(s.queue, p);
      }
    }
    hide Of, Insert;
  }

  lemma {:induction false} RunKeepsQueued(init: State, schedule: seq<Actor>)
    requires Initial(init) && Run(init, schedule).Some?
    ensures Queued(Run(init, schedule).value)
  {
    if schedule != [] {
      var before := schedule[..|schedule| - 1];
      RunKeepsQueued(init, before);
      StepKeepsQueued(Run(init, before).value, schedule[|schedule| - 1]);
    }
  }

  lemma StepKeepsNotified(s: State, who: Actor)
    requires Queued(s) && Notified(s) && Step(s, who).Some?
    ensures Notified(Step(s, who).value)
  {
  }

  lemma {:induction false} RunKeepsNotified(init: State, schedule: seq<Actor>)
    requires Initial(init) && init.queue == [] && Run(init, schedule).Some?
    ensures Notified(Run(init, schedule).value)
  {
    if schedule != [] {
      var before := schedule[..|schedule| - 1];
      RunKeepsNotified(init, before);
      RunKeepsQueued(init, before);
      StepKeepsNotified(Run(init, before).value, schedule[|schedule| - 1]);
    }
  }

  // ---------- the results ----------

  /** Registered from an empty queue: while waiting, exactly one of registered and pending holds,
      a message waiting means the signal is pending, and no registration finds another. */
  lemma OneShotProtocol(init: State, schedule: seq<Actor>)
    requires Initial(init) && init.queue == [] && Run(init, schedule).Some?
    ensures var s := Run(init, schedule).value;
            && (s.pc.Wait? ==> s.registered != s.pending && (s.queue != [] ==> s.pending))
            && (s.pc.Reregister? ==> !s.registered) && !s.pc.Failed?
  {
    RunKeepsNotified(init, schedule);
  }

  lemma {:induction false} OfHigher(queue: seq<Message>, p: nat)
    requires queue != [] && Sorted(queue) && p > queue[0].priority
    ensures Of(queue, p) == []
  {
    OfSmaller(queue, p);
  }

  /** Each message received is the oldest of the highest priority there is: all of a higher priority
      that were sent are received already, and so are all sent before it in its own. */
  lemma HighestFirst(init: State, schedule: seq<Actor>)
    requires Initial(init) && Run(init, schedule).Some?
    requires var s := Run(init, schedule).value; s.pc.Drain? && s.queue != []
    ensures var s := Run(init, schedule).value;
            && Step(s, Process).Some? && Step(s, Process).value.received != []
            && var r := Step(s, Process).value.received;
               var m := r[|r| - 1];
               && r == s.received + [m]
               && (forall p: nat :: p > m.priority ==> Of(s.sent, p) == Of(s.received, p))
               && |Of(s.received, m.priority)| < |Of(s.sent, m.priority)|
               && Of(s.sent, m.priority)[|Of(s.received, m.priority)|] == m
  {
    RunKeepsQueued(init, schedule);
    var s := Run(init, schedule).value;
    var m := s.queue[0];
    forall p: nat | p > m.priority ensures Of(s.sent, p) == Of(s.received, p) {
      OfHigher(s.queue, p);
      assert Of(s.sent, p) == Of(s.received, p) + Of(s.queue, p);
    }
    assert Of(s.sent, m.priority) == Of(s.received, m.priority) + Of(s.queue, m.priority);
    assert Of(s.queue, m.priority)[0] == m;
    hide Run, Queued;
  }

  /** The queue never holds more than mq_maxmsg messages, and a sender waits only when it is full. */
  lemma {:induction false} QueueFits(init: State, schedule: seq<Actor>, m: Message)
    requires Initial(init) && Run(init, schedule).Some?
    ensures var s := Run(init, schedule).value;
            && s.capacity == init.capacity && |s.queue| <= s.capacity
            && (Step(s, Sender(m)).None? <==> |s.queue| == s.capacity)
  {
    if schedule != [] {
      var before, who := schedule[..|schedule| - 1], schedule[|schedule| - 1];
      QueueFits(init, before, m);
      if who.Sender? {
        InsertAdds(Run(init, before).value.queue, who.m);
      }
    }
  }

  /** Steps the process needs to come to rest when nothing else is sent. */
  ghost function StepsToRest(s: State): nat {
    match s.pc
    case Wait => if s.pending then |s.queue| + 3 else 0
    case Reregister => |s.queue| + 2
    case Drain => |s.queue| + 1 + if s.pending then |s.queue| + 3 else 0
    case Failed => 0
  }

  lemma ProcessStepRests(s: State)
    requires Notified(s)
    ensures Step(s, Process).Some? <==> StepsToRest(s) > 0
    ensures Step(s, Process).Some? ==> StepsToRest(Step(s, Process).value) < StepsToRest(s)
  {
  }

  /** No message is stranded: when the process cannot go on, it has received every message that
      was sent, in sending order within each priority. */
  lemma NothingStranded(init: State, schedule: seq<Actor>, p: nat)
    requires Initial(init) && init.queue == [] && Run(init, schedule).Some?
    requires Step(Run(init, schedule).value, Process).None?
    ensures var s := Run(init, schedule).value; s.queue == [] && Of(s.received, p) == Of(s.sent, p)
  {
    RunKeepsNotified(init, schedule);
    RunKeepsQueued(init, schedule);
    assert Conserved(Run(init, schedule).value);
  }

  /** From any reachable state the process comes to rest on its own, in StepsToRest steps at most. */
  lemma {:induction false} ComesToRest(init: State, early: seq<Actor>, more: seq<Actor>)
    requires Initial(init) && init.queue == [] && Run(init, early).Some? && Run(init, early + more).Some?
    requires forall i :: 0 <= i < |more| ==> more[i].Process?
    ensures |more| <= StepsToRest(Run(init, early).value) - StepsToRest(Run(init, early + more).value)
  {
    if more == [] {
      assert early + more == early;
    } else {
      var last, all := |more| - 1, early + more;
      assert all[..|all| - 1] == early + more[..last];
      ComesToRest(init, early, more[..last]);
      RunKeepsNotified(init, early + more[..last]);
      ProcessStepRests(Run(init, early + more[..last]).value);
      hide Notified, StepsToRest, Step;
    }
  }

  /** Registered over a waiting message, the process is never notified at all. */
  lemma {:induction false} NeverNotified(init: State, schedule: seq<Actor>)
    requires Initial(init) && init.queue != [] && Run(init, schedule).Some?
    ensures var s := Run(init, schedule).value; s.pc.Wait? && !s.pending && s.queue != [] && s.received == []
  {
    if schedule != [] {
      var before := schedule[..|schedule| - 1];
      NeverNotified(init, before);
      if schedule[|schedule| - 1].Sender? {
        RunKeepsQueued(init, before);
        InsertAdds(Run(init, before).value.queue, schedule[|schedule| - 1].m);
      }
    }
  }

  /** The process can go no further, over messages that wait. */
  ghost predicate Strands(init: State, schedule: seq<Actor>) {
    var s := Run(init, schedule);
    s.Some? && Step(s.value, Process).None? && s.value.queue != []
  }

  /** The protocol works exactly when the queue was empty at the first registration. */
  lemma WorksExactlyFromEmptyQueue(init: State)
    requires Initial(init)
    ensures init.queue == [] <==> forall schedule :: !Strands(init, schedule)
  {
    if init.queue == [] {
      forall schedule ensures !Strands(init, schedule) {
        if Strands(init, schedule) {
          NothingStranded(init, schedule, 0);
        }
      }
    } else {
      assert Strands(init, []);
    }
  }
}
