/** The notification protocol of mq_notify_via_thread.c: any number of senders, and a process in which
    main and every notification thread first register for notification and then drain the queue. */
module NotifyByThread {

  type Message = int

  /** Where a thread is: about to call mq_notify(), in the loop of drainQueue(), or past it. Main is
      thread 0 and pauses when it is past it. */
  datatype Phase = Registering | Draining | Finished

  /** `sent` and `received` record what senders queued and what threads took off the queue;
      `refused` says that mq_notify() found the process still registered, which ends the program. */
  datatype State = State(
    queue: seq<Message>,
    registered: bool,
    threads: seq<Phase>,
    refused: bool,
    sent: seq<Message>,
    received: seq<Message>)

  /** One atomic step. Which message mq_receive() takes depends on priorities, so any may be next. */
  datatype Step =
    | Send(m: Message)
    | Register(t: nat)
    | Receive(t: nat, k: nat)
    | FindEmpty(t: nat)

  /** The process starts with whatever the queue already holds. */
  function Start(queue: seq<Message>): State {
    State(queue, false, [Registering], false, queue, [])
  }

  predicate In(s: State, t: nat, p: Phase) {
    t < |s.threads| && s.threads[t] == p
  }

  predicate Enabled(s: State, st: Step) {
    !s.refused &&
    match st
    case Send(_) => true
    case Register(t) => In(s, t, Registering)
    case Receive(t, k) => In(s, t, Draining) && k < |s.queue|
    case FindEmpty(t) => In(s, t, Draining) && s.queue == []
  }

  /** A message on an empty queue uses up the registration and starts a thread. */
  function After(s: State, st: Step): State
    requires Enabled(s, st)
  {
    match st
    case Send(m) =>
      var s' := s.(queue := s.queue + [m], sent := s.sent + [m]);
      if s.queue == [] && s.registered then s'.(registered := false, threads := s.threads + [Registering]) else s'
    case Register(t) =>
      if s.registered then s.(refused := true)
      else s.(registered := true, threads := s.threads[t := Draining])
    case Receive(t, k) =>
      s.(queue := s.queue[..k] + s.queue[k + 1..], received := s.received + [s.queue[k]])
    case FindEmpty(t) =>
      s.(threads := s.threads[t := Finished])
  }

  predicate Legal(s: State, steps: seq<Step>)
    decreases |steps|
  {
    steps == [] || (Enabled(s, steps[0]) && Legal(After(s, steps[0]), steps[1..]))
  }

  function End(s: State, steps: seq<Step>): State
    requires Legal(s, steps)
    decreases |steps|
  {
    if steps == [] then s else End(After(s, steps[0]), steps[1..])
  }

  // ---- what every step keeps ----

  /** How many threads are in the given phase. */
  function Count(threads: seq<Phase>, p: Phase): nat {
    multiset(threads)[p]
  }

  /** Either the process is registered, or exactly one thread has yet to register. */
  predicate OneToken(s: State) {
    Count(s.threads, Registering) + (if s.registered then 1 else 0) == 1
  }

  /** Some thread has not yet seen the queue empty since it last registered. */
  predicate SomeoneWillDrain(s: State) {
    exists t :: 0 <= t < |s.threads| && s.threads[t] != Finished
  }

  predicate Conserved(s: State) {
    multiset(s.sent) == multiset(s.queue) + multiset(s.received)
  }

  ghost predicate Inv(s: State) {
    && !s.refused && OneToken(s) && Conserved(s)
    && (s.queue != [] ==> SomeoneWillDrain(s))
  }

  lemma StartInv(queue: seq<Message>)
    ensures Inv(Start(queue))
  {
    assert Start(queue).threads[0] == Registering;
  }

  lemma StepToken(s: State, st: Step)
    requires Inv(s) && Enabled(s, st)
    ensures !After(s, st).refused && OneToken(After(s, st))
  {
    match st
    case Register(t) => assert s.threads[t] in multiset(s.threads);
    case _ =>
  }

  lemma StepConserved(s: State, st: Step)
    requires Conserved(s) && Enabled(s, st)
    ensures Conserved(After(s, st))
  {
    match st
    case Receive(_, k) => assert s.queue == s.queue[..k] + [s.queue[k]] + s.queue[k + 1..];
    case _ =>
  }

  lemma StepDrainer(s: State, st: Step)
    requires Inv(s) && Enabled(s, st) && After(s, st).queue != []
    ensures SomeoneWillDrain(After(s, st))
  {
    var s' := After(s, st);
    match st
    case Send(_) =>
      assert Registering in multiset(s'.threads) || s.queue != [];
    case Register(t) => assert !s.registered ==> s'.threads[t] == Draining;
    case Receive(t, _) => assert s'.threads[t] == Draining;
    case FindEmpty(_) =>
  }

  lemma StepKeeps(s: State, st: Step)
    requires Inv(s) && Enabled(s, st)
    ensures Inv(After(s, st))
  {
    hide OneToken, Conserved, SomeoneWillDrain, After;
    StepToken(s, st);
    StepConserved(s, st);
    if After(s, st).queue != [] {
      StepDrainer(s, st);
    }
  }

  lemma {:induction false} RunKeeps(s: State, steps: seq<Step>)
    requires Inv(s) && Legal(s, steps)
    ensures Inv(End(s, steps))
    decreases |steps|
  {
    if steps != [] {
      StepKeeps(s, steps[0]);
      RunKeeps(After(s, steps[0]), steps[1..]);
    }
  }

  // ---- nothing is lost ----

  /** The number of steps that the threads of the process still have to take. */
  function Work(s: State): nat {
    2 * Count(s.threads, Registering) + Count(s.threads, Draining) + |s.queue|
  }

  lemma StepWork(s: State, st: Step)
    requires Inv(s) && Enabled(s, st) && !st.Send?
    ensures Work(After(s, st)) == Work(s) - 1
  {
    StepKeeps(s, st);
  }

  /** As long as there is work, some thread can take a step. */
  lemma WorkIsEnabled(s: State) returns (st: Step)
    requires Inv(s) && Work(s) > 0
    ensures Enabled(s, st) && !st.Send?
  {
    if t :| 0 <= t < |s.threads| && s.threads[t] == Registering {
      st := Register(t);
    } else {
      var t :| 0 <= t < |s.threads| && s.threads[t] == Draining;
      st := if s.queue == [] then FindEmpty(t) else Receive(t, 0);
    }
  }

  /** No work is left exactly when every thread is past its loop and every message has been received;
      the process is then registered for the next one. */
  lemma RestMeansDrained(s: State)
    requires Inv(s)
    ensures Work(s) == 0 <==> forall t :: 0 <= t < |s.threads| ==> s.threads[t] == Finished
    ensures Work(s) == 0 ==> s.queue == [] && s.registered && multiset(s.received) == multiset(s.sent)
  {
    assert forall t :: 0 <= t < |s.threads| ==> s.threads[t] in multiset(s.threads);
  }

  lemma {:induction false} ThreadsWork(s: State, steps: seq<Step>)
    requires Inv(s) && Legal(s, steps) && forall i :: 0 <= i < |steps| ==> !steps[i].Send?
    ensures Work(End(s, steps)) + |steps| == Work(s) && End(s, steps).sent == s.sent
    decreases |steps|
  {
    if steps != [] {
      StepWork(s, steps[0]);
      StepKeeps(s, steps[0]);
      ThreadsWork(After(s, steps[0]), steps[1..]);
    }
  }

  /** For any start, any run and any number of threads: registration is never refused, no message is
      lost or received twice, and once senders pause the threads take exactly Work() more steps in
      whatever order they are scheduled, after which all that was sent has been received. */
  lemma NothingIsLost(queue: seq<Message>, steps: seq<Step>, rest: seq<Step>)
    requires Legal(Start(queue), steps)
    requires var s := End(Start(queue), steps);
      Legal(s, rest) && forall i :: 0 <= i < |rest| ==> !rest[i].Send?
    ensures var s := End(Start(queue), steps);
      && Inv(s) && |rest| <= Work(s)
      && (|rest| < Work(s) ==> exists st :: Enabled(End(s, rest), st) && !st.Send?)
      && (|rest| == Work(s) ==> multiset(End(s, rest).received) == multiset(s.sent) && End(s, rest).registered)
  {
    StartInv(queue);
    RunKeeps(Start(queue), steps);
    var s := End(Start(queue), steps);
    RunKeeps(s, rest);
    ThreadsWork(s, rest);
    if |rest| < Work(s) {
      var st := WorkIsEnabled(End(s, rest));
    } else {
      RestMeansDrained(End(s, rest));
    }
  }

  // ---- the program ----

  lemma Forward(s: State, st: Step)
    requires Inv(s) && Enabled(s, st)
    ensures Inv(After(s, st)) && |After(s, st).threads| >= |s.threads|
    ensures !st.Send? ==> Work(After(s, st)) < Work(s)
  {
    StepKeeps(s, st);
    if !st.Send? {
      StepWork(s, st);
    }
  }

  /** A thread that has yet to register finds the process not registered. */
  lemma NotRefused(s: State, t: nat)
    requires Inv(s) && In(s, t, Registering)
    ensures !s.registered && Enabled(s, Register(t))
  {
    assert s.threads[t] in multiset(s.threads);
  }

  lemma DrainedMeans(s: State, t: nat)
    requires Inv(s) && In(s, t, Finished)
    ensures multiset(s.sent) == multiset(s.queue) + multiset(s.received) && !s.refused
    ensures s.queue != [] ==> exists u :: u != t && 0 <= u < |s.threads| && s.threads[u] != Finished
  {
    if s.queue != [] {
      var u :| 0 <= u < |s.threads| && s.threads[u] != Finished;
      assert u != t;
    }
  }

  class Process {
    var queue: seq<Message>
    var registered: bool
    var threads: seq<Phase>
    var sent: seq<Message>
    var received: seq<Message>
      // how many messages there are still to come
    var supply: nat

    function View(): State
      reads this
    {
      State(queue, registered, threads, false, sent, received)
    }

    ghost predicate Valid()
      reads this
    {
      Inv(View())
    }

    constructor (queue: seq<Message>, supply: nat)
      ensures Valid() && View() == Start(queue)
    {
      this.queue, registered, threads, this.supply := queue, false, [Registering], supply;
      sent, received := queue, [];
      new;
      StartInv(queue);
    }

    /** Thread `t` is where it was, and there is less to come or less to do. */
    twostate predicate Elsewhere(t: nat)
      reads this
    {
      && |threads| >= |old(threads)| && (t < |old(threads)| ==> threads[t] == old(threads)[t])
      && (supply < old(supply) || (supply == old(supply) && Work(View()) <= old(Work(View()))))
    }

    /** A sender's mq_send(). */
    method Send(m: Message)
      requires Valid() && supply > 0
      modifies this
      ensures Valid() && supply == old(supply) - 1
      ensures |threads| >= |old(threads)| && forall t :: 0 <= t < |old(threads)| ==> threads[t] == old(threads)[t]
    {
      hide Inv, Work;
      Forward(View(), Step.Send(m));
      if queue == [] && registered {
        registered := false;
        threads := threads + [Registering];
      }
      queue, sent, supply := queue + [m], sent + [m], supply - 1;
    }

    /** mq_notify(): -1 if the process is registered already. */
    method MqNotify(t: nat) returns (rc: int)
      requires Valid() && In(View(), t, Registering)
      modifies this`registered, this`threads
      ensures Valid() && rc == 0 && threads == old(threads)[t := Draining] && Work(View()) < old(Work(View()))
    {
      hide Inv, Work;
      NotRefused(View(), t);
      Forward(View(), Register(t));
      if registered {
        return -1;
      }
      registered, threads := true, threads[t := Draining];
      return 0;
    }

    /** mq_receive() without blocking: -1 if the queue is empty. */
    method MqReceive(t: nat) returns (numRead: int)
      requires Valid() && In(View(), t, Draining)
      modifies this`queue, this`received, this`threads
      ensures Valid() && Work(View()) < old(Work(View())) && (numRead < 0 <==> old(queue) == [])
      ensures threads == if numRead >= 0 then old(threads) else old(threads)[t := Finished]
    {
      hide Inv, Work;
      if queue == [] {
        Forward(View(), FindEmpty(t));
        threads := threads[t := Finished];
        return -1;
      }
      var k :| 0 <= k < |queue|;
      Forward(View(), Receive(t, k));
      received := received + [queue[k]];
      queue := queue[..k] + queue[k + 1..];
      return 0;
    }

    /** A statement of some thread other than `t`. */
    method OtherThread(t: nat, u: nat)
      requires Valid() && u != t && u < |threads| && threads[u] != Finished
      modifies this`queue, this`registered, this`received, this`threads
      ensures Valid() && Elsewhere(t) && Work(View()) < old(Work(View()))
    {
      hide Inv, Work;
      match threads[u] {
        case Registering =>
          var _ := MqNotify(u);
        case Draining =>
          var _ := MqReceive(u);
      }
    }

    /** Between two statements of thread `t`, senders and other threads may do anything. */
    method Others(t: nat)
      requires Valid()
      modifies this
      ensures Valid() && Elsewhere(t)
    {
      hide Inv, Work;
      while *
        invariant Valid() && Elsewhere(t)
        decreases supply, Work(View())
      {
        if * {
          if supply == 0 {
            break;
          }
          var m: Message := *;
          Send(m);
        } else {
          if u :| 0 <= u < |threads| && u != t && threads[u] != Finished {
            OtherThread(t, u);
          } else {
            break;
          }
        }
      }
    }

    /** drainQueue(). */
    method DrainQueue(t: nat)
      requires Valid() && In(View(), t, Draining)
      modifies this
      ensures Valid() && In(View(), t, Finished)
    {
      hide Inv, Work;
      Others(t);
      var numRead := MqReceive(t);
      while numRead >= 0
        invariant Valid() && In(View(), t, if numRead >= 0 then Draining else Finished)
        decreases supply, Work(View())
      {
        Others(t);
        numRead := MqReceive(t);
      }
      Others(t);
    }

    /** notifySetup(): mq_notify() does not fail, and so does not end the program. */
    method NotifySetup(t: nat)
      requires Valid() && In(View(), t, Registering)
      modifies this
      ensures Valid() && In(View(), t, Draining)
    {
      hide Inv, Work;
      Others(t);
      var rc := MqNotify(t);
      assert rc != -1;
      Others(t);
    }

    /** threadFunc(), and what main() does before it pauses. When it is through, no message has been lost,
        and if there is one in the queue some other thread has yet to drain it. */
    method ThreadFunc(t: nat)
      requires Valid() && In(View(), t, Registering)
      modifies this
      ensures Valid() && In(View(), t, Finished)
      ensures multiset(sent) == multiset(queue) + multiset(received)
      ensures queue != [] ==> exists u :: u != t && 0 <= u < |threads| && threads[u] != Finished
    {
      hide Inv, Work;
      NotifySetup(t);
      DrainQueue(t);
      DrainedMeans(View(), t);
    }
  }
}
