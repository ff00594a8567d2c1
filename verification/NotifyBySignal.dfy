/** The notification protocol of mq_notify_via_signal.c: a signal handler sets a flag, and the main loop
    clears the flag, registers for notification again and drains the queue. */
module NotifyBySignal {

  import opened Common

  type Message = int

  /** The statement that main executes next. */
  datatype Place = Testing | Clearing | Registering | Draining | Sleeping

  /** `pending` is the pending bit of the notification signal, which does not count signals. `refused`
      says that mq_notify() found the process still registered, which ends the program. */
  datatype State = State(
    queue: seq<Message>,
    registered: bool,
    pending: bool,
    gotSig: bool,
    main: Place,
    refused: bool,
    sent: seq<Message>,
    received: seq<Message>)

  /** One atomic step: of a sender, of the signal handler, or of main. */
  datatype Step =
    | Send(m: Message)
    | Handle
    | Advance
    | Receive(k: nat)

  function Start(queue: seq<Message>): State {
    State(queue, false, false, true, Testing, false, queue, [])
  }

  /** The handler can run between any two statements of main. */
  predicate Enabled(s: State, st: Step) {
    !s.refused &&
    match st
    case Send(_) => true
    case Handle => s.pending
    case Advance => s.main == Draining ==> s.queue == []
    case Receive(k) => s.main == Draining && k < |s.queue|
  }

  /** A message on an empty queue uses up the registration and raises the signal. */
  function After(s: State, st: Step): State
    requires Enabled(s, st)
  {
    match st
    case Send(m) =>
      var s' := s.(queue := s.queue + [m], sent := s.sent + [m]);
      if s.queue == [] && s.registered then s'.(registered := false, pending := true) else s'
    case Handle => s.(pending := false, gotSig := true)
    case Receive(k) =>
      s.(queue := s.queue[..k] + s.queue[k + 1..], received := s.received + [s.queue[k]])
    case Advance =>
      match s.main
      case Testing => s.(main := if s.gotSig then Clearing else Sleeping)
      case Clearing => s.(gotSig := false, main := Registering)
      case Registering =>
        if s.registered then s.(refused := true) else s.(registered := true, main := Draining)
      case Draining => s.(main := Sleeping)
      case Sleeping => s.(main := Testing)
  }

  predicate Legal(s: State, steps: seq<Step>)
    decreases |steps|
  {
    steps == [] || (Enabled(s, steps[0]) && Legal(After(s, steps[0]), steps[1..]))
  }

  function End(s: State, steps: seq<Step>): State
    requires Legal(s, steps)
    decreases |steps|
  {
    if steps == [] then s else End(After(s, steps[0]), steps[1..])
  }

  // ---- what every step keeps ----

  /** The chance to notice a message is in exactly one of four places. */
  predicate OneToken(s: State) {
    One(s.registered) + One(s.pending) + One(s.gotSig) + One(s.main == Registering) == 1
  }

  ghost predicate Inv(s: State) {
    && !s.refused && OneToken(s)
    && (s.main == Clearing ==> s.gotSig)
    && (s.registered && s.main != Draining ==> s.queue == [])
    && multiset(s.sent) == multiset(s.queue) + multiset(s.received)
  }

  lemma StepKeeps(s: State, st: Step)
    requires Inv(s) && Enabled(s, st)
    ensures Inv(After(s, st))
  {
    match st
    case Receive(k) => assert s.queue == s.queue[..k] + [s.queue[k]] + s.queue[k + 1..];
    case _ =>
  }

  lemma {:induction false} RunKeeps(s: State, steps: seq<Step>)
    requires Inv(s) && Legal(s, steps)
    ensures Inv(End(s, steps))
    decreases |steps|
  {
    if steps != [] {
      StepKeeps(s, steps[0]);
      RunKeeps(After(s, steps[0]), steps[1..]);
    }
  }

  // ---- nothing is lost ----

  /** How far main is from sleeping on an empty queue, apart from the messages to receive. */
  function Distance(s: State): nat {
    if s.pending then 6 + One(s.main == Draining)
    else if s.gotSig then
      match s.main
      case Draining => 6
      case Sleeping => 5
      case Testing => 4
      case _ => 3
    else if s.main == Registering then 2
    else One(s.main == Draining)
  }

  function Work(s: State): nat {
    Distance(s) + |s.queue|
  }

  /** Main goes round its loop and finds the flag clear. */
  predicate Idle(s: State, st: Step) {
    st.Advance? && !s.gotSig && (s.main == Testing || s.main == Sleeping)
  }

  lemma StepWork(s: State, st: Step)
    requires Inv(s) && Enabled(s, st) && !st.Send?
    ensures if Idle(s, st) then Work(After(s, st)) == Work(s) else Work(After(s, st)) < Work(s)
  {
    StepKeeps(s, st);
  }

  /** How many steps of a run are not idle. */
  function Busy(s: State, steps: seq<Step>): nat
    requires Legal(s, steps)
    decreases |steps|
  {
    if steps == [] then 0
    else One(!Idle(s, steps[0])) + Busy(After(s, steps[0]), steps[1..])
  }

  lemma {:induction false} ProcessWorks(s: State, steps: seq<Step>)
    requires Inv(s) && Legal(s, steps) && forall i :: 0 <= i < |steps| ==> !steps[i].Send?
    ensures Busy(s, steps) + Work(End(s, steps)) <= Work(s) && End(s, steps).sent == s.sent
    decreases |steps|
  {
    if steps != [] {
      StepWork(s, steps[0]);
      StepKeeps(s, steps[0]);
      ProcessWorks(After(s, steps[0]), steps[1..]);
    }
  }

  /** With work left, either the signal is about to be delivered or main is about to do some of it. */
  lemma WorkIsNotIdle(s: State) returns (st: Step)
    requires Inv(s) && Work(s) > 0
    ensures Enabled(s, st) && !st.Send? && !Idle(s, st) && (s.pending || !st.Handle?)
  {
    st := if s.pending then Handle else if s.main == Draining && s.queue != [] then Receive(0) else Advance;
  }

  /** In every run mq_notify() is never refused. While main sleeps with the flag clear and no signal
      pending, the queue is empty, the process is registered and all that was sent has been received.
      When senders pause, the process takes at most Work() steps that are not idle; as long as work is
      left it has such a step to take; and with none left everything has been received. */
  lemma NothingIsLost(queue: seq<Message>, steps: seq<Step>, rest: seq<Step>)
    requires Legal(Start(queue), steps)
    requires var s := End(Start(queue), steps);
      Legal(s, rest) && forall i :: 0 <= i < |rest| ==> !rest[i].Send?
    ensures var s := End(Start(queue), steps);
      && !s.refused && OneToken(s)
      && (s.main == Sleeping && !s.gotSig && !s.pending ==>
            s.queue == [] && s.registered && multiset(s.received) == multiset(s.sent))
    ensures var s, t := End(Start(queue), steps), End(End(Start(queue), steps), rest);
      && Busy(s, rest) + Work(t) <= Work(s)
      && (Work(t) > 0 ==> exists st :: Enabled(t, st) && !st.Send? && !Idle(t, st))
      && (Work(t) == 0 ==> multiset(t.received) == multiset(s.sent))
  {
    RunKeeps(Start(queue), steps);
    var s := End(Start(queue), steps);
    RunKeeps(s, rest);
    ProcessWorks(s, rest);
    if Work(End(s, rest)) > 0 {
      var st := WorkIsNotIdle(End(s, rest));
    }
  }

  // ---- the program ----

  lemma Forward(s: State, st: Step)
    requires Inv(s) && Enabled(s, st)
    ensures Inv(After(s, st))
  {
    StepKeeps(s, st);
  }

  /** Main finds the process not registered. */
  lemma NotRefused(s: State)
    requires Inv(s) && s.main == Registering
    ensures !s.registered
  {
  }

  /** Back at the test of the flag with no signal to be noticed, main has received everything. */
  lemma QuietMeans(s: State)
    requires Inv(s) && (s.main == Testing || s.main == Sleeping)
    ensures !s.gotSig && !s.pending ==> s.registered && s.queue == [] && multiset(s.received) == multiset(s.sent)
  {
  }

  class Process {
    var queue: seq<Message>
    var registered: bool
    var pending: bool
    var gotSig: bool
    var place: Place
    var sent: seq<Message>
    var received: seq<Message>
      // how many messages there are still to come
    var supply: nat

    function View(): State
      reads this
    {
      State(queue, registered, pending, gotSig, place, false, sent, received)
    }

    ghost predicate Valid()
      reads this
    {
      Inv(View())
    }

    constructor (queue: seq<Message>, supply: nat)
      ensures Valid() && View() == Start(queue)
    {
      this.queue, registered, pending, gotSig, place, this.supply := queue, false, false, true, Testing, supply;
      sent, received := queue, [];
    }

    /** A sender's mq_send(). */
    method Send(m: Message)
      requires Valid() && supply > 0
      modifies this`queue, this`sent, this`registered, this`pending, this`supply
      ensures Valid() && supply == old(supply) - 1 && |queue| == |old(queue)| + 1
    {
      hide Inv;
      Forward(View(), Step.Send(m));
      if queue == [] && registered {
        registered, pending := false, true;
      }
      queue, sent, supply := queue + [m], sent + [m], supply - 1;
    }

    /** handler(). */
    method Handler()
      requires Valid() && pending
      modifies this`pending, this`gotSig
      ensures Valid() && gotSig && !pending
    {
      hide Inv;
      Forward(View(), Handle);
      pending := false;
      gotSig := true;
    }

    /** Between two statements of main messages may arrive, and the handler may run. */
    method Others()
      requires Valid()
      modifies this`queue, this`sent, this`registered, this`pending, this`gotSig, this`supply
      ensures Valid() && supply <= old(supply) && |queue| - |old(queue)| == old(supply) - supply
    {
      hide Inv;
      while *
        invariant Valid() && supply <= old(supply) && |queue| - |old(queue)| == old(supply) - supply
        decreases supply, pending
      {
        if * {
          if supply == 0 {
            break;
          }
          var m: Message := *;
          Send(m);
        } else {
          if !pending {
            break;
          }
          Handler();
        }
      }
    }

    /** mq_notify(): -1 if the process is registered already. */
    method MqNotify() returns (rc: int)
      requires Valid() && place == Registering
      modifies this`registered, this`place
      ensures Valid() && place == Draining && rc == 0
    {
      hide Inv;
      NotRefused(View());
      Forward(View(), Advance);
      if registered {
        return -1;
      }
      registered, place := true, Draining;
      return 0;
    }

    /** mq_receive() without blocking: -1 if the queue is empty. */
    method MqReceive() returns (numRead: int)
      requires Valid() && place == Draining
      modifies this`queue, this`received, this`place
      ensures Valid() && place == if numRead >= 0 then Draining else Sleeping
      ensures numRead >= 0 ==> |queue| == |old(queue)| - 1
    {
      hide Inv;
      if queue == [] {
        Forward(View(), Advance);
        place := Sleeping;
        return -1;
      }
      var k :| 0 <= k < |queue|;
      Forward(View(), Receive(k));
      received := received + [queue[k]];
      queue := queue[..k] + queue[k + 1..];
      return 0;
    }

    /** What main does when the flag is set: clears it, registers, which does not fail, and drains. */
    method Serve()
      requires Valid() && place == Clearing
      modifies this
      ensures Valid() && place == Sleeping
    {
      hide Inv;
      Others();
      Forward(View(), Advance);
      gotSig, place := false, Registering;
      Others();
      var rc := MqNotify();
      assert rc != -1;
      Others();
      while true
        invariant Valid() && place == Draining
        decreases supply + |queue|
      {
        var numRead := MqReceive();
        if numRead < 0 {
          break;
        }
        Others();
      }
    }

    /** The endless loop of main(), cut off after any number of rounds. In every round, whenever main
        sleeps with the flag clear and no signal pending, everything sent has been received. */
    method MainLoop(rounds: nat)
      requires Valid() && place == Testing
      modifies this
      ensures Valid() && place == Testing
      ensures !gotSig && !pending ==> registered && queue == [] && multiset(received) == multiset(sent)
    {
      hide Inv;
      for j := 0 to rounds
        invariant Valid() && place == Testing
      {
        Others();
        Forward(View(), Advance);
        if gotSig {
          place := Clearing;
          Serve();
        } else {
          place := Sleeping;
        }
        Others();
        QuietMeans(View());
        assert !gotSig && !pending ==> queue == [] && multiset(received) == multiset(sent);
        Others();
        Forward(View(), Advance);
        place := Testing;
      }
      QuietMeans(View());
    }
  }
}
