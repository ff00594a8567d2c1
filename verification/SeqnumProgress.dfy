/** When the sequence-number service gets stuck: requests and responses share the space of one queue, so
    that requests can keep the server's response out. */
module SeqnumProgress {

  import opened SeqnumServer

  predicate AllServed(s: State) {
    forall p :: p in s.clients ==> s.clients[p].Served?
  }

  /** Some client is not served, and nobody can take a step. */
  ghost predicate Stuck(s: State) {
    !AllServed(s) && forall st :: !Enabled(s, st)
  }

  /** Either there is space for the requests of all clients together, or a queue that holds nothing but
      requests always has space left for one response. */
  predicate Roomy(capacity: nat, clients: nat) {
    clients > 0 ==> capacity >= 8 && (8 * clients <= capacity || capacity % 8 >= 4)
  }

  // ---- sizes ----

  predicate AllRequests(queue: seq<Message>) {
    forall i :: 0 <= i < |queue| ==> queue[i].Request?
  }

  lemma {:induction false} RequestsUsed(queue: seq<Message>)
    requires AllRequests(queue)
    ensures Used(queue) == 8 * |queue|
  {
    if queue != [] {
      RequestsUsed(queue[..|queue| - 1]);
    }
  }

  function Pids(queue: seq<Message>): set<int> {
    if queue == [] then {} else Pids(queue[..|queue| - 1]) + {queue[|queue| - 1].pid}
  }

  lemma {:induction false} PidsExact(queue: seq<Message>)
    requires OneEach(queue)
    ensures |Pids(queue)| == |queue| && forall p :: p in Pids(queue) <==> About(queue, p)
  {
    if queue != [] {
      var n := |queue| - 1;
      PidsExact(queue[..n]);
      assert queue == queue[..n] + [queue[n]];
      AboutAppend(queue[..n], queue[n]);
      assert queue[n].pid !in Pids(queue[..n]);
    }
  }

  lemma {:induction false} SubsetSize<T>(a: set<T>, b: set<T>)
    requires a <= b
    ensures |a| <= |b|
  {
    if a != {} {
      var x :| x in a;
      SubsetSize(a - {x}, b - {x});
    }
  }

  lemma Member<T>(a: set<T>) returns (x: T)
    requires a != {}
    ensures x in a
  {
    x :| x in a;
  }

  /** Every message is about a client of its own, and so is the request at the server. */
  lemma QueueBound(s: State)
    requires Inv(s) && s.server.Replying?
    ensures |s.queue| + 1 <= |s.clients|
  {
    hide Sum, RightClients, RightGrants;
    PidsExact(s.queue);
    forall p | About(s.queue, p)
      ensures p in s.clients
    {
      var i :| 0 <= i < |s.queue| && s.queue[i].pid == p;
      assert RightMessage(s, s.queue[i]);
    }
    var asking := Pids(s.queue) + {s.server.pid};
    assert asking <= s.clients.Keys by {
      assert forall p :: p in asking ==> p in s.clients.Keys;
    }
    SubsetSize(asking, s.clients.Keys);
  }

  // ---- enough space ----

  /** A response in the queue can be fetched. */
  lemma FetchEnabled(s: State, i: nat) returns (st: Step)
    requires Inv(s) && i < |s.queue| && s.queue[i].Response?
    ensures Enabled(s, st)
  {
    hide Sum, RightClients, RightGrants, RightServer;
    assert RightMessage(s, s.queue[i]);
    st := Fetch(s.queue[i].pid);
    assert s.queue[i].Type() == s.queue[i].pid;
  }

  lemma ReplyEnabled(s: State)
    requires Inv(s) && s.server.Replying? && AllRequests(s.queue)
    requires s.capacity % 8 >= 4 || 8 * |s.clients| <= s.capacity
    ensures Enabled(s, Reply)
  {
    hide RightClients, RightGrants, RightServer, RightMessages;
    RequestsUsed(s.queue);
    QueueBound(s);
  }

  lemma NeverStuck(s: State) returns (st: Step)
    requires Inv(s) && Roomy(s.capacity, |s.clients|) && !AllServed(s)
    ensures Enabled(s, st)
  {
    hide Sum, RightGrants, RightServer, RightMessages;
    var p :| p in s.clients && !s.clients[p].Served?;
    assert RightClient(s, p);
    assert |s.clients| > 0 by { SubsetSize({p}, s.clients.Keys); }
    if s.server.Adding? {
      st := Add;
    } else if i :| 0 <= i < |s.queue| && s.queue[i].Response? {
      st := FetchEnabled(s, i);
    } else if s.server.Replying? {
      ReplyEnabled(s);
      st := Reply;
    } else if s.queue != [] {
      assert s.queue[0].Type() == 1;
      st := Take;
    } else {
      RequestsUsed(s.queue);
      st := Ask(p);
    }
  }

  // ---- every run ends ----

  function Starters(s: State): set<int> {
    set p | p in s.clients && s.clients[p].Starting?
  }

  /** The number of steps that are left: five for each client. */
  function Work(s: State): nat {
    5 * |Starters(s)| + Sum(s.queue, 4, 1) +
    match s.server
    case Receiving => 0
    case Replying(_, _) => 3
    case Adding(_) => 1
  }

  lemma AskStarters(s: State, p: int)
    requires Enabled(s, Ask(p))
    ensures |Starters(After(s, Ask(p)))| == |Starters(s)| - 1
  {
    hide Sum;
    assert Starters(After(s, Ask(p))) == Starters(s) - {p};
  }

  lemma OthersStarters(s: State, st: Step)
    requires Enabled(s, st) && !st.Ask?
    ensures Starters(After(s, st)) == Starters(s)
  {
    hide Sum, FirstOf;
  }

  lemma StepWork(s: State, st: Step)
    requires Inv(s) && Enabled(s, st)
    ensures Work(After(s, st)) == Work(s) - 1
  {
    hide Sum, Starters, RightClients, RightGrants, RightMessages, OneEach;
    StepKeeps(s, st);
    match st
    case Ask(p) =>
      AskStarters(s, p);
      SumAppend(s.queue, Request(p, s.clients[p].len), 4, 1);
    case Take =>
      OthersStarters(s, st);
      SumWithout(s.queue, FirstOf(s.queue, 1), 4, 1);
    case Reply =>
      OthersStarters(s, st);
      SumAppend(s.queue, Response(s.server.pid, s.seqNum), 4, 1);
    case Add => OthersStarters(s, st);
    case Fetch(p) =>
      OthersStarters(s, st);
      SumWithout(s.queue, FirstOf(s.queue, p), 4, 1);
  }

  lemma {:induction false} RunWork(s: State, steps: seq<Step>)
    requires Inv(s) && Legal(s, steps)
    ensures Work(End(s, steps)) + |steps| == Work(s)
    decreases |steps|
  {
    hide Work, Inv, After, Enabled;
    if steps != [] {
      StepWork(s, steps[0]);
      StepKeeps(s, steps[0]);
      RunWork(After(s, steps[0]), steps[1..]);
    }
  }

  lemma WorkDone(s: State)
    requires Inv(s) && Work(s) == 0
    ensures AllServed(s) && s.server == Receiving && s.queue == []
  {
    hide RightGrants, RightMessages, RightServer, OneEach;
    assert s.queue == [] by { SomeSize(s.queue); }
    forall p | p in s.clients
      ensures s.clients[p].Served?
    {
      assert RightClient(s, p) && p !in Starters(s);
    }
  }

  lemma SomeSize(queue: seq<Message>)
    ensures queue != [] ==> Sum(queue, 4, 1) > 0
  {
  }

  /** With everyone served, only the server's addition can be left. */
  lemma WorkLeft(s: State)
    requires Inv(s) && AllServed(s) && Work(s) > 0
    ensures Enabled(s, Add)
  {
    hide RightGrants, RightClients, RightMessages, OneEach;
    assert Starters(s) == {} by {
      assert forall p :: p !in Starters(s);
    }
    if s.queue != [] {
      SomeoneWaits(s);
    }
  }

  lemma SomeoneWaits(s: State)
    requires Inv(s) && s.queue != []
    ensures !AllServed(s)
  {
    hide RightGrants, RightClients, OneEach;
    assert RightMessage(s, s.queue[0]);
  }

  /** With enough space, every run is finite, and a run that cannot go on has served every client. */
  lemma EveryoneIsServed(lengths: map<int, int>, capacity: nat, steps: seq<Step>)
    requires 1 !in lengths && Roomy(capacity, |lengths|) && Legal(Start(lengths, capacity), steps)
    ensures var s := End(Start(lengths, capacity), steps);
      && |steps| <= 5 * |lengths|
      && (|steps| < 5 * |lengths| ==> exists st :: Enabled(s, st))
      && (|steps| == 5 * |lengths| ==> AllServed(s) && s.server == Receiving)
  {
    hide Inv, Work, Enabled;
    var s0 := Start(lengths, capacity);
    var s := End(s0, steps);
    StartInv(lengths, capacity);
    StartWork(lengths, capacity);
    RunKeeps(s0, steps);
    RunClients(s0, steps);
    RunWork(s0, steps);
    assert |s.clients| == |s.clients.Keys| == |s0.clients.Keys| == |lengths.Keys| by {
      assert s0.clients.Keys == lengths.Keys;
    }
    if Work(s) == 0 {
      WorkDone(s);
    } else if AllServed(s) {
      WorkLeft(s);
    } else {
      var st := NeverStuck(s);
    }
  }

  lemma StartWork(lengths: map<int, int>, capacity: nat)
    ensures Work(Start(lengths, capacity)) == 5 * |lengths|
  {
    var s := Start(lengths, capacity);
    assert Starters(s) == lengths.Keys by {
      assert forall p :: p in Starters(s) <==> p in lengths.Keys;
    }
  }

  // ---- too little space ----

  /** Every client has asked for its number at most, and all that is in the queue is requests. */
  predicate OnlyAsked(s: State) {
    && !s.confused && AllRequests(s.queue) && 1 !in s.clients
    && forall p :: p in s.clients ==> !s.clients[p].Served?
  }

  /** As many clients ask as there are and as there is space for. */
  lemma {:induction false} AskMany(s: State, k: nat) returns (steps: seq<Step>)
    requires OnlyAsked(s) && k <= |Starters(s)| && 8 * (|s.queue| + k) <= s.capacity
    ensures Legal(s, steps)
    ensures var t := End(s, steps);
      && OnlyAsked(t) && |t.queue| == |s.queue| + k && |Starters(t)| == |Starters(s)| - k
      && t.capacity == s.capacity && t.server == s.server && t.clients.Keys == s.clients.Keys
    decreases k
  {
    hide Sum;
    if k == 0 {
      steps := [];
    } else {
      var p := Member(Starters(s));
      RequestsUsed(s.queue);
      AskStarters(s, p);
      var rest := AskMany(After(s, Ask(p)), k - 1);
      steps := [Ask(p)] + rest;
      assert steps[1..] == rest;
    }
  }

  /** The server holds a request, the queue is full of requests, and its response does not fit. */
  lemma Jammed(s: State)
    requires OnlyAsked(s) && s.clients.Keys != {}
    requires s.server.Replying? || (s.server.Receiving? && s.queue == [])
    requires s.capacity % 8 < 4 && |s.queue| == s.capacity / 8
    ensures Stuck(s)
  {
    hide Sum;
    RequestsUsed(s.queue);
    forall st
      ensures !Enabled(s, st)
    {
    }
    var p := Member(s.clients.Keys);
  }

  lemma TakeFirst(s: State)
    requires OnlyAsked(s) && s.server.Receiving? && s.queue != []
    ensures Legal(s, [Take])
    ensures var t := End(s, [Take]);
      && OnlyAsked(t) && t.server.Replying? && |t.queue| == |s.queue| - 1 && t.clients == s.clients
      && t.capacity == s.capacity
  {
    hide Sum;
    assert s.queue[0].Type() == 1;
    var t := After(s, Take);
    assert t.queue == s.queue[1..];
    assert Legal(t, []) && End(t, []) == t;
  }

  /** A run into a state in which nobody can go on. */
  lemma Jam(lengths: map<int, int>, capacity: nat) returns (steps: seq<Step>)
    requires 1 !in lengths && !Roomy(capacity, |lengths|)
    ensures Legal(Start(lengths, capacity), steps) && Stuck(End(Start(lengths, capacity), steps))
  {
    hide Enabled, Stuck;
    var s := Start(lengths, capacity);
    StartWork(lengths, capacity);
    var k := capacity / 8;
    steps := [];
    assert s.clients.Keys != {} by { assert |lengths| > 0; }
    if k == 0 {
      if capacity < 4 {
        Jammed(s);
      } else {
        NothingFits(s);
      }
    } else {
      var a := AskMany(s, k);
      var t := End(s, a);
      TakeFirst(t);
      LegalConcat(s, a, [Take]);
      var u := End(t, [Take]);
      var b := AskMany(u, 1);
      LegalConcat(s, a + [Take], b);
      steps := a + [Take] + b;
      Jammed(End(u, b));
    }
  }

  lemma NothingFits(s: State)
    requires OnlyAsked(s) && s.clients.Keys != {} && s.server.Receiving? && s.queue == [] && s.capacity < 8
    ensures Stuck(s)
  {
    forall st
      ensures !Enabled(s, st)
    {
    }
    var p := Member(s.clients.Keys);
  }

  /** The service can get stuck exactly when the queue is too small: when it cannot hold the requests of
      all clients and, filled with requests, has no space left for a response. */
  lemma StuckIff(lengths: map<int, int>, capacity: nat)
    requires 1 !in lengths
    ensures (exists steps :: Legal(Start(lengths, capacity), steps) && Stuck(End(Start(lengths, capacity), steps)))
            <==> lengths != map[] && (capacity < 8 || (capacity < 8 * |lengths| && capacity % 8 < 4))
  {
    hide Enabled, Inv;
    assert |lengths| > 0 <==> lengths != map[];
    if Roomy(capacity, |lengths|) {
      forall steps | Legal(Start(lengths, capacity), steps)
        ensures !Stuck(End(Start(lengths, capacity), steps))
      {
        EveryoneIsServed(lengths, capacity, steps);
      }
    } else {
      var steps := Jam(lengths, capacity);
    }
  }
}
