/** The sequence-number service of msg_seqnum_server.c and msg_seqnum_client.c: requests and responses
    share one System V message queue, told apart by message type only. */
module SeqnumServer {

  /** A request has type 1; a response has the client's process ID as its type. */
  datatype Message = Request(pid: int, len: int) | Response(pid: int, first: int) {
    function Type(): int {
      if Request? then 1 else pid
    }
  }

  datatype Client = Starting(len: int) | Waiting(len: int) | Served(len: int, first: int)

  /** The statement that the server executes next: msgrcv(), msgsnd(), or the addition. */
  datatype Server = Receiving | Replying(pid: int, len: int) | Adding(len: int)

  datatype Grant = Grant(pid: int, first: int, len: int)

  /** `capacity` is the limit on the bytes in the queue. `grants` records the responses sent;
      `confused` says that one side received a message meant for the other. */
  datatype State = State(
    queue: seq<Message>, capacity: nat,
    server: Server, seqNum: int,
    clients: map<int, Client>,
    grants: seq<Grant>, confused: bool)

  datatype Step = Ask(pid: int) | Take | Reply | Add | Fetch(pid: int)

  function Start(lengths: map<int, int>, capacity: nat): State {
    State([], capacity, Receiving, 0, map p | p in lengths :: Starting(lengths[p]), [], false)
  }

  /** Summed sizes, given those of a request and of a response. */
  function Sum(queue: seq<Message>, request: nat, response: nat): nat {
    if queue == [] then 0
    else Sum(queue[..|queue| - 1], request, response) + if queue[|queue| - 1].Request? then request else response
  }

  /** The bytes in the queue: two integers a request, one a response. */
  function Used(queue: seq<Message>): nat {
    Sum(queue, 8, 4)
  }

  /** The message that msgrcv() takes for a positive type: the first one of that type. */
  function FirstOf(queue: seq<Message>, t: int): (i: nat)
    ensures i <= |queue| && (forall k :: 0 <= k < i ==> queue[k].Type() != t) && (i < |queue| ==> queue[i].Type() == t)
  {
    if queue == [] || queue[0].Type() == t then 0 else 1 + FirstOf(queue[1..], t)
  }

  /** Senders wait for space, receivers for a message of their type. */
  predicate Enabled(s: State, st: Step) {
    !s.confused &&
    match st
    case Ask(p) => p in s.clients && s.clients[p].Starting? && Used(s.queue) + 8 <= s.capacity
    case Take => s.server.Receiving? && FirstOf(s.queue, 1) < |s.queue|
    case Reply => s.server.Replying? && Used(s.queue) + 4 <= s.capacity
    case Add => s.server.Adding?
    case Fetch(p) => p in s.clients && s.clients[p].Waiting? && FirstOf(s.queue, p) < |s.queue|
  }

  function Without(queue: seq<Message>, i: nat): seq<Message>
    requires i < |queue|
  {
    queue[..i] + queue[i + 1..]
  }

  function After(s: State, st: Step): State
    requires Enabled(s, st)
  {
    match st
    case Ask(p) =>
      var l := s.clients[p].len;
      s.(queue := s.queue + [Request(p, l)], clients := s.clients[p := Waiting(l)])
    case Take =>
      var i := FirstOf(s.queue, 1);
      var m := s.queue[i];
      var s' := s.(queue := Without(s.queue, i));
      if m.Request? then s'.(server := Replying(m.pid, m.len)) else s'.(confused := true)
    case Reply =>
      var p, l := s.server.pid, s.server.len;
      s.(queue := s.queue + [Response(p, s.seqNum)], server := Adding(l),
        grants := s.grants + [Grant(p, s.seqNum, l)])
    case Add => s.(seqNum := s.seqNum + s.server.len, server := Receiving)
    case Fetch(p) =>
      var i := FirstOf(s.queue, p);
      var m := s.queue[i];
      var s' := s.(queue := Without(s.queue, i));
      if m.Response? then s'.(clients := s.clients[p := Served(s.clients[p].len, m.first)])
      else s'.(confused := true)
  }

  predicate Legal(s: State, steps: seq<Step>)
    decreases |steps|
  {
    steps == [] || (Enabled(s, steps[0]) && Legal(After(s, steps[0]), steps[1..]))
  }

  function End(s: State, steps: seq<Step>): State
    requires Legal(s, steps)
    decreases |steps|
  {
    if steps == [] then s else End(After(s, steps[0]), steps[1..])
  }

  lemma {:induction false} LegalConcat(s: State, a: seq<Step>, b: seq<Step>)
    requires Legal(s, a) && Legal(End(s, a), b)
    ensures Legal(s, a + b) && End(s, a + b) == End(End(s, a), b)
    decreases |a|
  {
    hide After, Enabled;
    if a == [] {
      assert a + b == b;
    } else {
      assert (a + b)[1..] == a[1..] + b;
      LegalConcat(After(s, a[0]), a[1..], b);
    }
  }

  // ---- whom a message is for ----

  predicate Granted(s: State, p: int) {
    exists i :: 0 <= i < |s.grants| && s.grants[i].pid == p
  }

  predicate Asking(s: State, p: int, l: int) {
    p in s.clients && s.clients[p] == Waiting(l) && !Granted(s, p)
  }

  /** A request comes from a client that waits and has been granted nothing; a response is for a client
      that waits, and carries what it was granted. */
  predicate RightMessage(s: State, m: Message) {
    match m
    case Request(p, l) => Asking(s, p, l)
    case Response(p, f) => p in s.clients && s.clients[p].Waiting? && Grant(p, f, s.clients[p].len) in s.grants
  }

  predicate RightMessages(s: State) {
    forall i :: 0 <= i < |s.queue| ==> RightMessage(s, s.queue[i])
  }

  predicate OneEach(queue: seq<Message>) {
    forall i, j :: 0 <= i < j < |queue| ==> queue[i].pid != queue[j].pid
  }

  predicate About(queue: seq<Message>, p: int) {
    exists i :: 0 <= i < |queue| && queue[i].pid == p
  }

  predicate RightServer(s: State) {
    s.server.Replying? ==> Asking(s, s.server.pid, s.server.len) && !About(s.queue, s.server.pid)
  }

  predicate RightClient(s: State, p: int)
    requires p in s.clients
  {
    match s.clients[p]
    case Starting(_) => !Granted(s, p) && !About(s.queue, p)
    case Waiting(_) => About(s.queue, p) || (s.server.Replying? && s.server.pid == p)
    case Served(l, f) => Grant(p, f, l) in s.grants && !About(s.queue, p)
  }

  predicate RightClients(s: State) {
    forall p :: p in s.clients ==> RightClient(s, p)
  }

  predicate Sane(s: State) {
    && 1 !in s.clients && !s.confused && Used(s.queue) <= s.capacity
    && OneEach(s.queue)
  }

  /** The grants follow each other without a gap. */
  predicate Chained(grants: seq<Grant>) {
    && (grants != [] ==> grants[0].first == 0)
    && forall i {:trigger grants[i].len} :: 0 <= i < |grants| - 1 ==>
         grants[i + 1].first == grants[i].first + grants[i].len
  }

  function ChainEnd(grants: seq<Grant>): int {
    if grants == [] then 0 else grants[|grants| - 1].first + grants[|grants| - 1].len
  }

  predicate RightGrants(s: State) {
    && Chained(s.grants)
    && ChainEnd(s.grants) == s.seqNum + (if s.server.Adding? then s.server.len else 0)
    && (forall i, j :: 0 <= i < j < |s.grants| ==> s.grants[i].pid != s.grants[j].pid)
    && forall i :: 0 <= i < |s.grants| ==> GrantedAsAsked(s, s.grants[i])
  }

  predicate GrantedAsAsked(s: State, g: Grant) {
    g.pid in s.clients && s.clients[g.pid].len == g.len
  }

  ghost predicate Inv(s: State) {
    Sane(s) && RightMessages(s) && RightServer(s) && RightClients(s) && RightGrants(s)
  }

  // ---- sums and removals ----

  lemma SumAppend(queue: seq<Message>, m: Message, request: nat, response: nat)
    ensures Sum(queue + [m], request, response) ==
            Sum(queue, request, response) + if m.Request? then request else response
  {
    assert (queue + [m])[..|queue|] == queue;
  }

  lemma {:induction false} SumWithout(queue: seq<Message>, i: nat, request: nat, response: nat)
    requires i < |queue|
    ensures Sum(queue, request, response) ==
            Sum(Without(queue, i), request, response) + if queue[i].Request? then request else response
  {
    var n := |queue| - 1;
    if i == n {
      assert Without(queue, i) == queue[..n];
    } else {
      assert Without(queue, i) == Without(queue[..n], i) + [queue[n]];
      SumWithout(queue[..n], i, request, response);
      SumAppend(Without(queue[..n], i), queue[n], request, response);
    }
  }

  /** Without() keeps every message but one. */
  lemma WithoutKeeps(queue: seq<Message>, i: nat)
    requires i < |queue| && OneEach(queue)
    ensures var q := Without(queue, i);
      && OneEach(q) && |q| == |queue| - 1
      && (forall k :: 0 <= k < |q| ==> q[k] in queue && q[k] != queue[i])
      && (forall p :: About(q, p) <==> About(queue, p) && p != queue[i].pid)
  {
    var q := Without(queue, i);
    assert forall k :: 0 <= k < |q| ==> q[k] == queue[if k < i then k else k + 1];
    forall p | About(queue, p) && p != queue[i].pid
      ensures About(q, p)
    {
      var k :| 0 <= k < |queue| && queue[k].pid == p;
      assert q[if k < i then k else k - 1] == queue[k];
    }
  }

  lemma AboutAppend(queue: seq<Message>, m: Message)
    ensures forall p :: About(queue + [m], p) <==> About(queue, p) || p == m.pid
  {
    var q := queue + [m];
    assert q[|queue|] == m;
    forall p | About(queue, p)
      ensures About(q, p)
    {
      var k :| 0 <= k < |queue| && queue[k].pid == p;
      assert q[k] == queue[k];
    }
  }

  // ---- what every step keeps ----

  lemma AskKeeps(s: State, p: int)
    requires Inv(s) && Enabled(s, Ask(p))
    ensures Inv(After(s, Ask(p)))
  {
    hide Sum, FirstOf, Chained, ChainEnd;
    var s' := After(s, Ask(p));
    var m := Request(p, s.clients[p].len);
    SumAppend(s.queue, m, 8, 4);
    AboutAppend(s.queue, m);
    assert RightClient(s, p);
    forall i | 0 <= i < |s'.queue|
      ensures RightMessage(s', s'.queue[i])
    {
      if i < |s.queue| {
        assert RightMessage(s, s.queue[i]);
      }
    }
    forall q | q in s'.clients
      ensures RightClient(s', q)
    {
      assert RightClient(s, q);
    }
  }

  lemma TakeKeeps(s: State)
    requires Inv(s) && Enabled(s, Take)
    ensures Inv(After(s, Take))
  {
    hide Sum, Chained, ChainEnd;
    var s' := After(s, Take);
    var i := FirstOf(s.queue, 1);
    var m := s.queue[i];
    assert RightMessage(s, m);
    SumWithout(s.queue, i, 8, 4);
    WithoutKeeps(s.queue, i);
    forall k | 0 <= k < |s'.queue|
      ensures RightMessage(s', s'.queue[k])
    {
      assert RightMessage(s, s'.queue[k]);
    }
    forall q | q in s'.clients
      ensures RightClient(s', q)
    {
      assert RightClient(s, q);
    }
  }

  lemma AddKeeps(s: State)
    requires Inv(s) && Enabled(s, Add)
    ensures Inv(After(s, Add))
  {
    hide Sum, FirstOf, Chained, ChainEnd;
    var s' := After(s, Add);
    forall k | 0 <= k < |s'.queue|
      ensures RightMessage(s', s'.queue[k])
    {
      assert RightMessage(s, s.queue[k]);
    }
    forall q | q in s'.clients
      ensures RightClient(s', q)
    {
      assert RightClient(s, q);
    }
  }

  /** The first message of the client's type is its response. */
  lemma FetchesResponse(s: State, p: int)
    requires Inv(s) && Enabled(s, Fetch(p))
    ensures var i := FirstOf(s.queue, p);
      && s.queue[i].pid == p && RightMessage(s, s.queue[i])
      && s.queue[i] == Response(p, s.queue[i].first)
  {
    hide Sum, RightClients, RightGrants;
    var m := s.queue[FirstOf(s.queue, p)];
    assert RightMessage(s, m);
  }

  lemma FetchGrants(s: State, p: int)
    requires Inv(s) && Enabled(s, Fetch(p))
    ensures RightGrants(After(s, Fetch(p)))
  {
    hide Sum, Chained, ChainEnd, RightMessages, RightClients, RightServer;
    FetchesResponse(s, p);
    var s' := After(s, Fetch(p));
    forall i | 0 <= i < |s'.grants|
      ensures GrantedAsAsked(s', s'.grants[i])
    {
      assert GrantedAsAsked(s, s.grants[i]);
    }
  }

  lemma FetchKeeps(s: State, p: int)
    requires Inv(s) && Enabled(s, Fetch(p))
    ensures Inv(After(s, Fetch(p)))
  {
    hide Sum, FirstOf, RightGrants;
    FetchesResponse(s, p);
    FetchGrants(s, p);
    var s' := After(s, Fetch(p));
    var i := FirstOf(s.queue, p);
    SumWithout(s.queue, i, 8, 4);
    WithoutKeeps(s.queue, i);
    forall k | 0 <= k < |s'.queue|
      ensures RightMessage(s', s'.queue[k])
    {
      assert RightMessage(s, s'.queue[k]);
      assert About(s'.queue, s'.queue[k].pid);
    }
    forall q | q in s'.clients
      ensures RightClient(s', q)
    {
      assert RightClient(s, q);
    }
  }

  lemma ReplyGrants(s: State)
    requires Inv(s) && Enabled(s, Reply)
    ensures RightGrants(After(s, Reply))
  {
    hide Sum, FirstOf, RightMessages, RightClients, OneEach;
    var s' := After(s, Reply);
    var n := |s.grants|;
    assert s'.grants[n].pid == s.server.pid && s'.grants[..n] == s.grants;
    forall i | 0 <= i < n
      ensures s'.grants[i].pid != s'.grants[n].pid && GrantedAsAsked(s', s'.grants[i])
    {
      assert s.grants[i] == s'.grants[i] && GrantedAsAsked(s, s.grants[i]);
    }
  }

  lemma ReplyKeeps(s: State)
    requires Inv(s) && Enabled(s, Reply)
    ensures Inv(After(s, Reply))
  {
    hide Sum, FirstOf, RightGrants;
    ReplyGrants(s);
    var s' := After(s, Reply);
    var p := s.server.pid;
    var g := Grant(p, s.seqNum, s.server.len);
    var m := Response(p, s.seqNum);
    SumAppend(s.queue, m, 8, 4);
    AboutAppend(s.queue, m);
    GrantAppend(s, s', g);
    forall i | 0 <= i < |s'.queue|
      ensures RightMessage(s', s'.queue[i])
    {
      if i < |s.queue| {
        assert RightMessage(s, s.queue[i]) && About(s.queue, s.queue[i].pid);
      }
    }
    forall q | q in s'.clients
      ensures RightClient(s', q)
    {
      assert RightClient(s, q);
    }
  }

  lemma GrantAppend(s: State, s': State, g: Grant)
    requires s'.grants == s.grants + [g]
    ensures g in s'.grants && forall q :: Granted(s', q) <==> Granted(s, q) || q == g.pid
  {
    assert s'.grants[|s.grants|] == g;
    forall q | Granted(s, q)
      ensures Granted(s', q)
    {
      var i :| 0 <= i < |s.grants| && s.grants[i].pid == q;
      assert s'.grants[i] == s.grants[i];
    }
  }

  lemma StepKeeps(s: State, st: Step)
    requires Inv(s) && Enabled(s, st)
    ensures Inv(After(s, st))
  {
    hide Inv, After, Enabled;
    match st
    case Ask(p) => AskKeeps(s, p);
    case Take => TakeKeeps(s);
    case Reply => ReplyKeeps(s);
    case Add => AddKeeps(s);
    case Fetch(p) => FetchKeeps(s, p);
  }

  lemma {:induction false} RunKeeps(s: State, steps: seq<Step>)
    requires Inv(s) && Legal(s, steps)
    ensures Inv(End(s, steps))
    decreases |steps|
  {
    hide Inv, After, Enabled;
    if steps != [] {
      StepKeeps(s, steps[0]);
      RunKeeps(After(s, steps[0]), steps[1..]);
    }
  }

  /** No step makes up a client or changes what it asks for. */
  lemma {:induction false} RunClients(s: State, steps: seq<Step>)
    requires Legal(s, steps)
    ensures End(s, steps).clients.Keys == s.clients.Keys && End(s, steps).capacity == s.capacity
    ensures forall p :: p in s.clients ==> End(s, steps).clients[p].len == s.clients[p].len
    decreases |steps|
  {
    hide Sum, FirstOf;
    if steps != [] {
      RunClients(After(s, steps[0]), steps[1..]);
    }
  }

  lemma StartInv(lengths: map<int, int>, capacity: nat)
    requires 1 !in lengths
    ensures Inv(Start(lengths, capacity))
  {
  }

  /** For any number of clients, any lengths and any interleaving: neither side ever takes a message
      meant for the other; whatever a client fetches is the one response to its own request; and each
      number granted is the previous one plus the length that was asked for there. */
  lemma RepliesAreExact(lengths: map<int, int>, capacity: nat, steps: seq<Step>)
    requires 1 !in lengths && Legal(Start(lengths, capacity), steps)
    ensures var s := End(Start(lengths, capacity), steps);
      && !s.confused && s.clients.Keys == lengths.Keys
      && (forall p :: p in lengths && s.clients[p].Served? ==> Grant(p, s.clients[p].first, lengths[p]) in s.grants)
      && (forall i, j :: 0 <= i < j < |s.grants| ==> s.grants[i].pid != s.grants[j].pid)
      && (forall i :: 0 <= i < |s.grants| ==> s.grants[i].pid in lengths && s.grants[i].len == lengths[s.grants[i].pid])
      && Chained(s.grants) && (s.server == Receiving ==> ChainEnd(s.grants) == s.seqNum)
  {
    hide Sum, FirstOf, Chained, ChainEnd, RightMessage, RightServer;
    StartInv(lengths, capacity);
    RunKeeps(Start(lengths, capacity), steps);
    RunClients(Start(lengths, capacity), steps);
    var s := End(Start(lengths, capacity), steps);
    assert forall i :: 0 <= i < |s.grants| ==> GrantedAsAsked(s, s.grants[i]);
    forall p | p in lengths && s.clients[p].Served?
      ensures Grant(p, s.clients[p].first, lengths[p]) in s.grants
    {
      assert RightClient(s, p);
    }
  }

  /** The client with process ID 1, which is also the type of requests, takes its own request for the
      response. */
  lemma RequestFetched(lengths: map<int, int>, capacity: nat) returns (steps: seq<Step>)
    requires 1 in lengths && capacity >= 8
    ensures Legal(Start(lengths, capacity), steps) && End(Start(lengths, capacity), steps).confused
  {
    var s := Start(lengths, capacity);
    var t := After(s, Ask(1));
    steps := [Ask(1), Fetch(1)];
    assert t.queue == [Request(1, lengths[1])];
    assert steps[1..] == [Fetch(1)] && steps[1..][1..] == [];
  }

  /** One side can receive a message meant for the other if and only if a client has process ID 1, as
      that of a container's first process, and there is room for a request at all. */
  lemma ConfusedIff(lengths: map<int, int>, capacity: nat)
    ensures (exists steps :: Legal(Start(lengths, capacity), steps) && End(Start(lengths, capacity), steps).confused)
            <==> 1 in lengths && capacity >= 8
  {
    hide Legal, End, FirstOf;
    if 1 in lengths && capacity >= 8 {
      var steps := RequestFetched(lengths, capacity);
    } else {
      forall steps | Legal(Start(lengths, capacity), steps)
        ensures !End(Start(lengths, capacity), steps).confused
      {
        if capacity < 8 {
          NoRoomToAsk(lengths, capacity, steps);
        } else {
          RepliesAreExact(lengths, capacity, steps);
        }
      }
    }
  }

  lemma NoRoomToAsk(lengths: map<int, int>, capacity: nat, steps: seq<Step>)
    requires capacity < 8 && Legal(Start(lengths, capacity), steps)
    ensures End(Start(lengths, capacity), steps) == Start(lengths, capacity)
  {
    assert forall st :: !Enabled(Start(lengths, capacity), st);
  }
}
