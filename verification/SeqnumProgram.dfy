/** The programs msg_seqnum_server.c and msg_seqnum_client.c, each with the others doing anything between
    two of its statements. */
module SeqnumProgram {

  import opened SeqnumServer
  import opened SeqnumProgress

  /** Who executes the step; None is the server. */
  datatype Actor = TheServer | AClient(pid: int)

  function ActorOf(st: Step): Actor {
    match st
    case Ask(p) => AClient(p)
    case Fetch(p) => AClient(p)
    case _ => TheServer
  }

  lemma Forward(s: State, st: Step)
    requires Inv(s) && Enabled(s, st)
    ensures Inv(After(s, st)) && Work(After(s, st)) < Work(s)
  {
    hide Inv, Work, After, Enabled;
    StepKeeps(s, st);
    StepWork(s, st);
  }

  /** What a step leaves to everyone else. */
  lemma StepFrame(s: State, st: Step)
    requires Inv(s) && Enabled(s, st)
    ensures var t := After(s, st);
      && t.clients.Keys == s.clients.Keys && t.capacity == s.capacity && !t.confused
      && (forall p :: p in s.clients && ActorOf(st) != AClient(p) ==> t.clients[p] == s.clients[p])
      && (ActorOf(st) != TheServer ==> t.server == s.server && t.grants == s.grants && t.seqNum == s.seqNum)
  {
    hide Sum, FirstOf, RightClients, RightGrants, RightMessages;
    StepKeeps(s, st);
  }

  /** The server waits for a request while there is one to come: then a client can do something. */
  lemma RequestComes(s: State) returns (st: Step)
    requires Inv(s) && Roomy(s.capacity, |s.clients|) && s.server == Receiving && !Enabled(s, Take)
    requires |s.grants| < |s.clients|
    ensures Enabled(s, st) && ActorOf(st) != TheServer
  {
    var p := NotGranted(s);
    RightOnes(s, p);
    st := NeverStuck(s);
  }

  function GrantPids(grants: seq<Grant>): set<int> {
    if grants == [] then {} else GrantPids(grants[..|grants| - 1]) + {grants[|grants| - 1].pid}
  }

  lemma {:induction false} GrantPidsBound(grants: seq<Grant>)
    ensures |GrantPids(grants)| <= |grants| && forall i :: 0 <= i < |grants| ==> grants[i].pid in GrantPids(grants)
  {
    if grants != [] {
      GrantPidsBound(grants[..|grants| - 1]);
      assert forall i :: 0 <= i < |grants| - 1 ==> grants[i] == grants[..|grants| - 1][i];
    }
  }

  lemma NotGranted(s: State) returns (p: int)
    requires |s.grants| < |s.clients|
    ensures p in s.clients && !Granted(s, p)
  {
    GrantPidsBound(s.grants);
    if s.clients.Keys <= GrantPids(s.grants) {
      SubsetSize(s.clients.Keys, GrantPids(s.grants));
    }
    p := Member(s.clients.Keys - GrantPids(s.grants));
  }

  lemma RightOnes(s: State, p: int)
    requires Inv(s) && p in s.clients && !Granted(s, p)
    ensures !AllServed(s)
  {
    hide Sum, RightGrants, RightMessages, RightServer;
    assert RightClient(s, p);
  }

  /** The server waits for room for its response. */
  lemma RoomComes(s: State) returns (st: Step)
    requires Inv(s) && Roomy(s.capacity, |s.clients|) && s.server.Replying? && !Enabled(s, Reply)
    ensures Enabled(s, st) && ActorOf(st) != TheServer
  {
    ServingMeans(s);
    st := NeverStuck(s);
  }

  lemma ServingMeans(s: State)
    requires Inv(s) && s.server.Replying?
    ensures !AllServed(s)
  {
    hide Sum, RightGrants, RightMessages, RightClients;
    assert s.server.pid in s.clients;
  }

  /** A client waits for room for its request, or for its response. */
  lemma TurnComes(s: State, p: int) returns (st: Step)
    requires Inv(s) && Roomy(s.capacity, |s.clients|) && p in s.clients && !s.clients[p].Served?
    requires !Enabled(s, Ask(p)) && !Enabled(s, Fetch(p))
    ensures Enabled(s, st) && ActorOf(st) != AClient(p)
  {
    hide Inv, Roomy, Enabled;
    st := NeverStuck(s);
  }

  lemma ServedMeans(s: State, p: int)
    requires Inv(s) && p in s.clients && s.clients[p].Served?
    ensures Grant(p, s.clients[p].first, s.clients[p].len) in s.grants
  {
    hide Sum, RightGrants, RightMessages, RightServer;
    assert RightClient(s, p);
  }

  class Service {
    var queue: seq<Message>
    const capacity: nat
    var server: Server
    var seqNum: int
    var clients: map<int, Client>
    var grants: seq<Grant>

    function View(): State
      reads this
    {
      State(queue, capacity, server, seqNum, clients, grants, false)
    }

    ghost predicate Valid()
      reads this
    {
      Inv(View()) && Roomy(capacity, |clients|)
    }

    constructor (lengths: map<int, int>, capacity: nat)
      requires 1 !in lengths && Roomy(capacity, |lengths|)
      ensures Valid() && View() == Start(lengths, capacity)
    {
      queue, this.capacity, server, seqNum := [], capacity, Receiving, 0;
      clients, grants := map p | p in lengths :: Starting(lengths[p]), [];
      new;
      StartInv(lengths, capacity);
      assert clients.Keys == lengths.Keys;
    }

    /** What the others do leaves this to `me`. */
    twostate predicate Elsewhere(me: Actor)
      reads this
    {
      && clients.Keys == old(clients).Keys
      && (me.AClient? && me.pid in old(clients) ==> clients[me.pid] == old(clients)[me.pid])
      && (me == TheServer ==> server == old(server) && grants == old(grants) && seqNum == old(seqNum))
    }

    /** Some step of somebody else. */
    method Perform(me: Actor, st: Step)
      requires Valid() && Enabled(View(), st) && ActorOf(st) != me
      modifies this
      ensures Valid() && Elsewhere(me) && Work(View()) < old(Work(View()))
    {
      hide Inv, Work, After, Enabled;
      Forward(View(), st);
      StepFrame(View(), st);
      var t := After(View(), st);
      queue, server, seqNum, clients, grants := t.queue, t.server, t.seqNum, t.clients, t.grants;
      assert |clients| == |clients.Keys| && |old(clients)| == |old(clients).Keys|;
    }

    /** Somebody else goes on, whoever can. */
    method OtherStep(me: Actor, ghost possible: Step)
      requires Valid() && Enabled(View(), possible) && ActorOf(possible) != me
      modifies this
      ensures Valid() && Elsewhere(me) && Work(View()) < old(Work(View()))
    {
      hide Inv, Work, After, FirstOf, Sum;
      if {
        case p :| p in clients && AClient(p) != me && Enabled(View(), Ask(p)) => Perform(me, Ask(p));
        case p :| p in clients && AClient(p) != me && Enabled(View(), Fetch(p)) => Perform(me, Fetch(p));
        case me != TheServer && Enabled(View(), Take) => Perform(me, Take);
        case me != TheServer && Enabled(View(), Reply) => Perform(me, Reply);
        case me != TheServer && Enabled(View(), Add) => Perform(me, Add);
      }
    }

    /** Between two statements of `me` the others may do anything. */
    method Others(me: Actor)
      requires Valid()
      modifies this
      ensures Valid() && Elsewhere(me) && Work(View()) <= old(Work(View()))
    {
      hide Inv, Work, After, Enabled;
      while *
        invariant Valid() && Elsewhere(me) && Work(View()) <= old(Work(View()))
        decreases Work(View())
      {
        if {
          case p :| p in clients && AClient(p) != me && Enabled(View(), Ask(p)) => Perform(me, Ask(p));
          case p :| p in clients && AClient(p) != me && Enabled(View(), Fetch(p)) => Perform(me, Fetch(p));
          case me != TheServer && Enabled(View(), Take) => Perform(me, Take);
          case me != TheServer && Enabled(View(), Reply) => Perform(me, Reply);
          case me != TheServer && Enabled(View(), Add) => Perform(me, Add);
          case true => break;
        }
      }
    }

    /** The message that msgrcv() finds: the first one of the type. */
    method Search(t: int) returns (i: nat)
      requires FirstOf(queue, t) < |queue|
      ensures i == FirstOf(queue, t)
    {
      i := 0;
      while queue[i].Type() != t
        invariant 0 <= i <= FirstOf(queue, t)
        decreases |queue| - i
      {
        i := i + 1;
      }
    }

    /** main() of a client: it ends, and the number that it prints is the start of the range granted to it,
        of the length that it asked for. */
    method Client(p: int) returns (seqnum: int)
      requires Valid() && p in clients && clients[p].Starting?
      modifies this
      ensures Valid() && p in clients && clients[p] == Served(old(clients)[p].len, seqnum)
      ensures Grant(p, seqnum, old(clients)[p].len) in grants
    {
      hide Inv, Work;
      ghost var len := clients[p].len;
      Others(AClient(p));
      SendRequest(p);
      Others(AClient(p));
      seqnum := ReceiveResponse(p);
      ServedMeans(View(), p);
    }

    /** msgsnd() of the request, which waits for room. */
    method SendRequest(p: int)
      requires Valid() && p in clients && clients[p].Starting?
      modifies this
      ensures Valid() && p in clients && clients[p] == Waiting(old(clients)[p].len)
    {
      hide Inv, Work, FirstOf, Sum;
      while Used(queue) + 8 > capacity
        invariant Valid() && p in clients && clients[p] == old(clients)[p]
        decreases Work(View())
      {
        ghost var st := TurnComes(View(), p);
        OtherStep(AClient(p), st);
      }
      Forward(View(), Ask(p));
      assert clients.Keys == clients[p := Waiting(clients[p].len)].Keys;
      queue := queue + [Request(p, clients[p].len)];
      clients := clients[p := Waiting(clients[p].len)];
    }

    /** msgrcv() of the response, which waits for it. */
    method ReceiveResponse(p: int) returns (seqnum: int)
      requires Valid() && p in clients && clients[p].Waiting?
      modifies this
      ensures Valid() && p in clients && clients[p] == Served(old(clients)[p].len, seqnum)
    {
      hide Inv, Work, FirstOf, Sum;
      while FirstOf(queue, p) == |queue|
        invariant Valid() && p in clients && clients[p] == old(clients)[p]
        decreases Work(View())
      {
        ghost var st := TurnComes(View(), p);
        OtherStep(AClient(p), st);
      }
      FetchesResponse(View(), p);
      Forward(View(), Fetch(p));
      var i := Search(p);
      seqnum := queue[i].first;
      assert clients.Keys == clients[p := Served(clients[p].len, seqnum)].Keys;
      queue := queue[..i] + queue[i + 1..];
      clients := clients[p := Served(clients[p].len, seqnum)];
    }

    /** msgrcv() of a request, which waits for one. */
    method ReceiveRequest()
      requires Valid() && server == Receiving && |grants| < |clients|
      modifies this
      ensures Valid() && server.Replying? && grants == old(grants) && seqNum == old(seqNum)
      ensures clients.Keys == old(clients).Keys
    {
      hide Inv, Work, FirstOf, Sum;
      while FirstOf(queue, 1) == |queue|
        invariant Valid() && Elsewhere(TheServer)
        decreases Work(View())
      {
        assert |clients| == |clients.Keys| == |old(clients).Keys|;
        ghost var st := RequestComes(View());
        OtherStep(TheServer, st);
      }
      TakesRequest(View());
      Forward(View(), Take);
      var i := Search(1);
      server := Replying(queue[i].pid, queue[i].len);
      queue := queue[..i] + queue[i + 1..];
    }

    /** msgsnd() of the response, which waits for room. */
    method SendResponse()
      requires Valid() && server.Replying?
      modifies this
      ensures Valid() && server == Adding(old(server).len) && seqNum == old(seqNum) && clients.Keys == old(clients).Keys
      ensures grants == old(grants) + [Grant(old(server).pid, seqNum, old(server).len)]
    {
      hide Inv, Work, FirstOf, Sum;
      while Used(queue) + 4 > capacity
        invariant Valid() && Elsewhere(TheServer)
        decreases Work(View())
      {
        ghost var st := RoomComes(View());
        OtherStep(TheServer, st);
      }
      Forward(View(), Reply);
      queue := queue + [Response(server.pid, seqNum)];
      grants := grants + [Grant(server.pid, seqNum, server.len)];
      server := Adding(server.len);
    }

    method CountUp()
      requires Valid() && server.Adding?
      modifies this`seqNum, this`server
      ensures Valid() && server == Receiving && seqNum == old(seqNum) + old(server).len
    {
      hide Inv, Work, FirstOf, Sum;
      Forward(View(), Add);
      seqNum, server := seqNum + server.len, Receiving;
    }

    /** The endless loop of the server's main(), for as many requests as there are clients: each round ends,
        and the ranges handed out follow each other up to the server's count. */
    method Serve()
      requires Valid() && server == Receiving && grants == []
      modifies this
      ensures Valid() && server == Receiving && |grants| == |old(clients)|
      ensures Chained(grants) && ChainEnd(grants) == seqNum
    {
      hide Inv, Work, FirstOf, Sum, Roomy, Chained, ChainEnd, GrantPids;
      for i := 0 to |clients|
        invariant Valid() && server == Receiving && |grants| == i && clients.Keys == old(clients).Keys
      {
        assert |clients| == |clients.Keys| == |old(clients).Keys| == |old(clients)|;
        Others(TheServer);
        assert |clients| == |clients.Keys| == |old(clients)|;
        ReceiveRequest();
        Others(TheServer);
        SendResponse();
        Others(TheServer);
        CountUp();
      }
      GrantsMean(View());
    }
  }

  lemma TakesRequest(s: State)
    requires Inv(s) && FirstOf(s.queue, 1) < |s.queue|
    ensures s.queue[FirstOf(s.queue, 1)].Request?
  {
    hide Sum, RightGrants, RightClients;
    assert RightMessage(s, s.queue[FirstOf(s.queue, 1)]);
  }

  lemma GrantsMean(s: State)
    requires Inv(s) && s.server == Receiving
    ensures Chained(s.grants) && ChainEnd(s.grants) == s.seqNum
  {
    hide Chained, ChainEnd;
  }
}
