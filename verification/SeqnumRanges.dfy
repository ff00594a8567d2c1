/** The ranges of numbers that the sequence-number service gives out, and when they are right. The
    client does not check the length that it asks for. */
module SeqnumRanges {

  import opened SeqnumServer

  /** `x` is one of the numbers of the grant. */
  predicate Within(g: Grant, x: int) {
    g.first <= x < g.first + g.len
  }

  predicate HeldBy(grants: seq<Grant>, i: int, x: int) {
    0 <= i < |grants| && Within(grants[i], x)
  }

  /** The number is in exactly one grant if it is below the end of the chain, and else in none. */
  ghost predicate HeldOnce(grants: seq<Grant>, x: int) {
    && (0 <= x < ChainEnd(grants) <==> exists i :: HeldBy(grants, i, x))
    && forall i, j :: HeldBy(grants, i, x) && HeldBy(grants, j, x) ==> i == j
  }

  predicate NoneNegative(grants: seq<Grant>) {
    forall k :: 0 <= k < |grants| ==> grants[k].len >= 0
  }

  predicate NonePositive(grants: seq<Grant>) {
    forall k :: 0 <= k < |grants| ==> grants[k].len <= 0
  }

  lemma ChainPrefix(grants: seq<Grant>)
    requires Chained(grants) && grants != []
    ensures var n := |grants| - 1; Chained(grants[..n]) && ChainEnd(grants[..n]) == grants[n].first
    ensures ChainEnd(grants) == grants[|grants| - 1].first + grants[|grants| - 1].len
  {
    var n := |grants| - 1;
    if n > 0 {
      assert grants[n].first == grants[n - 1].first + grants[n - 1].len;
    }
    forall i | 0 <= i < n - 1
      ensures grants[..n][i + 1].first == grants[..n][i].first + grants[..n][i].len
    {
      assert grants[i + 1].first == grants[i].first + grants[i].len;
    }
  }

  /** Without negative lengths every grant lies between 0 and the end of the chain. */
  lemma {:induction false} GrantInChain(grants: seq<Grant>, i: nat)
    requires Chained(grants) && NoneNegative(grants) && i < |grants|
    ensures 0 <= grants[i].first && grants[i].first + grants[i].len <= ChainEnd(grants)
    decreases |grants|
  {
    hide Chained, ChainEnd;
    var n := |grants| - 1;
    ChainPrefix(grants);
    if i < n {
      GrantInChain(grants[..n], i);
    } else if n > 0 {
      GrantInChain(grants[..n], n - 1);
    } else {
      assert grants[..n] == [];
      EmptyChain();
    }
  }

  lemma EmptyChain()
    ensures ChainEnd([]) == 0
  {
  }

  /** A later grant starts where an earlier one ends, or after that. */
  lemma GrantsApart(grants: seq<Grant>, i: nat, j: nat)
    requires Chained(grants) && NoneNegative(grants) && i < j < |grants|
    ensures grants[i].first + grants[i].len <= grants[j].first
  {
    hide Chained, ChainEnd;
    var head := grants[..j + 1];
    PrefixChained(grants, j + 1);
    ChainPrefix(head);
    assert head[..j] == grants[..j];
    PrefixChained(grants, j);
    GrantInChain(grants[..j], i);
  }

  lemma PrefixChained(grants: seq<Grant>, k: nat)
    requires Chained(grants) && k <= |grants|
    ensures Chained(grants[..k])
  {
    forall i | 0 <= i < k - 1
      ensures grants[..k][i + 1].first == grants[..k][i].first + grants[..k][i].len
    {
      assert grants[i + 1].first == grants[i].first + grants[i].len;
    }
  }

  /** Every number below the end of the chain is in some grant. */
  lemma {:induction false} HolderOf(grants: seq<Grant>, x: int) returns (i: nat)
    requires Chained(grants) && 0 <= x < ChainEnd(grants)
    ensures HeldBy(grants, i, x)
    decreases |grants|
  {
    assert grants != [];
    hide Chained, ChainEnd;
    var n := |grants| - 1;
    ChainPrefix(grants);
    if x >= grants[n].first {
      i := n;
    } else {
      i := HolderOf(grants[..n], x);
    }
  }

  lemma ChainCovers(grants: seq<Grant>, x: int)
    requires Chained(grants) && NoneNegative(grants)
    ensures HeldOnce(grants, x)
  {
    hide Chained, ChainEnd, NoneNegative;
    if 0 <= x < ChainEnd(grants) {
      var i := HolderOf(grants, x);
    }
    forall i | HeldBy(grants, i, x)
      ensures 0 <= x < ChainEnd(grants)
    {
      GrantInChain(grants, i);
    }
    forall i, j | HeldBy(grants, i, x) && HeldBy(grants, j, x)
      ensures i == j
    {
      if i < j {
        GrantsApart(grants, i, j);
      } else if j < i {
        GrantsApart(grants, j, i);
      }
    }
  }

  /** Without positive lengths nothing is given out. */
  lemma {:induction false} ChainFalls(grants: seq<Grant>)
    requires Chained(grants) && NonePositive(grants)
    ensures ChainEnd(grants) <= 0
  {
    hide Chained, ChainEnd;
    if grants == [] {
      EmptyChain();
    } else {
      ChainPrefix(grants);
      ChainFalls(grants[..|grants| - 1]);
    }
  }

  lemma NothingHeld(grants: seq<Grant>, x: int)
    requires Chained(grants) && NonePositive(grants)
    ensures HeldOnce(grants, x)
  {
    hide Chained, ChainEnd;
    ChainFalls(grants);
    assert forall i :: 0 <= i < |grants| ==> !Within(grants[i], x);
  }

  // ---- when the ranges are right ----

  predicate MixedSigns(lengths: map<int, int>) {
    exists p, q :: p in lengths && q in lengths && lengths[p] > 0 && lengths[q] < 0
  }

  lemma UnmixedHolds(lengths: map<int, int>, capacity: nat, steps: seq<Step>, x: int)
    requires 1 !in lengths && !MixedSigns(lengths) && Legal(Start(lengths, capacity), steps)
    ensures HeldOnce(End(Start(lengths, capacity), steps).grants, x)
  {
    hide Chained, ChainEnd, Legal, HeldOnce;
    RepliesAreExact(lengths, capacity, steps);
    var grants := End(Start(lengths, capacity), steps).grants;
    if NoneNegative(grants) {
      ChainCovers(grants, x);
    } else {
      var k :| 0 <= k < |grants| && grants[k].len < 0;
      forall i | 0 <= i < |grants|
        ensures grants[i].len <= 0
      {
        assert lengths[grants[k].pid] < 0 && lengths[grants[i].pid] == grants[i].len;
      }
      NothingHeld(grants, x);
    }
  }

  /** Nobody is being served. */
  predicate Quiet(s: State) {
    s.queue == [] && s.server == Receiving && !s.confused && s.capacity >= 8
  }

  function ServedNext(s: State, p: int): State
    requires p in s.clients
  {
    var l := s.clients[p].len;
    s.(seqNum := s.seqNum + l, clients := s.clients[p := Served(l, s.seqNum)],
       grants := s.grants + [Grant(p, s.seqNum, l)])
  }

  /** One client asks and is served before any other does anything. */
  lemma ServeAlone(s: State, p: int) returns (steps: seq<Step>)
    requires Quiet(s) && p in s.clients && s.clients[p].Starting? && p != 1
    ensures Legal(s, steps) && End(s, steps) == ServedNext(s, p)
  {
    var l := s.clients[p].len;
    var s1 := After(s, Ask(p));
    assert s1.queue == [Request(p, l)];
    assert Without(s1.queue, 0) == [];
    var s2 := After(s1, Take);
    var s3 := After(s2, Reply);
    assert s3.queue == [Response(p, s.seqNum)];
    var s4 := After(s3, Add);
    assert Without(s4.queue, 0) == [];
    var s5 := After(s4, Fetch(p));
    assert s5 == ServedNext(s, p);
    var e5 := OneStep(s4, Fetch(p), []);
    var e4 := OneStep(s3, Add, e5);
    var e3 := OneStep(s2, Reply, e4);
    var e2 := OneStep(s1, Take, e3);
    steps := OneStep(s, Ask(p), e2);
  }

  lemma OneStep(s: State, st: Step, rest: seq<Step>) returns (steps: seq<Step>)
    requires Enabled(s, st) && Legal(After(s, st), rest)
    ensures Legal(s, steps) && End(s, steps) == End(After(s, st), rest)
  {
    hide Enabled, After;
    steps := [st] + rest;
    assert steps[1..] == rest;
  }

  /** A positive length and then a negative one: the last number of the first range is given out, and
      yet lies beyond the end of the chain. */
  lemma MixedOverlap(lengths: map<int, int>, capacity: nat, p: int, q: int) returns (steps: seq<Step>)
    requires 1 !in lengths && capacity >= 8
    requires p in lengths && q in lengths && lengths[p] > 0 && lengths[q] < 0
    ensures Legal(Start(lengths, capacity), steps)
    ensures !HeldOnce(End(Start(lengths, capacity), steps).grants, lengths[p] - 1)
  {
    hide Enabled, After;
    var s := Start(lengths, capacity);
    var a := ServeAlone(s, p);
    var t := ServedNext(s, p);
    var b := ServeAlone(t, q);
    LegalConcat(s, a, b);
    steps := a + b;
    var grants := ServedNext(t, q).grants;
    assert grants == [Grant(p, 0, lengths[p]), Grant(q, lengths[p], lengths[q])];
    assert HeldBy(grants, 0, lengths[p] - 1);
  }

  /** With lengths of 5 and -3, the number 4 is one of the first range and not below the end. */
  lemma NegativeLengthOverlaps() returns (steps: seq<Step>)
    ensures Legal(Start(map[2 := 5, 3 := -3], 16), steps)
    ensures !HeldOnce(End(Start(map[2 := 5, 3 := -3], 16), steps).grants, 4)
  {
    steps := MixedOverlap(map[2 := 5, 3 := -3], 16, 2, 3);
  }

  /** In every run every number given out so far is given out once, and those are the numbers from 0 up
      to the server's count, if and only if no client asks for a positive and another for a negative
      length, or the queue has no room even for one request. */
  lemma RangesIff(lengths: map<int, int>, capacity: nat)
    requires 1 !in lengths
    ensures (forall steps, x :: Legal(Start(lengths, capacity), steps) ==>
                                  HeldOnce(End(Start(lengths, capacity), steps).grants, x))
            <==> !(capacity >= 8 && MixedSigns(lengths))
  {
    hide Chained, ChainEnd, Legal, HeldOnce;
    if capacity >= 8 && MixedSigns(lengths) {
      var p, q :| p in lengths && q in lengths && lengths[p] > 0 && lengths[q] < 0;
      var steps := MixedOverlap(lengths, capacity, p, q);
    } else {
      forall steps, x | Legal(Start(lengths, capacity), steps)
        ensures HeldOnce(End(Start(lengths, capacity), steps).grants, x)
      {
        if MixedSigns(lengths) {
          NothingAsked(lengths, capacity, steps);
          ChainCovers([], x);
        } else {
          UnmixedHolds(lengths, capacity, steps, x);
        }
      }
    }
  }

  lemma NothingAsked(lengths: map<int, int>, capacity: nat, steps: seq<Step>)
    requires capacity < 8 && Legal(Start(lengths, capacity), steps)
    ensures Chained([]) && End(Start(lengths, capacity), steps).grants == []
  {
    NoRoomToAsk(lengths, capacity, steps);
  }
}
