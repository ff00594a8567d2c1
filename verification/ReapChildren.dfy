/** The SIGCHLD protocol of multi_SIGCHLD.c: children end at any time, the signal is a single pending
    bit, and the parent takes it only while it is suspended in sigsuspend(). */
module ReapChildren {

  import opened Common

  datatype Child = Unborn | Running | Zombie | Reaped

  /** What the parent does next: create child `j`, test the loop condition, stay suspended, call
      waitpid() in the handler, return from the handler and sigsuspend(), or nothing any more. */
  datatype Place = Forking(j: nat) | Testing | Suspended | Waiting | Returning | Ended

  /** `live` is numLiveChildren and `caught` is sigCnt. */
  datatype State = State(children: seq<Child>, pending: bool, live: int, caught: nat, parent: Place)

  datatype Step =
    | Exit(c: nat)
    | Deliver
    | Reap(c: nat)
    | Parent

  function Start(n: nat): State {
    State(seq(n, _ => Unborn), false, n, 0, Forking(0))
  }

  predicate Is(s: State, c: nat, p: Child) {
    c < |s.children| && s.children[c] == p
  }

  /** waitpid(-1, .., WNOHANG) reaps some zombie as long as there is one. */
  predicate Enabled(s: State, st: Step) {
    match st
    case Exit(c) => Is(s, c, Running)
    case Deliver => s.parent == Suspended && s.pending
    case Reap(c) => s.parent == Waiting && Is(s, c, Zombie)
    case Parent =>
      match s.parent
      case Forking(j) => j <= |s.children|
      case Testing => true
      case Suspended => false
      case Waiting => Zombie !in s.children
      case Returning => true
      case Ended => false
  }

  function After(s: State, st: Step): State
    requires Enabled(s, st)
  {
    match st
    case Exit(c) => s.(children := s.children[c := Zombie], pending := true)
    case Deliver => s.(pending := false, parent := Waiting)
    case Reap(c) => s.(children := s.children[c := Reaped], live := s.live - 1)
    case Parent =>
      match s.parent
      case Forking(j) =>
        if j < |s.children| then s.(children := s.children[j := Running], parent := Forking(j + 1))
        else s.(parent := Testing)
      case Testing => s.(parent := if s.live > 0 then Suspended else Ended)
      case Waiting => s.(parent := Returning)
      case Returning => s.(caught := s.caught + 1, parent := Testing)
  }

  predicate Legal(s: State, steps: seq<Step>)
    decreases |steps|
  {
    steps == [] || (Enabled(s, steps[0]) && Legal(After(s, steps[0]), steps[1..]))
  }

  function End(s: State, steps: seq<Step>): State
    requires Legal(s, steps)
    decreases |steps|
  {
    if steps == [] then s else End(After(s, steps[0]), steps[1..])
  }

  // ---- what every step keeps ----

  function Count(s: State, p: Child): nat {
    multiset(s.children)[p]
  }

  lemma {:induction false} PhasesAddUp(children: seq<Child>)
    ensures var m := multiset(children); m[Unborn] + m[Running] + m[Zombie] + m[Reaped] == |children|
  {
    if children != [] {
      var k := |children| - 1;
      var c := children[k];
      assert children == children[..k] + [c];
      assert c == Unborn || c == Running || c == Zombie || c == Reaped;
      PhasesAddUp(children[..k]);
    }
  }

  predicate InHandler(s: State) {
    s.parent == Waiting || s.parent == Returning
  }

  /** Children are created in order. */
  predicate Born(s: State) {
    if s.parent.Forking? then
      s.parent.j <= |s.children| && forall c :: 0 <= c < |s.children| ==> (s.children[c] == Unborn <==> s.parent.j <= c)
    else
      Unborn !in s.children
  }

  /** The counter is the number of children not reaped. */
  predicate Counted(s: State) {
    s.live == |s.children| - Count(s, Reaped)
  }

  /** A zombie is never overlooked. */
  predicate Noticed(s: State) {
    Zombie in s.children ==> s.pending || s.parent == Waiting
  }

  /** Every catch is for at least one child of its own. */
  predicate Caught(s: State) {
    && s.caught + One(s.pending) + One(InHandler(s)) <= Count(s, Zombie) + Count(s, Reaped)
    && (s.caught == 0 && !InHandler(s) ==> Count(s, Reaped) == 0)
  }

  ghost predicate Inv(s: State) {
    && Born(s) && Counted(s) && Noticed(s) && Caught(s)
    && (s.parent == Suspended ==> s.live > 0)
    && (s.parent == Ended ==> s.live == 0)
  }

  lemma StartInv(n: nat)
    ensures Inv(Start(n))
  {
    assert forall p :: p != Unborn ==> p !in Start(n).children;
  }

  lemma StepBorn(s: State, st: Step)
    requires Inv(s) && Enabled(s, st)
    ensures Born(After(s, st))
  {
    hide Counted, Caught, Noticed;
    var s' := After(s, st);
    if !s'.parent.Forking? {
      forall c | 0 <= c < |s'.children|
        ensures s'.children[c] != Unborn
      {
        assert s.children[c] in s.children;
      }
    }
  }

  /** What a step does to the numbers of zombies and of reaped children. */
  lemma CountsAfter(s: State, st: Step)
    requires Born(s) && Enabled(s, st)
    ensures var s' := After(s, st);
      && Count(s', Zombie) == Count(s, Zombie) + One(st.Exit?) - One(st.Reap?)
      && Count(s', Reaped) == Count(s, Reaped) + One(st.Reap?)
  {
  }

  lemma StepCounted(s: State, st: Step)
    requires Inv(s) && Enabled(s, st)
    ensures Counted(After(s, st)) && Caught(After(s, st))
  {
    hide Count, Born;
    CountsAfter(s, st);
  }

  lemma StepNoticed(s: State, st: Step)
    requires Inv(s) && Enabled(s, st)
    ensures Noticed(After(s, st))
  {
    hide Counted, Caught, Born;
    var s' := After(s, st);
    assert forall c :: 0 <= c < |s'.children| ==> s'.children[c] == Zombie && !st.Exit? ==> s.children[c] == Zombie;
  }

  lemma StepKeeps(s: State, st: Step)
    requires Inv(s) && Enabled(s, st)
    ensures Inv(After(s, st))
  {
    hide Born, Noticed, Caught;
    StepBorn(s, st);
    StepCounted(s, st);
    StepNoticed(s, st);
    PhasesAddUp(s.children);
  }

  lemma {:induction false} RunKeeps(s: State, steps: seq<Step>)
    requires Inv(s) && Legal(s, steps)
    ensures Inv(End(s, steps)) && |End(s, steps).children| == |s.children|
    decreases |steps|
  {
    if steps != [] {
      StepKeeps(s, steps[0]);
      RunKeeps(After(s, steps[0]), steps[1..]);
    }
  }

  // ---- the program ends ----

  /** The parent's own steps until it is suspended with nothing pending. */
  function ParentWork(s: State): int {
    match s.parent
    case Forking(j) => |s.children| - j + 3
    case Testing => 2
    case Suspended => 1
    case Waiting => 4
    case Returning => 3
    case Ended => 0
  }

  /** An upper bound on the steps that are left. */
  function Work(s: State): int {
    6 * (|s.children| - Count(s, Zombie) - Count(s, Reaped)) + Count(s, Zombie) + 4 * One(s.pending) + ParentWork(s)
  }

  lemma StepWork(s: State, st: Step)
    requires Inv(s) && Enabled(s, st)
    ensures Work(After(s, st)) < Work(s)
  {
    hide Count, Caught, Noticed, Counted;
    CountsAfter(s, st);
  }

  lemma {:induction false} RunWork(s: State, steps: seq<Step>)
    requires Inv(s) && Legal(s, steps)
    ensures |steps| <= Work(s) - Work(End(s, steps))
    decreases |steps|
  {
    if steps != [] {
      StepWork(s, steps[0]);
      StepKeeps(s, steps[0]);
      RunWork(After(s, steps[0]), steps[1..]);
    }
  }

  lemma WorkIsNatural(s: State)
    requires Inv(s)
    ensures Work(s) >= 0
  {
    hide Caught, Noticed, Counted;
    PhasesAddUp(s.children);
  }

  /** Until the parent has ended, something can happen: it is never suspended with nothing but zombies
      left and no signal pending. */
  lemma NeverStuck(s: State) returns (st: Step)
    requires Inv(s) && s.parent != Ended
    ensures Enabled(s, st)
  {
    if s.parent == Suspended && !s.pending {
      PhasesAddUp(s.children);
      assert Running in multiset(s.children);
      var c :| 0 <= c < |s.children| && s.children[c] == Running;
      st := Exit(c);
    } else if s.parent == Waiting && Zombie in s.children {
      var c :| 0 <= c < |s.children| && s.children[c] == Zombie;
      st := Reap(c);
    } else {
      st := if s.parent == Suspended then Deliver else Parent;
    }
  }

  /** For any number of children and however they are scheduled: the counter is at every moment the
      number of children not yet reaped; every run is finite; a run that cannot go on has reaped every
      child, and the signal was caught at least once and at most once a child. */
  lemma EveryChildIsReaped(n: nat, steps: seq<Step>)
    requires Legal(Start(n), steps)
    ensures |steps| <= 7 * n + 3
    ensures var s := End(Start(n), steps);
      && s.live == n - Count(s, Reaped)
      && (Zombie in s.children ==> s.pending || s.parent == Waiting)
      && (s.parent != Ended ==> exists st :: Enabled(s, st))
      && (s.parent == Ended ==>
            (forall c :: 0 <= c < n ==> Is(s, c, Reaped)) && s.caught <= n && (n > 0 ==> s.caught >= 1))
  {
    hide Count, Born;
    StartInv(n);
    RunKeeps(Start(n), steps);
    RunWork(Start(n), steps);
    var s := End(Start(n), steps);
    WorkIsNatural(s);
    StartCounts(n);
    if s.parent == Ended {
      AllReaped(s);
    } else {
      var st := NeverStuck(s);
    }
  }

  lemma StartCounts(n: nat)
    ensures Count(Start(n), Zombie) == 0 && Count(Start(n), Reaped) == 0
  {
    assert forall p :: p != Unborn ==> p !in Start(n).children;
  }

  lemma AllReaped(s: State)
    requires Count(s, Reaped) == |s.children|
    ensures forall c :: 0 <= c < |s.children| ==> Is(s, c, Reaped)
    ensures Count(s, Zombie) == 0
  {
    PhasesAddUp(s.children);
    assert forall c :: 0 <= c < |s.children| ==> s.children[c] in multiset(s.children);
  }

  // ---- the bounds on the number of catches are exact ----

  lemma {:induction false} LegalConcat(s: State, a: seq<Step>, b: seq<Step>)
    requires Legal(s, a) && Legal(End(s, a), b)
    ensures Legal(s, a + b) && End(s, a + b) == End(End(s, a), b)
    decreases |a|
  {
    if a == [] {
      assert a + b == b;
    } else {
      assert (a + b)[1..] == a[1..] + b;
      LegalConcat(After(s, a[0]), a[1..], b);
    }
  }

  /** The first `r` of `n` children are reaped, those up to `z` are zombies, the others run. */
  function Mixed(n: nat, r: nat, z: nat): seq<Child> {
    seq(n, i => if i < r then Reaped else if i < z then Zombie else Running)
  }

  function Calm(n: nat, r: nat, caught: nat): State {
    State(Mixed(n, r, r), false, n - r, caught, Testing)
  }

  lemma {:induction false} ForkRun(n: nat, j: nat) returns (steps: seq<Step>)
    requires j <= n
    ensures var s := State(seq(n, i => if i < j then Running else Unborn), false, n, 0, Forking(j));
      Legal(s, steps) && End(s, steps) == Calm(n, 0, 0)
    decreases n - j
  {
    var s := State(seq(n, i => if i < j then Running else Unborn), false, n, 0, Forking(j));
    if j == n {
      assert s.children == Mixed(n, 0, 0);
      steps := [Parent];
      assert steps[1..] == [];
    } else {
      var s' := State(seq(n, i => if i < j + 1 then Running else Unborn), false, n, 0, Forking(j + 1));
      assert s.children[j := Running] == s'.children;
      var rest := ForkRun(n, j + 1);
      steps := [Parent] + rest;
      assert steps[1..] == rest && After(s, Parent) == s';
    }
  }

  /** Children end one after the other while the parent is suspended and the signal is pending. */
  lemma {:induction false} ExitRun(s: State, n: nat, r: nat, z: nat, k: nat) returns (steps: seq<Step>)
    requires r <= z <= z + k <= n && s.children == Mixed(n, r, z) && s.pending && s.parent == Suspended
    ensures Legal(s, steps) && End(s, steps) == s.(children := Mixed(n, r, z + k))
    decreases k
  {
    if k == 0 {
      steps := [];
    } else {
      var s' := s.(children := Mixed(n, r, z + 1));
      assert s.children[z := Zombie] == s'.children;
      var rest := ExitRun(s', n, r, z + 1, k - 1);
      steps := [Exit(z)] + rest;
      assert steps[1..] == rest && After(s, Exit(z)) == s';
    }
  }

  lemma {:induction false} ReapRun(s: State, n: nat, r: nat, z: nat) returns (steps: seq<Step>)
    requires r <= z <= n && s.children == Mixed(n, r, z) && s.parent == Waiting
    ensures Legal(s, steps) && End(s, steps) == s.(children := Mixed(n, z, z), live := s.live - (z - r))
    decreases z - r
  {
    if r == z {
      steps := [];
    } else {
      var s' := s.(children := Mixed(n, r + 1, z), live := s.live - 1);
      assert s.children[r := Reaped] == s'.children;
      var rest := ReapRun(s', n, r + 1, z);
      steps := [Reap(r)] + rest;
      assert steps[1..] == rest && After(s, Reap(r)) == s';
    }
  }

  /** One catch for the first of the running children, and with it `k` others. */
  lemma OneCatch(n: nat, r: nat, caught: nat, k: nat) returns (steps: seq<Step>)
    requires r + 1 + k <= n
    ensures Legal(Calm(n, r, caught), steps) && End(Calm(n, r, caught), steps) == Calm(n, r + 1 + k, caught + 1)
  {
    hide Mixed;
    var s0 := Calm(n, r, caught);
    var s2 := s0.(children := Mixed(n, r, r + 1), pending := true, parent := Suspended);
    var a := FirstExit(n, r, caught);
    var b := ExitRun(s2, n, r, r + 1, k);
    LegalConcat(s0, a, b);
    var s3 := s2.(children := Mixed(n, r, r + 1 + k));
    var s4 := s3.(pending := false, parent := Waiting);
    assert Legal(s3, [Deliver]) && End(s3, [Deliver]) == s4;
    LegalConcat(s0, a + b, [Deliver]);
    var c := ReapRun(s4, n, r, r + 1 + k);
    LegalConcat(s0, a + b + [Deliver], c);
    var d := LastReturn(n, r + 1 + k, caught);
    steps := a + b + [Deliver] + c + d;
    LegalConcat(s0, a + b + [Deliver] + c, d);
  }

  lemma FirstExit(n: nat, r: nat, caught: nat) returns (steps: seq<Step>)
    requires r < n
    ensures var s := Calm(n, r, caught);
      && Legal(s, steps)
      && End(s, steps) == s.(children := Mixed(n, r, r + 1), pending := true, parent := Suspended)
  {
    var s := Calm(n, r, caught);
    steps := [Parent, Exit(r)];
    assert steps[1..] == [Exit(r)] && steps[1..][1..] == [];
    assert s.children[r := Zombie] == Mixed(n, r, r + 1);
    var s' := After(s, Parent);
    assert End(s', [Exit(r)]) == End(After(s', Exit(r)), []);
  }

  lemma LastReturn(n: nat, r: nat, caught: nat) returns (steps: seq<Step>)
    requires r <= n
    ensures var s := Calm(n, r, caught).(parent := Waiting);
      Legal(s, steps) && End(s, steps) == Calm(n, r, caught + 1)
  {
    steps := [Parent, Parent];
    assert steps[1..] == [Parent] && steps[1..][1..] == [];
  }

  lemma {:induction false} SingleCatches(n: nat, r: nat, caught: nat) returns (steps: seq<Step>)
    requires r <= n
    ensures var s := Calm(n, r, caught);
      Legal(s, steps) && End(s, steps) == Calm(n, n, caught + n - r)
    decreases n - r
  {
    hide Calm;
    if r == n {
      steps := [];
    } else {
      var a := OneCatch(n, r, caught, 0);
      var b := SingleCatches(n, r + 1, caught + 1);
      steps := a + b;
      LegalConcat(Calm(n, r, caught), a, b);
    }
  }

  /** Signals are not queued: each number of catches from one to the number of children occurs. */
  lemma EveryCountOccurs(n: nat, k: nat) returns (steps: seq<Step>)
    requires 1 <= k <= n
    ensures Legal(Start(n), steps) && End(Start(n), steps).parent == Ended && End(Start(n), steps).caught == k
  {
    hide Mixed;
    var a := ForkRun(n, 0);
    assert Start(n) == State(seq(n, i => if i < 0 then Running else Unborn), false, n, 0, Forking(0));
    var b := OneCatch(n, 0, 0, n - k);
    LegalConcat(Start(n), a, b);
    var c := SingleCatches(n, n - k + 1, 1);
    LegalConcat(Start(n), a + b, c);
    assert Legal(Calm(n, n, k), [Parent]) && End(Calm(n, n, k), [Parent]) == Calm(n, n, k).(parent := Ended);
    steps := a + b + c + [Parent];
    LegalConcat(Start(n), a + b + c, [Parent]);
  }

  // ---- the program ----

  /** What a step of the system is worth to the parent: the invariant, and less work left. */
  lemma Forward(s: State, st: Step)
    requires Inv(s) && Enabled(s, st)
    ensures Inv(After(s, st)) && Work(After(s, st)) < Work(s) && |After(s, st).children| == |s.children|
  {
    StepKeeps(s, st);
    StepWork(s, st);
    hide Inv, Work;
  }

  lemma WorkBounded(s: State)
    requires Inv(s)
    ensures Work(s) >= 0
  {
    WorkIsNatural(s);
  }

  /** While the parent is suspended and nothing is pending, some child is running. */
  lemma SomeoneRuns(s: State) returns (c: nat)
    requires Inv(s) && s.parent == Suspended && !s.pending
    ensures Is(s, c, Running)
  {
    var st := NeverStuck(s);
    c := st.c;
  }

  lemma EndedMeans(s: State)
    requires Inv(s) && s.parent == Ended
    ensures forall c :: 0 <= c < |s.children| ==> s.children[c] == Reaped
    ensures s.live == 0 && s.caught <= |s.children| && (|s.children| > 0 ==> s.caught >= 1)
  {
    AllReaped(s);
    forall c | 0 <= c < |s.children|
      ensures s.children[c] == Reaped
    {
      assert Is(s, c, Reaped);
    }
  }

  class Process {
    var children: seq<Child>
    var pending: bool
    var numLiveChildren: int
    var sigCnt: nat
    var place: Place
      // a child that waitpid() has reaped and the handler not yet counted
    var uncounted: nat

    function View(): State
      reads this
    {
      State(children, pending, numLiveChildren - uncounted, sigCnt, place)
    }

    ghost predicate Valid()
      reads this
    {
      Inv(View())
    }

    constructor (n: nat)
      ensures Valid() && View() == Start(n) && uncounted == 0
    {
      children, pending, numLiveChildren, sigCnt, place := seq(n, _ => Unborn), false, n, 0, Forking(0);
      uncounted := 0;
      new;
      StartInv(n);
    }

    /** Nothing of the parent's has changed. */
    twostate predicate ChildrenOnly()
      reads this
    {
      && numLiveChildren == old(numLiveChildren) && sigCnt == old(sigCnt) && place == old(place)
      && uncounted == old(uncounted) && |children| == |old(children)|
    }

    /** A child ends. */
    method Exits(c: nat)
      requires Valid() && Is(View(), c, Running)
      modifies this`children, this`pending
      ensures Valid() && ChildrenOnly() && pending && Work(View()) < old(Work(View()))
    {
      hide Inv, Work;
      Forward(View(), Exit(c));
      children := children[c := Zombie];
      pending := true;
    }

    /** Between two statements of the parent any number of children may end. */
    method Others()
      requires Valid()
      modifies this`children, this`pending
      ensures Valid() && ChildrenOnly() && (old(pending) ==> pending) && Work(View()) <= old(Work(View()))
    {
      hide Inv, Work;
      WorkBounded(View());
      while *
        invariant Valid() && ChildrenOnly() && (old(pending) ==> pending) && Work(View()) <= old(Work(View()))
        invariant Work(View()) >= 0
        decreases Work(View())
      {
        if c :| 0 <= c < |children| && children[c] == Running {
          Exits(c);
          WorkBounded(View());
        } else {
          break;
        }
      }
    }

    /** waitpid() for any child, without waiting. */
    method WaitPid() returns (childPid: int)
      requires Valid() && place == Waiting && uncounted == 0
      modifies this`children, this`uncounted, this`place
      ensures Valid() && |children| == |old(children)| && Work(View()) < old(Work(View()))
      ensures if childPid > 0 then place == Waiting && uncounted == 1 else place == Returning && uncounted == 0
    {
      hide Inv, Work;
      if c :| 0 <= c < |children| && children[c] == Zombie {
        Forward(View(), Reap(c));
        children := children[c := Reaped];
        uncounted := 1;
        childPid := c + 1;
      } else {
        Forward(View(), Parent);
        place := Returning;
        childPid := if Running in children || Unborn in children then 0 else -1;
      }
    }

    /** sigchldHandler(). */
    method SigchldHandler()
      requires Valid() && place == Waiting && uncounted == 0
      modifies this`children, this`pending, this`numLiveChildren, this`uncounted, this`place
      ensures Valid() && place == Returning && uncounted == 0
      ensures |children| == |old(children)| && Work(View()) < old(Work(View()))
    {
      hide Inv, Work;
      Others();
      var childPid := WaitPid();
      while childPid > 0
        invariant Valid() && |children| == |old(children)| && Work(View()) < old(Work(View()))
        invariant if childPid > 0 then place == Waiting && uncounted == 1 else place == Returning && uncounted == 0
        decreases Work(View())
      {
        WorkBounded(View());
        Others();
        numLiveChildren, uncounted := numLiveChildren - 1, 0;
        Others();
        childPid := WaitPid();
      }
    }

    /** sigsuspend() with no signal blocked: returns when the handler has run. */
    method SigSuspend()
      requires Valid() && place == Testing && numLiveChildren > 0 && uncounted == 0
      modifies this`children, this`pending, this`numLiveChildren, this`uncounted, this`place
      ensures Valid() && place == Returning && uncounted == 0
      ensures |children| == |old(children)| && Work(View()) < old(Work(View()))
    {
      hide Inv, Work;
      Forward(View(), Parent);
      place := Suspended;
      while !pending
        invariant Valid() && place == Suspended && uncounted == 0
        invariant |children| == |old(children)| && Work(View()) < old(Work(View()))
        decreases Work(View())
      {
        WorkBounded(View());
        ghost var someone := SomeoneRuns(View());
        var c :| 0 <= c < |children| && children[c] == Running;
        Exits(c);
      }
      Forward(View(), Deliver);
      pending, place := false, Waiting;
      SigchldHandler();
    }

    /** main(): every child is created, ends and is reaped, and SIGCHLD is caught at least once and at most
        once a child, whenever children end. */
    method CreateAndReap(n: nat)
      requires Valid() && View() == Start(n) && uncounted == 0
      modifies this
      ensures |children| == n && (forall c :: 0 <= c < n ==> children[c] == Reaped)
      ensures numLiveChildren == 0 && sigCnt <= n && (n > 0 ==> sigCnt >= 1)
    {
      hide Inv, Work;
      for j := 0 to n
        invariant Valid() && |children| == n && place == Forking(j) && uncounted == 0
      {
        Others();
        Forward(View(), Parent);
        children := children[j := Running];
        place := Forking(j + 1);
      }
      Others();
      Forward(View(), Parent);
      place := Testing;
      while numLiveChildren > 0
        invariant Valid() && |children| == n && place == Testing && uncounted == 0
        decreases Work(View())
      {
        WorkBounded(View());
        Others();
        SigSuspend();
        Others();
        Forward(View(), Parent);
        sigCnt, place := sigCnt + 1, Testing;
      }
      Forward(View(), Parent);
      place := Ended;
      EndedMeans(View());
    }
  }
}
