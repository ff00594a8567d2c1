/** A departure and an arrival that follow each other in the queue of inotify_dtree.c without being the
    two halves of one rename: the cookies tell. */
module DtreePairing {
  import opened Common
  import opened Paths
  import opened DirForest
  import opened Inotify
  import opened SlotCache
  import opened DtreeSpec
  import opened DtreeCoherence
  import opened DtreeSteps
  import opened DtreeRuns

  /** The directory moves out of the monitored trees, and is no root. */
  ghost predicate MovesOut(fs: Forest, op: Op)
    requires Valid(fs)
  {
    && op.RenameOp? && op.victim.None? && Enabled(fs, op) && !Uproots(fs, op)
    && op.n in Tree(fs) && op.n !in Tops(fs) && !(op.dest.In? && op.dest.parent in Tree(fs))
  }

  /** A directory from outside moves into a monitored one. */
  ghost predicate MovesIn(fs: Forest, op: Op)
    requires Valid(fs)
  {
    && op.RenameOp? && op.victim.None? && Enabled(fs, op) && !Uproots(fs, op)
    && op.n !in Tree(fs) && op.dest.In? && op.dest.parent in Tree(fs)
  }

  /** What the first event makes of the state, by itself. */
  lemma OutStep(s: Sys, op: Op, w: Walker)
    requires Coherent(s) && Valid(s.fs) && !s.exited && MovesOut(s.fs, op)
    ensures op.n in s.fs.up && s.fs.up[op.n].In? && s.fs.up[op.n].parent in s.marks
    ensures var t := Act(s, op);
      && t.pending == [Event(s.marks[s.fs.up[op.n].parent].wd, MovedFrom, true, op.cookie, s.fs.up[op.n].name)]
      && Known(t.cache, t.pending[0].wd)
      && Join(PathAt(t.cache, t.pending[0].wd), t.pending[0].name) == Tree(s.fs)[op.n]
      && var r, wds := ZapSubtree(t.(pending := []), w, Tree(s.fs)[op.n]), ZapList(s.cache, Tree(s.fs)[op.n]);
         && Inv(r, {}, {}) && !r.exited && r.fs == t.fs && r.pending == IgnoredEvents(wds)
         && Noisy(IgnoredEvents(wds)) == 0 && !ZapFails(t.(pending := []), Tree(s.fs)[op.n])
         && (forall m :: m in r.marks ==> m in s.marks && r.marks[m] == s.marks[m])
  {
    hide Valid, Tree, Tops, Subtree, RootsOk, SlotsOk, Entries, Agree, AtOrBelow, ZapSubtree, Moves, Relink, CanRelink,
         IgnoredEvents, Departed, NotTop, Known, PathAt, ZapList, RenameEvents, Join, Inv, AboveRoot, Free, Within;
    PlainReady(s, op);
    ClearedActs(s, op);
    var t := Act(s, op);
    OutEvents(s, op.n, op.dest, None, op.cookie);
    RenamedDeparts(s, op.n, op.dest, None, op.cookie);
    DepartedFacts(s, t, op.n, None);
    RelinkMoves(s.fs, op.n, op.dest);
    SubtreeMonitored(t.fs, op.n);
    CachedPath(s, {}, {}, s.fs.up[op.n].parent);
    DepartedRoots(s, t, op.n, None);
    var u := t.(pending := []);
    DepartedZap(s, t, u, w, op.n, None);
    MissUnmonitored(ZapSubtree(u, w, Tree(s.fs)[op.n]), Subtree(s.fs, op.n), {});
  }

  lemma ZapElsewhere(s: Sys, t: Sys, w: Walker, p: string)
    requires Valid(s.fs) && Valid(t.fs) && !ZapFails(s, p) && t == s.(fs := t.fs, pending := t.pending)
    ensures ZapSubtree(t, w, p) ==
            ZapSubtree(s, w, p).(fs := t.fs, pending := t.pending + IgnoredEvents(ZapList(s.cache, p)))
  {
    hide Valid, ZapList, Zapped, IgnoredEvents, Reinit;
    assert ZapFails(t, p) <==> ZapFails(s, p);
  }

  /** The arrival alone is reported, to whoever watches the new parent. */
  lemma OnlyArrives(fs: Forest, marks: Marks, op: Op)
    requires Valid(fs) && MovesIn(fs, op) && op.dest.parent in marks && op.n !in marks
    requires fs.up[op.n].In? ==> fs.up[op.n].parent !in marks
    ensures EventsOf(fs, marks, op) == [Event(marks[op.dest.parent].wd, MovedTo, true, op.cookie, op.dest.name)]
    ensures NewMarks(marks, op) == marks
  {
    hide Valid, Tree, Enabled, Uproots;
  }

  /** What the second event makes of a state with nothing missing but what has arrived. */
  lemma InStep(r: Sys, op: Op, w: Walker, quiet: seq<Event>)
    requires Coherent(r) && Valid(r.fs) && !r.exited && MovesIn(r.fs, op) && IsWalker(w) && Noisy(quiet) == 0
    ensures var v := Act(r, op).(pending := Act(r, op).pending + quiet);
      !Settle(v, w).exited && Coherent(Settle(v, w))
  {
    hide Valid, Tree, Tops, Subtree, RootsOk, SlotsOk, Entries, Agree, AtOrBelow, Relink, CanRelink, RenameEvents,
         Moves, Inv, Next, Settle, NotTop, Known, PathAt, HasPath, WatchEach, IsWalker, Join, GoneEvents,
         AboveRoot, Free, Within, IsRoot, Noisy;
    PlainReady(r, op);
    ClearedActs(r, op);
    var n, dest := op.n, op.dest;
    var t := Act(r, op);
    InInv(r, n, dest, None, op.cookie);
    InEvents(r, n, dest, None, op.cookie);
    RelinkMoves(r.fs, n, dest);
    CachedPath(r, {}, {}, dest.parent);
    var v, u := t.(pending := t.pending + quiet), t.(pending := quiet);
    assert GoneEvents(None) == [] by { NothingGone(); }
    assert v.pending == [t.pending[0]] + quiet && v.pending[1..] == quiet;
    InvIgnoresPending(t, u, Subtree(r.fs, n), {});
    NextEntry(v, w);
    OneStep(v, w);
    NotCached(t, Subtree(r.fs, n), n);
    WatchMissing(u, w, n, Subtree(r.fs, n));
    assert GoneEvents(None) + quiet == quiet;
    TailSettles(Next(v, w), w, {}, None, quiet);
    var top := TreeHasTop(t.fs, n);
  }

  lemma NothingGone()
    ensures GoneEvents(None) == []
  {
  }

  /** The arriving directory was and is where no watch sees it. */
  lemma StillOutside(s: Sys, out: Op, into: Op)
    requires Coherent(s) && Valid(s.fs) && MovesOut(s.fs, out)
    requires MovesIn(NewForest(s.fs, out), into) && into.n !in Tree(s.fs)
    ensures into.dest.parent in s.marks && into.n !in s.marks
    ensures var up := NewForest(s.fs, out).up;
      && into.n in up
      && (up[into.n].In? ==> up[into.n].parent !in s.marks && up[into.n].parent !in Tree(NewForest(s.fs, out)))
  {
    hide Valid, Tree, Tops, Subtree, RootsOk, SlotsOk, Entries, Agree, Relink, CanRelink, AboveRoot, Free, Within,
         AtOrBelow;
    var fs := NewForest(s.fs, out);
    GroundOk(s.fs, out);
    RelinkTree(s.fs, out.n, out.dest);
    RelinkMoves(s.fs, out.n, out.dest);
    AgreeMarks(s, {}, {});
    StaysThere(s.fs, out, into.n);
    ParentInTree(s.fs, into.n);
    ParentInTree(fs, into.n);
  }

  lemma StaysThere(fs: Forest, out: Op, n: Dir)
    requires Valid(fs) && MovesOut(fs, out) && n in NewForest(fs, out).up
    ensures n in fs.up
  {
    hide Valid, Tree, Free, Within, AboveRoot, Under;
    GroundOk(fs, out);
  }

  /** A directory leaves the monitored trees, and before the program reads that, another one arrives: the
      two events stand next to each other, but their cookies differ, so that the program drops the one
      subtree and watches the other. */
  lemma BothHandled(s: Sys, out: Op, into: Op, w: Walker)
    requires Coherent(s) && Valid(s.fs) && !s.exited && IsWalker(w) && MovesOut(s.fs, out)
    requires MovesIn(NewForest(s.fs, out), into) && into.n !in Tree(s.fs) && into.cookie != out.cookie
    ensures var t := Act(Act(s, out), into);
      !Settle(t, w).exited && Coherent(Settle(t, w))
  {
    hide Valid, Tree, Tops, Inv, Next, Settle, Enabled, Uproots, IsWalker, ZapSubtree, ZapFails, IgnoredEvents, Known,
         PathAt, ZapList, Join, NewForest, NewMarks, EventsOf, Noisy;
    OutStep(s, out, w);
    var s1, p := Act(s, out), Tree(s.fs)[out.n];
    var s2 := Act(s1, into);
    var r, quiet := ZapSubtree(s1.(pending := []), w, p), IgnoredEvents(ZapList(s.cache, p));
    var r0 := r.(pending := []);
    StillOutside(s, out, into);
    OutKeepsMarks(s, out);
    OnlyArrives(s1.fs, s.marks, into);
    Emptied(r);
    WatchedNow(r0);
    OnlyArrives(s1.fs, r0.marks, into);
    assert s2.pending == [s1.pending[0]] + [s2.pending[1]] && s2.pending[1..] == [s2.pending[1]];
    NextMovedOut(s2, w);
    ZapElsewhere(s1.(pending := []), s2.(pending := s2.pending[1..]), w, p);
    OneStep(s2, w);
    assert Next(s2, w) == Act(r0, into).(pending := Act(r0, into).pending + quiet);
    InStep(r0, into, w, quiet);
  }

  lemma OutKeepsMarks(s: Sys, out: Op)
    requires Valid(s.fs) && MovesOut(s.fs, out)
    ensures Act(s, out).marks == s.marks && Act(s, out).cache == s.cache && Act(s, out).fs == NewForest(s.fs, out)
  {
    hide Valid, Tree, Enabled, NewForest, EventsOf;
  }

  lemma Emptied(s: Sys)
    requires Inv(s, {}, {})
    ensures Coherent(s.(pending := []))
  {
    hide Valid, RootsOk, Tree, Tops, SlotsOk, Entries, Agree;
  }

  lemma WatchedNow(s: Sys)
    requires Coherent(s)
    ensures Valid(s.fs) && forall n :: n in s.marks <==> n in Tree(s.fs)
  {
    AgreeMarks(s, {}, {});
    hide Inv, Tree;
    assert forall n :: n in s.marks.Keys <==> n in Tree(s.fs).Keys;
  }
}
