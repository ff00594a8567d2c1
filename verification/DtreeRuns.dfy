/** What one operation and the handling of its events do to the cache, and the exact condition under
    which they break its coherence. */
module DtreeRuns {
  import opened Common
  import opened Paths
  import opened DirForest
  import opened Inotify
  import opened SlotCache
  import opened DtreeSpec
  import opened DtreeCoherence
  import opened DtreeSteps
  import opened DtreeAncestors

  /** What a settled state looks like when the directories in `lost` have been left out. */
  ghost predicate Settled(t: Sys, lost: set<Dir>)
  {
    && Valid(t.fs)
    && (t.exited ==> Tops(t.fs) == {})
    && (!t.exited ==> t.pending == [] && Inv(t, lost, {}))
  }

  /** The cached pathname of `x` is not that of a root. */
  ghost predicate NotTop(s: Sys, x: int)
    requires Valid(s.fs)
  {
    && x in Entries(s.cache)
    && (forall r :: r in Tops(s.fs) ==> r in Tree(s.fs) && Tree(s.fs)[r] != Entries(s.cache)[x])
  }

  /** The events of a deleted directory, if there is one, and nothing else that asks for work. */
  lemma TailSettles(s: Sys, w: Walker, miss: set<Dir>, x: Option<int>, quiet: seq<Event>)
    requires Inv(s, miss, Stale(x)) && !s.exited
    requires s.pending == GoneEvents(x) + quiet && Noisy(quiet) == 0
    requires x.Some? ==> NotTop(s, x.value)
    ensures Settled(Settle(s, w), miss) && Settle(s, w).marks == s.marks
    ensures x.Some? ==> !IsRoot(Settle(s, w).roots, Entries(s.cache)[x.value])
  {
    hide Valid, RootsOk, Tree, Tops, Agree, SlotsOk, Next, Settle, IsRoot;
    if x.Some? {
      DeleteSelfStep(s, w, miss, x.value);
      OneStep(s, w);
      var t := Next(s, w);
      assert s.pending[1..] == [Event(x.value, Ignored, false, 0, "")] + quiet;
      if t.exited {
        assert Settle(t, w) == t by { SettleStops(t, w); }
      } else {
        NoisyConcat([Event(x.value, Ignored, false, 0, "")], quiet);
        SettleQuiet(t, w);
      }
    } else {
      assert s.pending == quiet;
      SettleQuiet(s, w);
    }
  }

  // ---- mkdir, rmdir, operations on files ----

  lemma NotCached(s: Sys, miss: set<Dir>, n: Dir)
    requires Inv(s, miss, {}) && n in Tree(s.fs) && n !in s.marks
    ensures !HasPath(s.cache, Tree(s.fs)[n])
  {
    hide Valid, RootsOk, Tree, Tops, Entries, FirstWith;
    TreeInjective(s.fs);
    forall j | 0 <= j < |s.cache| && Used(s.cache[j])
      ensures s.cache[j].path != Tree(s.fs)[n]
    {
      SlotIsEntry(s.cache, j);
      var m :| m in s.marks && s.marks[m].wd == s.cache[j].wd;
      assert s.cache[j].path == Tree(s.fs)[m];
    }
  }

  lemma NextEntry(s: Sys, w: Walker)
    requires Valid(s.fs) && s.pending != [] && s.pending[0].isDir && Known(s.cache, s.pending[0].wd)
    requires s.pending[0].kind.Create? || s.pending[0].kind.MovedTo?
    ensures var p, u := Join(PathAt(s.cache, s.pending[0].wd), s.pending[0].name), s.(pending := s.pending[1..]);
      Next(s, w) == if HasPath(s.cache, p) then u else WatchSubtree(u, w, p)
  {
    hide Valid, WatchSubtree, HasPath, Join;
  }

  /** A directory that only `n` is missing from: its watch is added by walking from `n`. */
  lemma WatchMissing(s: Sys, w: Walker, n: Dir, miss: set<Dir>)
    requires Inv(s, miss, {}) && n in Tree(s.fs) && miss <= Subtree(s.fs, n) && IsWalker(w)
    ensures Inv(WatchSubtree(s, w, Tree(s.fs)[n]), {}, {})
  {
    hide Valid, Tree, Tops, Subtree, RootsOk, SlotsOk, IsWalker, WatchSubtree, AtOrBelow, Agree, Entries;
    TreeBelow(s.fs, n);
    var p, t := Tree(s.fs)[n], WatchSubtree(s, w, Tree(s.fs)[n]);
    WatchSubtreeInv(s, w, p, miss, {});
    assert forall m :: m in NotBelow(Tree(s.fs), miss, p) ==> m !in Tree(s.fs);
    var left := NotBelow(Tree(s.fs), miss, p);
    AgreeMissNothing(Tree(t.fs), Tops(t.fs), t.marks, t.nextWd, Entries(t.cache), left, {}, {});
  }

  lemma AgreeMarks(s: Sys, miss: set<Dir>, stale: set<int>)
    requires Inv(s, miss, stale)
    ensures s.marks.Keys == Tree(s.fs).Keys - miss
    ensures forall n :: n in s.marks ==> (s.marks[n].moveSelf <==> n in Tops(s.fs))
  {
    hide Valid, Tree, Tops, SlotsOk, RootsOk, Entries;
  }

  lemma MkdirActs(s: Sys, op: Op)
    requires Coherent(s) && op.MkdirOp? && Enabled(s.fs, op)
    ensures var t := Act(s, op);
      if op.parent in Tree(s.fs) then
        && Inv(t, {op.n}, {}) && op.n !in t.marks && op.parent in t.marks
        && op.n in Tree(t.fs) && Tree(t.fs)[op.n] == Join(Tree(t.fs)[op.parent], op.name)
        && t.pending == [Event(t.marks[op.parent].wd, Create, true, 0, op.name)]
      else Coherent(t)
  {
    hide Valid, Tree, Tops, SlotsOk, Entries, Agree, RootsOk, Subtree, Mkdir, Free;
    MkdirTree(s.fs, op.parent, op.name, op.n);
    TreeInside(s.fs);
    TopsInTree(s.fs);
    var t := Act(s, op);
    RootsStayOk(s.fs, t.fs, s.roots);
    assert s.marks.Keys == Tree(s.fs).Keys by { AgreeMarks(s, {}, {}); }
    if op.parent in Tree(s.fs) {
      AgreeAfterMkdir(Tree(s.fs), Tops(s.fs), s.marks, s.nextWd, Entries(s.cache), op.n, Tree(t.fs)[op.n]);
    }
  }

  lemma MkdirSettles(s: Sys, op: Op, w: Walker)
    requires Coherent(s) && !s.exited && op.MkdirOp? && Enabled(s.fs, op) && IsWalker(w)
    ensures Settled(Settle(Act(s, op), w), {}) && SameWatches(s.marks, Settle(Act(s, op), w).marks)
  {
    hide NewForest, EventsOf, Valid, Tree, Tops, Subtree, Agree, RootsOk, SlotsOk, Settle, Next, IsWalker,
         WatchEach, HasPath, Enabled;
    MkdirActs(s, op);
    var t, n := Act(s, op), op.n;
    assert Valid(t.fs);
    if op.parent in Tree(s.fs) {
      CachedPath(t, {n}, {}, op.parent);
      NextEntry(t, w);
      NotCached(t, {n}, n);
      TreeBelow(t.fs, n);
      WatchMissing(t.(pending := []), w, n, {n});
      WatchEachAdds(t.(pending := t.pending[1..]), w(t.fs, Tree(t.fs)[n]));
      OneStep(t, w);
      SettleStops(Next(t, w), w);
    } else {
      SettleStops(t, w);
    }
  }

  lemma RmdirUnwatched(s: Sys, n: Dir)
    requires Coherent(s) && n in s.fs.up && Childless(s.fs, n) && n !in Tree(s.fs)
    ensures Coherent(Act(s, RmdirOp(n)))
  {
    hide Valid, Tree, Tops, SlotsOk, Entries, Agree, RootsOk, Subtree, Childless, Rmdir;
    var t := Act(s, RmdirOp(n));
    AgreeMarks(s, {}, {});
    assert t == s.(fs := Rmdir(s.fs, n), marks := s.marks - {n}, pending := []);
    assert t.marks == s.marks;
    RmdirTree(s.fs, n);
    TopsInTree(s.fs);
    assert Tree(t.fs) == Tree(s.fs);
    assert Tops(t.fs) == Tops(s.fs);
    RootsStayOk(s.fs, t.fs, s.roots);
  }

  lemma RmdirWatched(s: Sys, n: Dir)
    requires Coherent(s) && n in s.fs.up && Childless(s.fs, n) && n in Tree(s.fs)
    ensures n in s.marks
    ensures var t, x := Act(s, RmdirOp(n)), s.marks[n].wd;
      && Inv(t, {}, {x}) && t.pending == GoneEvents(Some(x)) && NotTop(t, x)
      && Entries(t.cache)[x] == Tree(s.fs)[n]
  {
    hide Valid, Tree, Tops, SlotsOk, Entries, Agree, RootsOk, Subtree, Childless, Rmdir;
    var t := Act(s, RmdirOp(n));
    AgreeMarks(s, {}, {});
    assert t == s.(fs := Rmdir(s.fs, n), marks := s.marks - {n}, pending := Gone(s.marks, n));
    RmdirTree(s.fs, n);
    TopsInTree(s.fs);
    TreeInjective(s.fs);
    AgreeAfterDelete(Tree(s.fs), Tops(s.fs), s.marks, s.nextWd, Entries(s.cache), n);
    RootsStayOk(s.fs, t.fs, s.roots);
  }

  /** Removing a directory; if it is a root, the program stops watching it, and when it was the
      last one the program exits. */
  lemma RmdirSettles(s: Sys, op: Op, w: Walker)
    requires Coherent(s) && !s.exited && op.RmdirOp? && Enabled(s.fs, op)
    ensures Settled(Settle(Act(s, op), w), {}) && SameWatches(s.marks, Settle(Act(s, op), w).marks)
    ensures op.n in Tree(s.fs) ==> !IsRoot(Settle(Act(s, op), w).roots, Tree(s.fs)[op.n])
  {
    hide Valid, Tree, Tops, SlotsOk, Entries, Agree, RootsOk, Subtree, Childless, Settle, Next, IsRoot;
    var t, n := Act(s, op), op.n;
    if n in Tree(s.fs) {
      RmdirWatched(s, n);
      TailSettles(t, w, {}, Some(s.marks[n].wd), []);
    } else {
      RmdirUnwatched(s, n);
      CoherentValid(t);
      SettleStops(t, w);
    }
  }

  lemma CoherentValid(s: Sys)
    requires Coherent(s)
    ensures Valid(s.fs)
  {
  }

  ghost predicate AllKnown(s: Sys) {
    forall i :: 0 <= i < |s.pending| ==> Known(s.cache, s.pending[i].wd)
  }

  /** An event about a file changes nothing; one that cannot be placed causes a rebuild. */
  lemma {:induction false} FilesSettle(s: Sys, w: Walker)
    requires Inv(s, {}, {}) && !s.exited && IsWalker(w)
    requires forall i :: 0 <= i < |s.pending| ==> IsFileEvent(s.pending[i])
    ensures !Settle(s, w).exited && Coherent(Settle(s, w))
    ensures AllKnown(s) ==> Settle(s, w) == s.(pending := [])
    decreases |s.pending|
  {
    if s.pending == [] {
      SettleStops(s, w);
    } else {
      OneStep(s, w);
      if Known(s.cache, s.pending[0].wd) {
        assert Next(s, w) == s.(pending := s.pending[1..]) by {
          hide Valid, Reinit, ZapSubtree, WatchSubtree;
        }
        hide Valid, Tree, Tops, Agree, RootsOk, SlotsOk, Next;
        var u := s.(pending := s.pending[1..]);
        assert AllKnown(s) ==> AllKnown(u);
        FilesSettle(u, w);
      } else {
        LostTrackRestores(s, w);
        SettleStops(Next(s, w), w);
      }
    }
  }

  // ---- rename ----

  lemma RelinkMoves(fs: Forest, n: Dir, dest: Link)
    requires Valid(fs) && CanRelink(fs, n, dest)
    ensures var fs' := Relink(fs, n, dest);
      && Valid(fs') && Moves(Tree(fs), Tree(fs'), Tops(fs), Tops(fs'), Subtree(fs, n), n)
      && Subtree(fs', n) == Subtree(fs, n) && n in fs'.up && fs'.up[n] == dest
      && (n in Tree(fs') <==> dest.In? && dest.parent in Tree(fs))
      && (n in Tree(fs') ==> Tree(fs')[n] == Join(Tree(fs)[dest.parent], dest.name))
  {
    hide Valid, Tree, Tops, Subtree, Relink, CanRelink, AtOrBelow;
    var fs' := Relink(fs, n, dest);
    RelinkTree(fs, n, dest);
    CanRelinkHere(fs, n, dest);
    TopsApart(fs, n);
    SubtreeMonitored(fs, n);
    SubtreeMonitored(fs', n);
    if n in Tree(fs) {
      TreeBelow(fs, n);
    }
  }

  lemma CanRelinkHere(fs: Forest, n: Dir, dest: Link)
    requires Valid(fs) && CanRelink(fs, n, dest)
    ensures n in fs.up && n in Relink(fs, n, dest).up
  {
  }

  /** A state in which `n` can be renamed; `x` is the descriptor of the directory that the
      rename has just replaced, if that one was watched. */
  ghost predicate Ready(s: Sys, n: Dir, dest: Link, x: Option<int>) {
    && Valid(s.fs) && Inv(s, {}, Stale(x)) && !s.exited && CanRelink(s.fs, n, dest)
    && (x.Some? ==>
          && NotTop(s, x.value)
          && (dest.In? && dest.parent in Tree(s.fs) ==>
                Entries(s.cache)[x.value] == Join(Tree(s.fs)[dest.parent], dest.name))
          && (n in Tree(s.fs) ==> !AtOrBelow(Entries(s.cache)[x.value], Tree(s.fs)[n])))
  }

  ghost function Renamed(s: Sys, n: Dir, dest: Link, x: Option<int>, cookie: int): Sys
    requires Valid(s.fs) && CanRelink(s.fs, n, dest)
  {
    s.(fs := Relink(s.fs, n, dest),
       pending := RenameEvents(s.fs, s.marks, n, dest, cookie) + GoneEvents(x))
  }

  lemma NextPair(s: Sys, w: Walker)
    requires Valid(s.fs) && |s.pending| >= 2
    requires var ev, to := s.pending[0], s.pending[1];
      && ev.isDir && ev.kind.MovedFrom? && to.kind.MovedTo? && to.cookie == ev.cookie
      && Known(s.cache, ev.wd) && Known(s.cache, to.wd)
    ensures var ev, to := s.pending[0], s.pending[1];
      var oldTop, newTop := Join(PathAt(s.cache, ev.wd), ev.name), Join(PathAt(s.cache, to.wd), to.name);
      Next(s, w) == s.(pending := s.pending[2..], cache := Rewritten(s.cache, oldTop, newTop))
  {
    hide Valid, Rewritten, Join;
    assert s.pending[1..][1..] == s.pending[2..];
  }

  lemma InsideEvents(s: Sys, n: Dir, dest: Link, x: Option<int>, cookie: int)
    requires Ready(s, n, dest, x) && n in Tree(s.fs) && n !in Tops(s.fs)
    requires dest.In? && dest.parent in Tree(s.fs)
    ensures n in s.fs.up && s.fs.up[n].In? && s.fs.up[n].parent in s.marks && dest.parent in s.marks
    ensures Tree(s.fs)[n] == Join(Tree(s.fs)[s.fs.up[n].parent], s.fs.up[n].name)
    ensures var t := Renamed(s, n, dest, x, cookie);
      t.pending == [Event(s.marks[s.fs.up[n].parent].wd, MovedFrom, true, cookie, s.fs.up[n].name),
                    Event(s.marks[dest.parent].wd, MovedTo, true, cookie, dest.name)] + GoneEvents(x)
  {
    hide Valid, Tree, RootsOk, SlotsOk, Entries, Agree, AtOrBelow, Relink, Under, Free;
    ParentInTree(s.fs, n);
    AgreeMarks(s, {}, Stale(x));
  }

  lemma InsideStep(s: Sys, w: Walker, n: Dir, dest: Link, x: Option<int>, cookie: int)
    requires Ready(s, n, dest, x) && n in Tree(s.fs) && n !in Tops(s.fs)
    requires dest.In? && dest.parent in Tree(s.fs)
    ensures var t := Renamed(s, n, dest, x, cookie);
      && t.pending != [] && Valid(t.fs) && n in Tree(t.fs) && !t.exited
      && Next(t, w) == s.(fs := t.fs, pending := GoneEvents(x),
                          cache := Rewritten(s.cache, Tree(s.fs)[n], Tree(t.fs)[n]))
  {
    hide Valid, Tree, Tops, Subtree, RootsOk, SlotsOk, Entries, Agree, AtOrBelow, Relink, CanRelink, Rewritten,
         Next, RenameEvents, PathAt, Known, Join, Moves, GoneEvents;
    var t := Renamed(s, n, dest, x, cookie);
    RelinkMoves(s.fs, n, dest);
    InsideEvents(s, n, dest, x, cookie);
    CachedPath(s, {}, Stale(x), s.fs.up[n].parent);
    CachedPath(s, {}, Stale(x), dest.parent);
    NextPair(t, w);
  }

  lemma InsideInv(s: Sys, n: Dir, x: Option<int>, u: Sys)
    requires Inv(s, {}, Stale(x)) && n in Tree(s.fs) && n !in Tops(s.fs)
    requires Valid(u.fs) && n in Tree(u.fs)
    requires Moves(Tree(s.fs), Tree(u.fs), Tops(s.fs), Tops(u.fs), Subtree(s.fs, n), n)
    requires u == s.(fs := u.fs, pending := u.pending, cache := Rewritten(s.cache, Tree(s.fs)[n], Tree(u.fs)[n]))
    ensures Inv(u, {}, Stale(x))
    ensures var e := Entries(s.cache);
      Entries(u.cache) == map wd | wd in e :: Moved(e[wd], Tree(s.fs)[n], Tree(u.fs)[n])
  {
    hide Valid, Tree, Tops, Subtree, RootsOk, SlotsOk, Entries, Agree, AtOrBelow, Rewritten, Moved;
    var tree, tree' := Tree(s.fs), Tree(u.fs);
    TopsInTree(s.fs);
    RootsStayOk(s.fs, u.fs, s.roots);
    TreeNonempty(s.fs, n);
    RewriteKeepsSlots(s.cache, tree[n], tree'[n]);
    RewriteRefines(s.cache, tree[n], tree'[n]);
    forall m
      ensures m in tree <==> m in tree'
    {
    }
    assert tree'.Keys == tree.Keys && Tops(u.fs) == Tops(s.fs);
    AgreeAfterRewrite(tree, tree', Tops(s.fs), s.marks, s.nextWd, Entries(s.cache), Stale(x), n);
  }

  /** The directory that the rename replaced keeps its pathname in the cache until its own event. */
  lemma InsideStale(s: Sys, n: Dir, dest: Link, x: int, u: Sys)
    requires Ready(s, n, dest, Some(x)) && n in Tree(s.fs) && n !in Tops(s.fs)
    requires Valid(u.fs) && n in Tree(u.fs)
    requires Moves(Tree(s.fs), Tree(u.fs), Tops(s.fs), Tops(u.fs), Subtree(s.fs, n), n)
    requires var e := Entries(s.cache);
      Entries(u.cache) == map wd | wd in e :: Moved(e[wd], Tree(s.fs)[n], Tree(u.fs)[n])
    ensures NotTop(u, x)
  {
    hide Valid, Tree, Tops, Subtree, RootsOk, SlotsOk, Entries, Agree, AtOrBelow, CanRelink;
    TopsInTree(s.fs);
    TopsInTree(u.fs);
  }

  lemma TreeNonempty(fs: Forest, n: Dir)
    requires Valid(fs) && n in Tree(fs)
    ensures Tree(fs)[n] != ""
  {
  }

  /** A rename inside the monitored trees: the prefix rewrite equals the subtree move. */
  lemma RenameInside(s: Sys, w: Walker, n: Dir, dest: Link, x: Option<int>, cookie: int)
    requires Ready(s, n, dest, x) && n in Tree(s.fs) && n !in Tops(s.fs)
    requires dest.In? && dest.parent in Tree(s.fs)
    ensures Settled(Settle(Renamed(s, n, dest, x, cookie), w), {})
    ensures Settle(Renamed(s, n, dest, x, cookie), w).marks == s.marks
  {
    hide Valid, Tree, Tops, Subtree, RootsOk, SlotsOk, Entries, Agree, AtOrBelow, Relink, CanRelink, Rewritten,
         IsRoot, Settle, Next, RenameEvents, PathAt, Known, Join, Settled, Moves, GoneEvents, Moved, Inv, Stale;
    var t := Renamed(s, n, dest, x, cookie);
    InsideStep(s, w, n, dest, x, cookie);
    RelinkMoves(s.fs, n, dest);
    OneStep(t, w);
    var u := Next(t, w);
    InsideInv(s, n, x, u);
    assert u.pending == GoneEvents(x) + [];
    if x.Some? {
      InsideStale(s, n, dest, x.value, u);
    }
    TailSettles(u, w, {}, x, []);
  }

  lemma MissUnmonitored(s: Sys, miss: set<Dir>, stale: set<int>)
    requires Inv(s, miss, stale) && miss !! Tree(s.fs).Keys
    ensures Inv(s, {}, stale)
  {
    hide Valid, Tree, Tops, RootsOk, SlotsOk, Entries, Agree;
    assert {} * Tree(s.fs).Keys == miss * Tree(s.fs).Keys;
    AgreeMissNothing(Tree(s.fs), Tops(s.fs), s.marks, s.nextWd, Entries(s.cache), miss, stale, {});
  }

  lemma NextMovedOut(s: Sys, w: Walker)
    requires Valid(s.fs) && s.pending != [] && !Paired(s.pending[0], s.pending[1..])
    requires s.pending[0].isDir && s.pending[0].kind.MovedFrom? && Known(s.cache, s.pending[0].wd)
    ensures Next(s, w) ==
            ZapSubtree(s.(pending := s.pending[1..]), w, Join(PathAt(s.cache, s.pending[0].wd), s.pending[0].name))
  {
    hide Valid, ZapSubtree, Join;
  }

  lemma NextMoveSelf(s: Sys, w: Walker)
    requires Valid(s.fs) && s.pending != [] && s.pending[0].kind.MoveSelf? && Known(s.cache, s.pending[0].wd)
    requires IsRoot(s.roots, PathAt(s.cache, s.pending[0].wd))
    ensures var p := PathAt(s.cache, s.pending[0].wd);
      var z := ZapRoot(s.(pending := s.pending[1..]), p);
      Next(s, w) == if z.exited then z else ZapSubtree(z, w, p)
  {
    hide Valid, ZapSubtree, ZapRoot, IsRoot;
  }

  /** The rename of an unwatched, or no longer watched, place for `n`: its old pathname is gone. */
  ghost predicate Departed(s: Sys, t: Sys, n: Dir, x: Option<int>) {
    && Valid(s.fs) && Inv(s, {}, Stale(x)) && n in Tree(s.fs) && Valid(t.fs)
    && Moves(Tree(s.fs), Tree(t.fs), Tops(s.fs), Tops(t.fs), Subtree(s.fs, n), n)
    && t.cache == s.cache && t.nextWd == s.nextWd && Remasked(s.marks, t.marks, Subtree(s.fs, n))
    && t.roots == s.roots && !t.exited
    && (x.Some? ==> NotTop(s, x.value) && !AtOrBelow(Entries(s.cache)[x.value], Tree(s.fs)[n]))
  }

  lemma DepartedRoots(s: Sys, t: Sys, n: Dir, x: Option<int>)
    requires Departed(s, t, n, x)
    ensures RootsOk(t.fs, t.roots) && Tops(t.fs) == Tops(s.fs) - {n}
    ensures forall r :: r in Tops(t.fs) ==> r in Tree(t.fs) && r in Tree(s.fs) && Tree(t.fs)[r] == Tree(s.fs)[r]
    ensures forall r :: r in Tops(t.fs) ==> Tree(t.fs)[r] != Tree(s.fs)[n]
  {
    hide Valid, Tree, Tops, Subtree, RootsOk, SlotsOk, Entries, Agree, AtOrBelow, Remasked;
    TopsInTree(s.fs);
    TopsInTree(t.fs);
    TreeInjective(s.fs);
    RootsStayOk(s.fs, t.fs, s.roots);
  }

  /** The zap that follows, from a state that differs from `t` in its root list at most. */
  lemma DepartedZap(s: Sys, t: Sys, u: Sys, w: Walker, n: Dir, x: Option<int>)
    requires Departed(s, t, n, x) && u == t.(pending := u.pending, roots := u.roots) && RootsOk(u.fs, u.roots)
    ensures var r, wds := ZapSubtree(u, w, Tree(s.fs)[n]), ZapList(s.cache, Tree(s.fs)[n]);
      && !r.exited && r.fs == t.fs && r.pending == u.pending + IgnoredEvents(wds) && Noisy(IgnoredEvents(wds)) == 0
      && Inv(r, Subtree(s.fs, n), Stale(x)) && (x.Some? ==> NotTop(r, x.value))
      && (x.Some? ==> x.value in Entries(s.cache) && Entries(r.cache)[x.value] == Entries(s.cache)[x.value])
      && !ZapFails(u, Tree(s.fs)[n])
      && (forall m :: m in r.marks ==> m in u.marks && r.marks[m] == u.marks[m])
  {
    hide Valid, Tree, Tops, Subtree, RootsOk, SlotsOk, Entries, Agree, AtOrBelow, Remasked, ZapSubtree, Moves, Inv,
         IgnoredEvents;
    ZapStep(s, u, w, n, Stale(x));
    DepartedRoots(s, t, n, x);
    IgnoredIsQuiet(ZapList(s.cache, Tree(s.fs)[n]));
  }

  /** A root directory that has been moved away: its pathname is struck off the list, and its
      subtree is zapped unless the program exits. */
  lemma MoveSelfSettles(s: Sys, t: Sys, w: Walker, n: Dir, x: Option<int>)
    requires Departed(s, t, n, x) && n in Tops(s.fs) && n in s.marks
    requires t.pending == [Event(s.marks[n].wd, MoveSelf, true, 0, "")] + GoneEvents(x)
    ensures Settled(Settle(t, w), Subtree(s.fs, n)) && SameWatches(t.marks, Settle(t, w).marks)
    ensures !IsRoot(Settle(t, w).roots, Tree(s.fs)[n])
    ensures x.Some? ==> x.value in Entries(s.cache) && !IsRoot(Settle(t, w).roots, Entries(s.cache)[x.value])
  {
    hide Valid, Tree, Tops, Subtree, RootsOk, SlotsOk, Entries, Agree, AtOrBelow, Remasked, ZapSubtree, Moves, Inv,
         IgnoredEvents, Next, Settle, ZapRoot, GoneEvents, Departed, NotTop, IsRoot, Known, PathAt, ZapList;
    DepartedFacts(s, t, n, x);
    var p := Tree(s.fs)[n];
    CachedPath(s, {}, Stale(x), n);
    RootPathIsRoot(s.fs, s.roots, n);
    NextMoveSelf(t, w);
    OneStep(t, w);
    DepartedRoots(s, t, n, x);
    var u := t.(pending := t.pending[1..]);
    assert u.pending == GoneEvents(x);
    ZapRootOk(u, p);
    ZapRootExact(u, p);
    var z := ZapRoot(u, p);
    if z.exited {
      SettleStops(z, w);
      NoneIsRoot(z.roots);
    } else {
      DepartedZap(s, t, z, w, n, x);
      TailSettles(Next(t, w), w, Subtree(s.fs, n), x, IgnoredEvents(ZapList(s.cache, p)));
      SettleListed(Next(t, w), w, p);
    }
  }

  lemma NoneIsRoot(roots: seq<Option<string>>)
    requires NoneListed(roots)
    ensures forall p :: !IsRoot(roots, p)
  {
  }

  lemma DepartedFacts(s: Sys, t: Sys, n: Dir, x: Option<int>)
    requires Departed(s, t, n, x)
    ensures Valid(s.fs) && Inv(s, {}, Stale(x)) && RootsOk(s.fs, s.roots) && n in Tree(s.fs) && Valid(t.fs)
    ensures x.Some? ==> x.value in Entries(s.cache)
    ensures t.cache == s.cache && t.roots == s.roots && !t.exited
  {
  }

  lemma SettledUnmonitored(t: Sys, miss: set<Dir>)
    requires Settled(t, miss) && miss !! Tree(t.fs).Keys
    ensures Settled(t, {})
  {
    hide Valid, Tree, Tops, Inv;
    if !t.exited {
      MissUnmonitored(t, miss, {});
    }
  }

  lemma RenamedDeparts(s: Sys, n: Dir, dest: Link, x: Option<int>, cookie: int)
    requires Ready(s, n, dest, x) && n in Tree(s.fs)
    ensures Departed(s, Renamed(s, n, dest, x, cookie), n, x)
  {
    hide Valid, Tree, Tops, Subtree, Inv, AtOrBelow, NotTop, Moves, Relink, CanRelink, RenameEvents, GoneEvents;
    RelinkMoves(s.fs, n, dest);
  }

  lemma OutEvents(s: Sys, n: Dir, dest: Link, x: Option<int>, cookie: int)
    requires Ready(s, n, dest, x) && n in Tree(s.fs)
    requires !(dest.In? && dest.parent in Tree(s.fs))
    ensures n in s.fs.up && n in s.marks
    ensures n in Tops(s.fs) ==>
              Renamed(s, n, dest, x, cookie).pending == [Event(s.marks[n].wd, MoveSelf, true, 0, "")] + GoneEvents(x)
    ensures n !in Tops(s.fs) ==>
              && s.fs.up[n].In? && s.fs.up[n].parent in s.marks
              && Tree(s.fs)[n] == Join(Tree(s.fs)[s.fs.up[n].parent], s.fs.up[n].name)
              && Renamed(s, n, dest, x, cookie).pending
                 == [Event(s.marks[s.fs.up[n].parent].wd, MovedFrom, true, cookie, s.fs.up[n].name)] + GoneEvents(x)
  {
    hide Valid, Tree, RootsOk, SlotsOk, Entries, Agree, AtOrBelow, Relink, Under, Free;
    ParentInTree(s.fs, n);
    AgreeMarks(s, {}, Stale(x));
  }

  lemma GoneUnpaired(evs: seq<Event>, x: Option<int>)
    requires |evs| >= 1 && evs[1..] == GoneEvents(x)
    ensures !Paired(evs[0], evs[1..])
  {
  }

  /** The pathname of a root that was moved, and that of the replaced directory, are not on the list. */
  ghost predicate Strikes(s: Sys, n: Dir, x: Option<int>, t: Sys)
    requires Valid(s.fs)
  {
    && (n in Tops(s.fs) ==> n in Tree(s.fs) && !IsRoot(t.roots, Tree(s.fs)[n]))
    && (x.Some? ==> x.value in Entries(s.cache) && !IsRoot(t.roots, Entries(s.cache)[x.value]))
  }

  /** A rename out of the monitored trees, of a root or of another directory. */
  lemma RenameOut(s: Sys, w: Walker, n: Dir, dest: Link, x: Option<int>, cookie: int)
    requires Ready(s, n, dest, x) && n in Tree(s.fs)
    requires !(dest.In? && dest.parent in Tree(s.fs))
    ensures Settled(Settle(Renamed(s, n, dest, x, cookie), w), {})
    ensures SameWatches(s.marks, Settle(Renamed(s, n, dest, x, cookie), w).marks)
    ensures Strikes(s, n, x, Settle(Renamed(s, n, dest, x, cookie), w))
  {
    hide Valid, Tree, Tops, Subtree, RootsOk, SlotsOk, Entries, Agree, AtOrBelow, ZapSubtree, Moves, Inv, Relink,
         CanRelink,
         IgnoredEvents, Next, Settle, Departed, NotTop, IsRoot, Known, PathAt, ZapList, RenameEvents, Join, Settled;
    var t := Renamed(s, n, dest, x, cookie);
    OutEvents(s, n, dest, x, cookie);
    RenamedDeparts(s, n, dest, x, cookie);
    DepartedFacts(s, t, n, x);
    RelinkMoves(s.fs, n, dest);
    SubtreeMonitored(t.fs, n);
    if n in Tops(s.fs) {
      MoveSelfSettles(s, t, w, n, x);
    } else {
      CachedPath(s, {}, Stale(x), s.fs.up[n].parent);
      GoneUnpaired(t.pending, x);
      NextMovedOut(t, w);
      OneStep(t, w);
      DepartedRoots(s, t, n, x);
      var u := t.(pending := t.pending[1..]);
      assert u.pending == GoneEvents(x);
      DepartedZap(s, t, u, w, n, x);
      TailSettles(Next(t, w), w, Subtree(s.fs, n), x, IgnoredEvents(ZapList(s.cache, Tree(s.fs)[n])));
    }
    SettledUnmonitored(Settle(t, w), Subtree(s.fs, n));
  }

  /** A rename between places outside every monitored tree; it may replace a root. */
  lemma RenameElsewhere(s: Sys, w: Walker, n: Dir, dest: Link, x: Option<int>, cookie: int)
    requires Ready(s, n, dest, x) && n !in Tree(s.fs)
    requires !(dest.In? && dest.parent in Tree(s.fs))
    ensures Settled(Settle(Renamed(s, n, dest, x, cookie), w), {})
    ensures Settle(Renamed(s, n, dest, x, cookie), w).marks == s.marks
    ensures Strikes(s, n, x, Settle(Renamed(s, n, dest, x, cookie), w))
  {
    hide Valid, Tree, Tops, Subtree, RootsOk, SlotsOk, Entries, Agree, AtOrBelow, Relink, Under, Free, Settle, IsRoot;
    var t := Renamed(s, n, dest, x, cookie);
    ParentInTree(s.fs, n);
    TopsInTree(s.fs);
    AgreeMarks(s, {}, Stale(x));
    RelinkMoves(s.fs, n, dest);
    forall m
      ensures m in Tree(t.fs) <==> m in Tree(s.fs)
      ensures m in Tree(s.fs) ==> Tree(t.fs)[m] == Tree(s.fs)[m]
    {
    }
    assert Tree(t.fs) == Tree(s.fs);
    assert Tops(t.fs) == Tops(s.fs);
    RootsStayOk(s.fs, t.fs, s.roots);
    assert t.pending == GoneEvents(x) + [];
    TailSettles(t, w, {}, x, []);
  }

  lemma InEvents(s: Sys, n: Dir, dest: Link, x: Option<int>, cookie: int)
    requires Ready(s, n, dest, x)
    requires dest.In? && dest.parent in Tree(s.fs) && (n !in Tree(s.fs) || n in Tops(s.fs))
    ensures dest.parent in s.marks && (n in Tree(s.fs) <==> n in s.marks)
    ensures var to := Event(s.marks[dest.parent].wd, MovedTo, true, cookie, dest.name);
      Renamed(s, n, dest, x, cookie).pending ==
        (if n in s.marks then [to] + ([Event(s.marks[n].wd, MoveSelf, true, 0, "")] + GoneEvents(x))
         else [to] + GoneEvents(x))
  {
    hide Valid, Tree, RootsOk, SlotsOk, Entries, Agree, AtOrBelow, Relink, Under, Free;
    ParentInTree(s.fs, n);
    TopsInTree(s.fs);
    AgreeMarks(s, {}, Stale(x));
  }

  lemma InInv(s: Sys, n: Dir, dest: Link, x: Option<int>, cookie: int)
    requires Ready(s, n, dest, x) && n !in Tree(s.fs)
    requires dest.In? && dest.parent in Tree(s.fs)
    ensures var t := Renamed(s, n, dest, x, cookie);
      && n in Tree(t.fs) && Subtree(t.fs, n) == Subtree(s.fs, n) && Inv(t, Subtree(s.fs, n), Stale(x))
      && n !in t.marks
      && (x.Some? ==> x.value in Entries(t.cache) && NotTop(t, x.value) && Entries(t.cache)[x.value] == Tree(t.fs)[n])
  {
    hide Valid, Tree, Tops, Subtree, RootsOk, SlotsOk, Entries, AtOrBelow, Relink, CanRelink, RenameEvents, MarksOk,
         WatchedWds;
    var t := Renamed(s, n, dest, x, cookie);
    RelinkMoves(s.fs, n, dest);
    TopsInTree(s.fs);
    RootsStayOk(s.fs, t.fs, s.roots);
    forall m
      ensures m in Tree(t.fs) && m !in Subtree(s.fs, n) <==> m in Tree(s.fs)
    {
    }
    assert Tree(t.fs).Keys - Subtree(s.fs, n) == Tree(s.fs).Keys;
    assert Tops(t.fs) == Tops(s.fs);
  }

  /** A rename into the monitored trees. When it replaces a watched directory, that directory's
      pathname is still cached, so the program takes the subtree for known and never watches it. */
  lemma RenameIn(s: Sys, w: Walker, n: Dir, dest: Link, x: Option<int>, cookie: int)
    requires Ready(s, n, dest, x) && n !in Tree(s.fs) && IsWalker(w)
    requires dest.In? && dest.parent in Tree(s.fs)
    ensures Settled(Settle(Renamed(s, n, dest, x, cookie), w), if x.Some? then Subtree(s.fs, n) else {})
    ensures SameWatches(s.marks, Settle(Renamed(s, n, dest, x, cookie), w).marks)
  {
    hide Valid, Tree, Tops, Subtree, RootsOk, SlotsOk, Entries, Agree, AtOrBelow, Relink, CanRelink, RenameEvents,
         Moves, Inv,
         Next, Settle, NotTop, Known, PathAt, HasPath, WatchEach, IsWalker, Join, Settled, GoneEvents, IsRoot;
    var t := Renamed(s, n, dest, x, cookie);
    InInv(s, n, dest, x, cookie);
    InEvents(s, n, dest, x, cookie);
    RelinkMoves(s.fs, n, dest);
    CachedPath(s, {}, Stale(x), dest.parent);
    NextEntry(t, w);
    OneStep(t, w);
    var u := t.(pending := t.pending[1..]);
    InvIgnoresPending(t, u, Subtree(s.fs, n), Stale(x));
    if x.Some? {
      EntryHasPath(t, x.value);
      TailSettles(u, w, Subtree(s.fs, n), x, []);
    } else {
      NotCached(t, Subtree(s.fs, n), n);
      WatchMissing(u, w, n, Subtree(s.fs, n));
      WatchEachAdds(u, w(u.fs, Tree(u.fs)[n]));
      TailSettles(Next(t, w), w, {}, x, []);
    }
  }

  lemma InvIgnoresPending(s: Sys, u: Sys, miss: set<Dir>, stale: set<int>)
    requires Inv(s, miss, stale) && u == s.(pending := u.pending)
    ensures Inv(u, miss, stale)
    ensures forall x :: NotTop(s, x) ==> NotTop(u, x)
  {
    hide Tree, Tops, Entries;
  }

  lemma EntryHasPath(s: Sys, x: int)
    requires x in Entries(s.cache)
    ensures HasPath(s.cache, Entries(s.cache)[x])
  {
  }

  /** A root moved into another monitored tree: the walk finds every directory watched already,
      then the root's own event zaps them all. */
  lemma RootInto(s: Sys, w: Walker, n: Dir, dest: Link, x: Option<int>, cookie: int)
    requires Ready(s, n, dest, x) && n in Tops(s.fs) && n in Tree(s.fs) && IsWalker(w)
    requires dest.In? && dest.parent in Tree(s.fs)
    ensures Settled(Settle(Renamed(s, n, dest, x, cookie), w), Subtree(s.fs, n))
    ensures SameWatches(s.marks, Settle(Renamed(s, n, dest, x, cookie), w).marks)
    ensures Strikes(s, n, x, Settle(Renamed(s, n, dest, x, cookie), w))
  {
    hide Valid, Tree, Tops, Subtree, RootsOk, SlotsOk, Entries, Agree, AtOrBelow, Relink, CanRelink, RenameEvents,
         Moves, Inv,
         Next, Settle, NotTop, Known, PathAt, HasPath, WatchEach, IsWalker, Join, Settled, GoneEvents, Departed,
         IsRoot;
    var t := Renamed(s, n, dest, x, cookie);
    InEvents(s, n, dest, x, cookie);
    RelinkMoves(s.fs, n, dest);
    CachedPath(s, {}, Stale(x), dest.parent);
    NextEntry(t, w);
    OneStep(t, w);
    RenamedDeparts(s, n, dest, x, cookie);
    var u := t.(pending := t.pending[1..]);
    DepartedIgnoresPending(s, t, u, n, x);
    WalkDeparted(s, u, w, n, x);
    WatchEachAdds(u, w(u.fs, Tree(u.fs)[n]));
    assert u.pending == [Event(s.marks[n].wd, MoveSelf, true, 0, "")] + GoneEvents(x);
    MoveSelfSettles(s, Next(t, w), w, n, x);
  }

  lemma DepartedIgnoresPending(s: Sys, t: Sys, u: Sys, n: Dir, x: Option<int>)
    requires Departed(s, t, n, x) && u == t.(pending := u.pending)
    ensures Departed(s, u, n, x)
  {
    hide Valid, Tree, Tops, Subtree, Inv, Moves;
  }

  lemma WalkDeparted(s: Sys, u: Sys, w: Walker, n: Dir, x: Option<int>)
    requires Departed(s, u, n, x) && n in Tree(u.fs) && IsWalker(w) && u.marks == s.marks
    requires Subtree(u.fs, n) == Subtree(s.fs, n)
    ensures Departed(s, WatchSubtree(u, w, Tree(u.fs)[n]), n, x)
    ensures WatchSubtree(u, w, Tree(u.fs)[n]).pending == u.pending
  {
    hide Valid, Tree, Tops, Subtree, RootsOk, SlotsOk, Entries, Agree, AtOrBelow, Remasked, WatchEach, NotTop, Known;
    TreeBelow(u.fs, n);
    AgreeMarks(s, {}, Stale(x));
    var order := w(u.fs, Tree(u.fs)[n]);
    assert Visits(order, u.fs, Tree(u.fs)[n]);
    forall d | d in order
      ensures d in Subtree(s.fs, n) && d in u.marks && Known(u.cache, u.marks[d].wd)
    {
      CachedPath(s, {}, Stale(x), d);
    }
    WatchEachKnown(u, order, Subtree(s.fs, n));
  }

  // ---- one operation ----

  function VictimWd(marks: Marks, op: Op): Option<int>
    requires op.RenameOp?
  {
    if op.victim.Some? && op.victim.value in marks then Some(marks[op.victim.value].wd) else None
  }

  ghost function ClearedSys(s: Sys, op: Op): Sys
    requires op.RenameOp?
  {
    s.(fs := Cleared(s.fs, op.victim), marks := NewMarks(s.marks, op))
  }

  /** The replaced directory is not part of what moves, nor is it anyone's parent; if it is a root, the
      new place is not monitored. */
  lemma VictimApart(fs: Forest, op: Op)
    requires Valid(fs) && op.RenameOp? && op.victim.Some? && Enabled(fs, op)
    ensures var v := op.victim.value;
      && v !in Subtree(fs, op.n) && v != op.n && v in fs.up
      && op.dest.In? && op.dest.parent in fs.up && op.dest.parent != v
      && (fs.up[op.n].In? ==> fs.up[op.n].parent != v)
      && (v in Tree(fs) && v !in Tops(fs) <==> op.dest.parent in Tree(fs))
      && (op.dest.parent in Tree(fs) ==> Tree(fs)[v] == Join(Tree(fs)[op.dest.parent], op.dest.name))
  {
    hide RootsDisjoint, SiblingsDiffer;
    var v := op.victim.value;
    ParentInTree(fs, v);
    VictimOutside(fs, op);
    UnderIsWithin(fs, v, op.n);
    if fs.up[v].Root? {
      assert fs.up[v].place.Some?;
    }
  }

  lemma ClearedActs(s: Sys, op: Op)
    requires Coherent(s) && op.RenameOp? && Enabled(s.fs, op) && !AboveRoot(s.fs, op.n)
    ensures Valid(ClearedSys(s, op).fs) && CanRelink(ClearedSys(s, op).fs, op.n, op.dest)
    ensures Act(s, op) == Renamed(ClearedSys(s, op), op.n, op.dest, VictimWd(s.marks, op), op.cookie)
  {
    hide Valid, Tree, Tops, Subtree, RootsOk, SlotsOk, Entries, Agree, CanRelink, Relink, Under, Free, Childless,
         Within, AboveRoot, Ground, Uprooted;
    GroundOk(s.fs, op);
    if op.victim.Some? {
      VictimApart(s.fs, op);
    }
  }

  lemma ClearedReady(s: Sys, op: Op)
    requires Coherent(s) && !s.exited && op.RenameOp? && op.victim.Some? && Enabled(s.fs, op)
    requires !AboveRoot(s.fs, op.n)
    ensures Ready(ClearedSys(s, op), op.n, op.dest, VictimWd(s.marks, op))
    ensures Valid(ClearedSys(s, op).fs) && Tree(ClearedSys(s, op).fs) == Tree(s.fs) - {op.victim.value}
    ensures Tops(ClearedSys(s, op).fs) == Tops(s.fs) - {op.victim.value}
    ensures Subtree(ClearedSys(s, op).fs, op.n) == Subtree(s.fs, op.n)
  {
    hide Valid, Tree, Tops, Subtree, RootsOk, SlotsOk, Entries, Agree, CanRelink, Under, Free, Childless, AtOrBelow,
         Rmdir,
         Within, AboveRoot, Ground, Uprooted;
    var c, v, n := ClearedSys(s, op), op.victim.value, op.n;
    GroundOk(s.fs, op);
    VictimApart(s.fs, op);
    RmdirTree(s.fs, v);
    TopsInTree(s.fs);
    AgreeMarks(s, {}, {});
    TreeInjective(s.fs);
    RootsStayOk(s.fs, c.fs, s.roots);
    if n in Tree(s.fs) {
      TreeBelow(s.fs, n);
    }
    if v in Tree(s.fs) {
      AgreeAfterDelete(Tree(s.fs), Tops(s.fs), s.marks, s.nextWd, Entries(s.cache), v);
    } else {
      assert Tops(s.fs) - {v} == Tops(s.fs);
      assert Tree(s.fs) - {v} == Tree(s.fs) && s.marks - {v} == s.marks;
    }
  }

  /** The rename moves a directory that a root lies below. */
  ghost predicate Uproots(fs: Forest, op: Op)
    requires Valid(fs)
  {
    op.RenameOp? && AboveRoot(fs, op.n)
  }

  /** A directory from outside replaces one inside, or a root is moved into another monitored tree. */
  ghost predicate Loses(fs: Forest, op: Op)
    requires Valid(fs)
  {
    && op.RenameOp? && op.dest.In? && op.dest.parent in Tree(fs)
    && (if op.n in Tree(fs) then op.n in Tops(fs) else op.victim.Some?)
  }

  /** The renames that the program mishandles. */
  ghost predicate Misses(fs: Forest, op: Op)
    requires Valid(fs)
  {
    Uproots(fs, op) || Loses(fs, op)
  }

  /** The roots that are gone are not on the list any more. */
  ghost predicate GoneStruck(s: Sys, t: Sys)
    requires Valid(s.fs)
  {
    forall r :: r in Tops(s.fs) && r !in Tops(t.fs) ==> r in Tree(s.fs) && !IsRoot(t.roots, Tree(s.fs)[r])
  }

  lemma RenameSettles(s: Sys, op: Op, w: Walker)
    requires Coherent(s) && !s.exited && op.RenameOp? && Enabled(s.fs, op) && !Uproots(s.fs, op) && IsWalker(w)
    ensures Settled(Settle(Act(s, op), w), if Loses(s.fs, op) then Subtree(s.fs, op.n) else {})
    ensures SameWatches(NewMarks(s.marks, op), Settle(Act(s, op), w).marks) && GoneStruck(s, Settle(Act(s, op), w))
  {
    hide Valid, Tree, Tops, Subtree, RootsOk, SlotsOk, Entries, Agree, CanRelink, Relink, Under, Free, Childless,
         AtOrBelow, IsRoot, Strikes, GoneStruck,
         Settle, Settled, Ready, Act, Renamed, IsWalker, Rmdir, NotTop, Within, AboveRoot;
    var c, x := ClearedSys(s, op), VictimWd(s.marks, op);
    ClearedActs(s, op);
    AgreeMarks(s, {}, {});
    TopsInTree(s.fs);
    if op.victim.Some? {
      ClearedReady(s, op);
      VictimApart(s.fs, op);
    } else {
      PlainReady(s, op);
    }
    assert op.dest.In? && op.dest.parent in Tree(s.fs) ==> (x.Some? <==> op.victim.Some?);
    var t := Settle(Act(s, op), w);
    if op.dest.In? && op.dest.parent in Tree(c.fs) {
      if op.n !in Tree(c.fs) {
        RenameIn(c, w, op.n, op.dest, x, op.cookie);
      } else if op.n in Tops(c.fs) {
        RootInto(c, w, op.n, op.dest, x, op.cookie);
      } else {
        RenameInside(c, w, op.n, op.dest, x, op.cookie);
      }
    } else if op.n in Tree(c.fs) {
      RenameOut(c, w, op.n, op.dest, x, op.cookie);
    } else {
      RenameElsewhere(c, w, op.n, op.dest, x, op.cookie);
    }
    RenamedTree(c, op.n, op.dest, x, op.cookie);
    RenameStrikes(s, op, t);
  }

  lemma RenamedTree(s: Sys, n: Dir, dest: Link, x: Option<int>, cookie: int)
    requires Valid(s.fs) && CanRelink(s.fs, n, dest)
    ensures Renamed(s, n, dest, x, cookie).fs == Relink(s.fs, n, dest)
  {
  }

  /** Only the moved and the replaced directory can be roots that are gone. */
  lemma RenameStrikes(s: Sys, op: Op, t: Sys)
    requires Coherent(s) && !s.exited && op.RenameOp? && Enabled(s.fs, op) && !Uproots(s.fs, op)
    requires Valid(ClearedSys(s, op).fs) && CanRelink(ClearedSys(s, op).fs, op.n, op.dest)
    requires t.fs == Relink(ClearedSys(s, op).fs, op.n, op.dest)
    requires
      || (op.dest.In? && op.dest.parent in Tree(s.fs) && op.n !in Tops(s.fs))
      || Strikes(ClearedSys(s, op), op.n, VictimWd(s.marks, op), t)
    ensures GoneStruck(s, t)
  {
    hide Valid, Tree, Tops, Subtree, RootsOk, SlotsOk, Entries, Agree, CanRelink, Relink, Under, Free, Childless,
         AtOrBelow, IsRoot, Ready, Rmdir, NotTop, Within, AboveRoot, MarksOk;
    var c, n := ClearedSys(s, op), op.n;
    TopsInTree(s.fs);
    RelinkTree(c.fs, n, op.dest);
    AgreeMarks(s, {}, {});
    if op.victim.Some? {
      ClearedReady(s, op);
      VictimApart(s.fs, op);
      var v := op.victim.value;
      if v in Tops(s.fs) {
        CachedTruth(s, v);
      }
    } else {
      PlainReady(s, op);
    }
  }

  lemma PlainReady(s: Sys, op: Op)
    requires Coherent(s) && !s.exited && op.RenameOp? && op.victim.None? && Enabled(s.fs, op)
    requires !AboveRoot(s.fs, op.n)
    ensures ClearedSys(s, op) == s && VictimWd(s.marks, op) == None && Ready(s, op.n, op.dest, None)
  {
    hide Valid, Tree, Tops, RootsOk, SlotsOk, Entries, Agree, Under, Free, Within, AboveRoot, Ground, Uprooted,
         CanRelink;
    GroundOk(s.fs, op);
  }

  /** The directories that the cache is left without once the events of `op` are processed. */
  ghost function Lost(fs: Forest, op: Op): set<Dir>
    requires Valid(fs)
  {
    if Loses(fs, op) then Subtree(fs, op.n) else {}
  }

  /** Unless a directory above a root is renamed, after the events of an operation have been processed
      the cache is right about everything except, for the renames that lose it, the moved subtree; and
      the program has exited only if no root is left to monitor. */
  lemma OperationSettles(s: Sys, op: Op, w: Walker)
    requires Coherent(s) && !s.exited && Enabled(s.fs, op) && !Uproots(s.fs, op) && IsWalker(w)
    ensures Settled(Settle(Act(s, op), w), Lost(s.fs, op)) && GoneStruck(s, Settle(Act(s, op), w))
    ensures (op.FileOps? ==> AllKnown(Act(s, op))) ==> SameWatches(NewMarks(s.marks, op), Settle(Act(s, op), w).marks)
    ensures !NoneListed(s.roots) ==> (Settle(Act(s, op), w).exited <==> NoneListed(Settle(Act(s, op), w).roots))
  {
    ActAwake(s, op, w);
    hide Valid, Tree, Tops, Subtree, RootsOk, SlotsOk, Entries, Agree, Enabled, Settle, IsWalker, AboveRoot,
         GoneStruck, Settled;
    match op
    case MkdirOp(_, _, _) =>
      MkdirSettles(s, op, w);
      NoneGone(s, op, Settle(Act(s, op), w));
    case RmdirOp(_) =>
      RmdirSettles(s, op, w);
      RmdirStrikes(s, op, Settle(Act(s, op), w));
    case RenameOp(_, _, _, _) => RenameSettles(s, op, w);
    case FileOps(evs) =>
      FileOpsSettle(s, op, w);
      NoneGone(s, op, Settle(Act(s, op), w));
  }

  lemma ActAwake(s: Sys, op: Op, w: Walker)
    requires Valid(s.fs) && !s.exited && Enabled(s.fs, op)
    ensures !NoneListed(s.roots) ==> (Settle(Act(s, op), w).exited <==> NoneListed(Settle(Act(s, op), w).roots))
  {
    hide Valid, Enabled, Settle, NoneListed, NewForest, NewMarks, EventsOf;
    if !NoneListed(s.roots) {
      SettleAwake(Act(s, op), w);
    }
  }

  lemma NoneGone(s: Sys, op: Op, t: Sys)
    requires Valid(s.fs) && (op.MkdirOp? || op.FileOps?) && Enabled(s.fs, op) && t.fs == NewForest(s.fs, op)
    ensures GoneStruck(s, t)
  {
    hide Valid, Tree, Tops, IsRoot, Mkdir, Free;
    if op.MkdirOp? {
      MkdirTree(s.fs, op.parent, op.name, op.n);
    }
  }

  lemma RmdirStrikes(s: Sys, op: Op, t: Sys)
    requires Coherent(s) && op.RmdirOp? && Enabled(s.fs, op) && t.fs == Rmdir(s.fs, op.n)
    requires op.n in Tree(s.fs) ==> !IsRoot(t.roots, Tree(s.fs)[op.n])
    ensures GoneStruck(s, t)
  {
    hide Valid, Tree, Tops, RootsOk, SlotsOk, Entries, Agree, Childless, Rmdir, IsRoot;
    RmdirTree(s.fs, op.n);
    TopsInTree(s.fs);
  }

  lemma FileOpsSettle(s: Sys, op: Op, w: Walker)
    requires Coherent(s) && !s.exited && op.FileOps? && Enabled(s.fs, op) && IsWalker(w)
    ensures Settled(Settle(Act(s, op), w), {})
    ensures AllKnown(Act(s, op)) ==> Settle(Act(s, op), w).marks == s.marks
  {
    hide Valid, Tree, Tops, RootsOk, SlotsOk, Entries, Agree, Settle, IsWalker, AllKnown;
    FilesSettle(Act(s, op), w);
  }

  /** Exactly when an operation leaves the program running with a coherent cache, or exiting for
      want of roots: when it is none of those renames. */
  lemma CoherentIff(s: Sys, op: Op, w: Walker)
    requires Coherent(s) && !s.exited && Enabled(s.fs, op) && IsWalker(w)
    ensures var t := Settle(Act(s, op), w);
      && (t.exited || Coherent(t) <==> !Misses(s.fs, op))
      && (t.exited ==> Tops(t.fs) == {})
      && (!NoneListed(s.roots) ==> (t.exited <==> NoneListed(t.roots)))
  {
    hide Tree, Tops, Subtree, RootsOk, SlotsOk, Entries, Agree, Enabled, Settle, IsWalker, Relink, AboveRoot, Retains,
         Valid, Inv, Act, NoneListed;
    CoherentValid(s);
    ActAwake(s, op, w);
    if Uproots(s.fs, op) {
      AncestorMoved(s, op, w);
      AncestorIncoherent(s, op, Settle(Act(s, op), w));
      RetainsSound(s, Settle(Act(s, op), w), op.victim);
    } else {
      OperationSettles(s, op, w);
      if Loses(s.fs, op) {
        LostIsNotCoherent(s, op, w);
      }
    }
  }

  lemma LostIsNotCoherent(s: Sys, op: Op, w: Walker)
    requires Coherent(s) && Valid(s.fs) && !s.exited && op.RenameOp? && Enabled(s.fs, op)
    requires !Uproots(s.fs, op) && Loses(s.fs, op)
    requires Settled(Settle(Act(s, op), w), Lost(s.fs, op))
    ensures var t := Settle(Act(s, op), w); !t.exited && !Coherent(t)
  {
    hide Tree, Tops, Subtree, RootsOk, SlotsOk, Entries, Agree, Enabled, Settle, Relink, AboveRoot, Loses, Valid;
    var t := Settle(Act(s, op), w);
    LostIsMonitored(s.fs, op);
    AgreeMarks(t, Lost(s.fs, op), {});
    assert op.n !in t.marks;
    if Inv(t, {}, {}) {
      AgreeMarks(t, {}, {});
    }
  }

  lemma NotAbove(fs: Forest, op: Op)
    requires Valid(fs) && Enabled(fs, op) && Loses(fs, op)
    ensures op.dest.parent !in Subtree(fs, op.n)
  {
    UnderIsWithin(fs, op.dest.parent, op.n);
  }

  lemma LostIsMonitored(fs: Forest, op: Op)
    requires Valid(fs) && Enabled(fs, op) && Loses(fs, op) && !Uproots(fs, op)
    ensures op.n in Lost(fs, op) && op.n in Tree(NewForest(fs, op)) && Tops(NewForest(fs, op)) != {}
  {
    hide Valid, Tree, Tops, Subtree, Relink, CanRelink, Under, Free, Childless, Rmdir, AtOrBelow, AboveRoot, Ground,
         Within;
    GroundOk(fs, op);
    SubtreeMonitored(fs, op.n);
    var r := TreeHasTop(fs, op.dest.parent);
    TreeBelow(fs, r);
    NotAbove(fs, op);
    RelinkMoves(Cleared(fs, op.victim), op.n, op.dest);
    if op.victim.Some? {
      VictimApart(fs, op);
      RmdirTree(fs, op.victim.value);
    }
    assert r in Tops(NewForest(fs, op));
  }

  // ---- the three failures, on small trees ----

  /** The state once the program has started. */
  ghost function Started(fs: Forest, roots: seq<Option<string>>, w: Walker): Sys
    requires Valid(fs)
  {
    Reinit(Sys(fs, map[], 1, [], [], roots, false), w)
  }

  /** Starting in the given tree, the operation and its events leave the program running with a cache
      that is not coherent. */
  ghost predicate GoesWrong(fs: Forest, roots: seq<Option<string>>, op: Op)
    requires Valid(fs) && Enabled(fs, op)
  {
    forall w :: IsWalker(w) ==>
      var t := Settle(Act(Started(fs, roots, w), op), w); !t.exited && !Coherent(t)
  }

  lemma MissedGoesWrong(fs: Forest, roots: seq<Option<string>>, op: Op)
    requires Valid(fs) && RootsOk(fs, roots) && Enabled(fs, op) && Misses(fs, op)
    ensures GoesWrong(fs, roots, op)
  {
    hide Valid, Tree, Tops, Inv, Enabled, Misses, Settle, IsWalker, Act, RootsOk, Reinit;
    forall w | IsWalker(w)
      ensures var t := Settle(Act(Started(fs, roots, w), op), w); !t.exited && !Coherent(t)
    {
      ReinitRestores(Sys(fs, map[], 1, [], [], roots, false), w);
      CoherentIff(Started(fs, roots, w), op, w);
    }
  }

  function TreeWithOutsider(): Forest {
    Forest(map[1 := Root("d", None), 2 := In(1, "x"), 3 := Outside], map[1 := 0, 2 := 1, 3 := 0])
  }

  /** With one root at most, and that one without a place, only links and names matter. */
  lemma OneRootForest(fs: Forest, r: Dir)
    requires LinksOk(fs.up, fs.rank) && SiblingsDiffer(fs.up)
    requires forall n :: n in fs.up && fs.up[n].Root? ==> n == r && fs.up[n].place.None?
    ensures Valid(fs)
  {
    hide AtOrBelow, PathOf, SiblingsDiffer;
  }

  lemma OutsiderLinks()
    ensures LinksOk(TreeWithOutsider().up, TreeWithOutsider().rank)
  {
    var fs := TreeWithOutsider();
    assert fs.up.Keys == {1, 2, 3} && fs.rank.Keys == {1, 2, 3};
  }

  lemma OutsiderForest()
    ensures Valid(TreeWithOutsider())
  {
    hide AtOrBelow, PathOf, LinksOk, RootsDisjoint, RootsOutside, Valid;
    OutsiderLinks();
    OneRootForest(TreeWithOutsider(), 1);
  }

  lemma OutsiderRoots()
    ensures Valid(TreeWithOutsider()) && RootsOk(TreeWithOutsider(), [Some("d")])
    ensures 1 in Tree(TreeWithOutsider()) && 3 !in Tree(TreeWithOutsider())
  {
    hide Valid;
    OutsiderForest();
    assert [Some("d")][0] == Some("d");
    TopsInTree(TreeWithOutsider());
    assert 1 in Tops(TreeWithOutsider());
  }

  /** Directory 3, from outside, replaces the empty directory d/x. */
  lemma ReplacingFromOutsideIsMissed()
    ensures var fs, op := TreeWithOutsider(), RenameOp(3, In(1, "x"), Some(2), 7);
      Valid(fs) && Enabled(fs, op) && GoesWrong(fs, [Some("d")], op)
  {
    hide Valid, RootsOk, Tree, Tops, GoesWrong;
    OutsiderRoots();
    MissedGoesWrong(TreeWithOutsider(), [Some("d")], RenameOp(3, In(1, "x"), Some(2), 7));
  }

  function TwoRoots(): Forest {
    Forest(map[1 := Root("d", None), 2 := Root("e", None)], map[1 := 0, 2 := 0])
  }

  lemma TwoRootsLinks()
    ensures LinksOk(TwoRoots().up, TwoRoots().rank)
  {
    assert TwoRoots().up.Keys == {1, 2} && TwoRoots().rank.Keys == {1, 2};
  }

  lemma TwoRootsDisjoint()
    ensures RootsDisjoint(TwoRoots().up)
  {
    assert "d"[0] != "e"[0];
  }

  lemma TwoRootsForest()
    ensures Valid(TwoRoots())
  {
    hide AtOrBelow, PathOf, LinksOk, RootsDisjoint;
    TwoRootsLinks();
    TwoRootsDisjoint();
  }

  lemma TwoRootsRoots()
    ensures Valid(TwoRoots()) && RootsOk(TwoRoots(), [Some("d"), Some("e")])
    ensures 1 in Tree(TwoRoots()) && 2 in Tree(TwoRoots()) && 2 in Tops(TwoRoots())
  {
    hide Valid;
    TwoRootsForest();
    TopsInTree(TwoRoots());
    assert 1 in Tops(TwoRoots()) && 2 in Tops(TwoRoots());
    assert "d"[0] != "e"[0];
    assert [Some("d"), Some("e")][0] == Some("d") && [Some("d"), Some("e")][1] == Some("e");
  }

  /** Root e moves into root d. */
  lemma MovedRootIsMissed()
    ensures var fs, op := TwoRoots(), RenameOp(2, In(1, "x"), None, 7);
      Valid(fs) && Enabled(fs, op) && GoesWrong(fs, [Some("d"), Some("e")], op)
  {
    hide Valid, RootsOk, Tree, Tops, GoesWrong;
    TwoRootsRoots();
    MissedGoesWrong(TwoRoots(), [Some("d"), Some("e")], RenameOp(2, In(1, "x"), None, 7));
  }

  function RootInDirectory(): Forest {
    Forest(map[1 := Root("a/d", Some(Place(2, "d"))), 2 := Outside], map[1 := 1, 2 := 0])
  }

  lemma RootInDirectoryLinks()
    ensures LinksOk(RootInDirectory().up, RootInDirectory().rank)
  {
    assert RootInDirectory().up.Keys == {1, 2} && RootInDirectory().rank.Keys == {1, 2};
  }

  lemma RootInDirectoryPath()
    ensures LinksOk(RootInDirectory().up, RootInDirectory().rank) && PathOf(RootInDirectory(), 2).None?
  {
    RootInDirectoryLinks();
    hide LinksOk;
  }

  lemma RootInDirectoryForest()
    ensures Valid(RootInDirectory())
  {
    hide AtOrBelow, PathOf, LinksOk;
    RootInDirectoryPath();
  }

  lemma RootInDirectoryBelow()
    ensures Valid(RootInDirectory()) && AboveRoot(RootInDirectory(), 2)
  {
    RootInDirectoryForest();
    hide SiblingsDiffer, RootsDisjoint, RootsOutside;
    assert RootBelow(RootInDirectory(), 1, 2);
  }

  lemma RootInDirectoryRoots()
    ensures Valid(RootInDirectory()) && RootsOk(RootInDirectory(), [Some("a/d")])
  {
    hide Valid;
    RootInDirectoryForest();
    assert [Some("a/d")][0] == Some("a/d");
    TopsInTree(RootInDirectory());
  }

  /** Directory a is renamed, and root a/d lies in it. */
  lemma MovedAncestorIsMissed()
    ensures var fs, op := RootInDirectory(), RenameOp(2, Outside, None, 7);
      Valid(fs) && Enabled(fs, op) && GoesWrong(fs, [Some("a/d")], op)
  {
    hide Valid, RootsOk, Tree, Tops, GoesWrong, AboveRoot;
    RootInDirectoryRoots();
    RootInDirectoryBelow();
    MissedGoesWrong(RootInDirectory(), [Some("a/d")], RenameOp(2, Outside, None, 7));
  }
}
