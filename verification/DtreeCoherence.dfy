/** The cache of inotify_dtree.c agrees with the directory tree after every operation whose
    events have been processed, and exactly when it does not. */
module DtreeCoherence {
  import opened Common
  import opened Paths
  import opened DirForest
  import opened Inotify
  import opened SlotCache
  import opened DtreeSpec

  /** Every live root is still on the program's list, and no listed pathname lies at or below
      another one. */
  ghost predicate RootsOk(fs: Forest, roots: seq<Option<string>>)
    requires Valid(fs)
  {
    && (forall n :: n in Tops(fs) ==> n in Tree(fs) && IsRoot(roots, Tree(fs)[n]))
    && (forall i, j :: 0 <= i < |roots| && 0 <= j < |roots| && i != j && roots[i].Some? && roots[j].Some? ==>
          !AtOrBelow(roots[i].value, roots[j].value))
  }

  /** With the true pathnames `tree` and the roots `tops`: the kernel watches exactly the
      monitored directories outside `miss`, the roots also for being moved themselves; and the
      cached pairs `e` are the watched directories' descriptors with their true pathnames,
      besides descriptors in `stale`, which the kernel has dropped. */
  ghost predicate Agree(tree: map<Dir, string>, tops: set<Dir>, marks: Marks, nextWd: int,
                        e: map<int, string>, miss: set<Dir>, stale: set<int>) {
    && MarksOk(marks, nextWd) && nextWd >= 1
    && marks.Keys == tree.Keys - miss
    && (forall n :: n in marks ==> (marks[n].moveSelf <==> n in tops))
    && (forall n :: n in marks ==> marks[n].wd in e && e[marks[n].wd] == tree[n])
    && e.Keys == WatchedWds(marks) + stale
    && stale !! WatchedWds(marks)
    && (forall x :: x in stale ==> 1 <= x < nextWd)
  }

  ghost predicate Inv(s: Sys, miss: set<Dir>, stale: set<int>) {
    && Valid(s.fs) && RootsOk(s.fs, s.roots) && SlotsOk(s.cache)
    && Agree(Tree(s.fs), Tops(s.fs), s.marks, s.nextWd, Entries(s.cache), miss, stale)
  }

  /** Nothing is pending, the kernel watches exactly the directories under live roots, and the
      used slots are exactly their (descriptor, pathname) pairs. */
  ghost predicate Coherent(s: Sys) {
    Inv(s, {}, {}) && s.pending == []
  }

  // ---- roots ----

  /** Only a root's pathname is on the list. */
  lemma RootPathIsRoot(fs: Forest, roots: seq<Option<string>>, n: Dir)
    requires Valid(fs) && RootsOk(fs, roots) && n in Tree(fs)
    ensures IsRoot(roots, Tree(fs)[n]) <==> n in Tops(fs)
  {
    var r := TreeHasTop(fs, n);
    TreeInjective(fs);
    hide Valid, Tree, Tops;
    var p := Tree(fs)[n];
    var j :| 0 <= j < |roots| && roots[j] == Some(Tree(fs)[r]);
    if IsRoot(roots, p) {
      var i :| 0 <= i < |roots| && roots[i] == Some(p);
      assert i == j;
    }
  }

  /** No pathname is left on the list. */
  predicate NoneListed(roots: seq<Option<string>>) {
    forall j :: 0 <= j < |roots| ==> roots[j].None?
  }

  /** Zapping a pathname strikes it off, and no other. */
  lemma ZapRootExact(s: Sys, p: string)
    requires Valid(s.fs) && RootsOk(s.fs, s.roots) && IsRoot(s.roots, p)
    ensures forall q :: IsRoot(ZapRoot(s, p).roots, q) <==> IsRoot(s.roots, q) && q != p
    ensures ZapRoot(s, p).exited <==> NoneListed(ZapRoot(s, p).roots)
  {
    hide Valid, Tree, Tops;
    var roots, j := ZapRoot(s, p).roots, FirstRoot(s.roots, p);
    forall q
      ensures IsRoot(roots, q) <==> IsRoot(s.roots, q) && q != p
    {
      if IsRoot(s.roots, q) && q != p {
        var i :| 0 <= i < |s.roots| && s.roots[i] == Some(q);
        assert roots[i] == Some(q);
      }
      if IsRoot(roots, q) {
        var i :| 0 <= i < |roots| && roots[i] == Some(q);
        assert i != j && s.roots[i] == Some(q);
      }
    }
  }

  /** Zapping the pathname of a root that is gone keeps the list right; the program exits only
      when no monitored root is left. */
  lemma ZapRootOk(s: Sys, p: string)
    requires Valid(s.fs) && RootsOk(s.fs, s.roots) && IsRoot(s.roots, p)
    requires forall n :: n in Tops(s.fs) ==> Tree(s.fs)[n] != p
    ensures RootsOk(s.fs, ZapRoot(s, p).roots)
    ensures ZapRoot(s, p).exited ==> Tops(s.fs) == {}
  {
    hide Valid, Tree, Tops;
    var roots := ZapRoot(s, p).roots;
    forall n | n in Tops(s.fs)
      ensures IsRoot(roots, Tree(s.fs)[n])
    {
      var q := Tree(s.fs)[n];
      var i :| 0 <= i < |s.roots| && s.roots[i] == Some(q);
      assert roots[i] == Some(q);
    }
  }

  // ---- watching ----

  lemma MarkAgain(tree: map<Dir, string>, tops: set<Dir>, marks: Marks, nextWd: int,
                  e: map<int, string>, miss: set<Dir>, stale: set<int>, n: Dir)
    requires Agree(tree, tops, marks, nextWd, e, miss, stale) && n in marks
    ensures Agree(tree, tops, marks[n := Mark(marks[n].wd, n in tops)], nextWd, e, miss - {n}, stale)
  {
    var marks' := marks[n := Mark(marks[n].wd, n in tops)];
    assert forall m :: m in marks ==> marks'[m].wd == marks[m].wd;
    assert forall x :: x in WatchedWds(marks) ==> x in WatchedWds(marks');
    assert WatchedWds(marks') == WatchedWds(marks);
  }

  lemma MarkNew(tree: map<Dir, string>, tops: set<Dir>, marks: Marks, nextWd: int,
                e: map<int, string>, miss: set<Dir>, stale: set<int>, n: Dir)
    requires Agree(tree, tops, marks, nextWd, e, miss, stale) && n in tree && n !in marks
    ensures nextWd !in e
    ensures Agree(tree, tops, marks[n := Mark(nextWd, n in tops)], nextWd + 1,
                  e[nextWd := tree[n]], miss - {n}, stale)
  {
    var marks' := marks[n := Mark(nextWd, n in tops)];
    assert marks'[n].wd == nextWd;
    assert forall m :: m in marks ==> m in marks' && marks'[m] == marks[m];
    assert WatchedWds(marks') == WatchedWds(marks) + {nextWd};
  }

  lemma WatchOneInv(s: Sys, n: Dir, miss: set<Dir>, stale: set<int>)
    requires Inv(s, miss, stale)
    ensures Inv(WatchOne(s, n), miss - {n}, stale)
  {
    hide Valid, RootsOk, Tree, Tops, SlotsOk, IsRoot, Entries, FirstWith, Added;
    if n in Tree(s.fs) {
      RootPathIsRoot(s.fs, s.roots, n);
      if n in s.marks {
        EntryIsSlot(s.cache, s.marks[n].wd);
        MarkAgain(Tree(s.fs), Tops(s.fs), s.marks, s.nextWd, Entries(s.cache), miss, stale, n);
      } else {
        MarkNew(Tree(s.fs), Tops(s.fs), s.marks, s.nextWd, Entries(s.cache), miss, stale, n);
        EntryIsSlot(s.cache, s.nextWd);
        AddRefines(s.cache, s.nextWd, Tree(s.fs)[n]);
      }
    } else {
      assert Tree(s.fs).Keys - miss == Tree(s.fs).Keys - (miss - {n});
    }
  }

  lemma MissLess(order: seq<Dir>, miss: set<Dir>)
    ensures miss - (set n | n in order) ==
            if order == [] then miss else miss - {order[0]} - (set n | n in order[1..])
  {
    assert order != [] ==> order == [order[0]] + order[1..];
  }

  lemma {:induction false} WatchEachInv(s: Sys, order: seq<Dir>, miss: set<Dir>, stale: set<int>)
    requires Inv(s, miss, stale)
    ensures Inv(WatchEach(s, order), miss - (set n | n in order), stale)
    decreases |order|
  {
    assert Valid(s.fs);
    hide Inv, WatchOne, Valid;
    MissLess(order, miss);
    if order != [] {
      WatchOneInv(s, order[0], miss, stale);
      WatchEachInv(WatchOne(s, order[0]), order[1..], miss - {order[0]}, stale);
    }
  }

  ghost function NotBelow(tree: map<Dir, string>, miss: set<Dir>, p: string): set<Dir> {
    set n | n in miss && !(n in tree && AtOrBelow(tree[n], p))
  }

  lemma VisitsCover(order: seq<Dir>, fs: Forest, p: string, miss: set<Dir>)
    requires Valid(fs) && Visits(order, fs, p)
    ensures miss - (set n | n in order) == NotBelow(Tree(fs), miss, p)
  {
    hide Valid, Tree, AtOrBelow, NoDup;
    var tree := Tree(fs);
    forall n
      ensures n in miss - (set k | k in order) <==> n in NotBelow(tree, miss, p)
    {
      assert n in order <==> n in tree && AtOrBelow(tree[n], p);
    }
  }

  /** Watching the subtree at `p` supplies everything that was missing there. */
  lemma WatchSubtreeInv(s: Sys, w: Walker, p: string, miss: set<Dir>, stale: set<int>)
    requires Inv(s, miss, stale) && IsWalker(w)
    ensures Inv(WatchSubtree(s, w, p), NotBelow(Tree(s.fs), miss, p), stale)
  {
    assert Valid(s.fs);
    var order := w(s.fs, p);
    hide Inv, Valid, Tree, WatchEach, AtOrBelow, Visits, NotBelow;
    VisitsCover(order, s.fs, p, miss);
    WatchEachInv(s, order, miss, stale);
  }

  // ---- starting afresh ----

  ghost predicate RootAhead(tree: map<Dir, string>, tops: set<Dir>, roots: seq<Option<string>>, n: Dir, j: nat) {
    exists k, r :: j <= k < |roots| && r in tops && r in tree && n in tree &&
                   roots[k] == Some(tree[r]) && AtOrBelow(tree[n], tree[r])
  }

  lemma NoneAhead(tree: map<Dir, string>, tops: set<Dir>, roots: seq<Option<string>>, miss: set<Dir>)
    requires forall n :: n in miss ==> RootAhead(tree, tops, roots, n, |roots|)
    ensures miss == {}
  {
    forall n
      ensures n !in miss
    {
      assert !RootAhead(tree, tops, roots, n, |roots|);
    }
  }

  lemma StillAhead(tree: map<Dir, string>, tops: set<Dir>, roots: seq<Option<string>>, miss: set<Dir>, j: nat)
    requires j < |roots| && forall n :: n in miss ==> RootAhead(tree, tops, roots, n, j)
    ensures var left := if roots[j].None? then miss else NotBelow(tree, miss, roots[j].value);
      forall n :: n in left ==> RootAhead(tree, tops, roots, n, j + 1)
  {
    hide AtOrBelow;
  }

  lemma {:induction false} WatchRootsInv(s: Sys, w: Walker, j: nat, miss: set<Dir>)
    requires Inv(s, miss, {}) && IsWalker(w) && j <= |s.roots|
    requires forall n :: n in miss ==> RootAhead(Tree(s.fs), Tops(s.fs), s.roots, n, j)
    ensures Inv(WatchRoots(s, w, j), {}, {})
    decreases |s.roots| - j
  {
    assert Valid(s.fs);
    hide Inv, Valid, Tree, Tops, IsWalker, RootAhead, NotBelow, WatchSubtree;
    if j == |s.roots| {
      NoneAhead(Tree(s.fs), Tops(s.fs), s.roots, miss);
      return;
    }
    StillAhead(Tree(s.fs), Tops(s.fs), s.roots, miss, j);
    if s.roots[j].None? {
      WatchRootsInv(s, w, j + 1, miss);
    } else {
      var p, t := s.roots[j].value, WatchSubtree(s, w, s.roots[j].value);
      WatchSubtreeInv(s, w, p, miss, {});
      WatchRootsInv(t, w, j + 1, NotBelow(Tree(s.fs), miss, p));
    }
  }

  /** Reinitializing makes the cache coherent whatever it held before, whatever the kernel
      watched and whatever was pending. */
  lemma ReinitRestores(s: Sys, w: Walker)
    requires Valid(s.fs) && RootsOk(s.fs, s.roots) && IsWalker(w)
    ensures Coherent(Reinit(s, w))
  {
    var t := s.(marks := map[], nextWd := 1, pending := [], cache := []);
    var miss := Tree(s.fs).Keys;
    forall n | n in miss
      ensures RootAhead(Tree(t.fs), Tops(t.fs), t.roots, n, 0)
    {
      var r := TreeHasTop(s.fs, n);
      var k :| 0 <= k < |s.roots| && s.roots[k] == Some(Tree(s.fs)[r]);
    }
    assert Inv(t, miss, {}) by {
      hide Valid, Tree, Tops, RootsOk;
      assert Entries(t.cache) == map[];
    }
    hide Inv, Valid, Tree, Tops, IsWalker;
    WatchRootsInv(t, w, 0, miss);
  }

  /** The two ways into it: an overflow, and an event whose descriptor is not cached. */
  lemma LostTrackRestores(s: Sys, w: Walker)
    requires Valid(s.fs) && RootsOk(s.fs, s.roots) && IsWalker(w) && s.pending != []
    requires s.pending[0].kind.Overflow? || (!s.pending[0].kind.Ignored? && !Known(s.cache, s.pending[0].wd))
    ensures Coherent(Next(s, w)) && (Next(s, w).exited <==> s.exited)
  {
    ReinitRestores(s, w);
  }
}
