/** How each operation on the directory tree, followed by the handling of its events, moves
    the agreement between tree, watches and cache. */
module DtreeSteps {
  import opened Common
  import opened Paths
  import opened DirForest
  import opened Inotify
  import opened SlotCache
  import opened DtreeSpec
  import opened DtreeCoherence

  // ---- agreement, on maps alone ----

  lemma AgreeAfterMkdir(tree: map<Dir, string>, tops: set<Dir>, marks: Marks, nextWd: int,
                        e: map<int, string>, n: Dir, p: string)
    requires Agree(tree, tops, marks, nextWd, e, {}, {}) && n !in tree
    ensures Agree(tree[n := p], tops, marks, nextWd, e, {n}, {})
  {
    assert tree[n := p].Keys - {n} == tree.Keys;
  }

  lemma RootsStayOk(fs: Forest, fs': Forest, roots: seq<Option<string>>)
    requires Valid(fs) && Valid(fs') && RootsOk(fs, roots)
    requires Tops(fs') <= Tops(fs)
    requires forall n :: n in Tops(fs') && n in Tree(fs) ==> n in Tree(fs') && Tree(fs')[n] == Tree(fs)[n]
    ensures RootsOk(fs', roots)
  {
  }

  /** A watched directory is deleted: its descriptor stays in the cache for now. */
  lemma AgreeAfterDelete(tree: map<Dir, string>, tops: set<Dir>, marks: Marks, nextWd: int,
                         e: map<int, string>, v: Dir)
    requires Agree(tree, tops, marks, nextWd, e, {}, {}) && v in marks
    ensures Agree(tree - {v}, tops - {v}, marks - {v}, nextWd, e, {}, {marks[v].wd})
    ensures e[marks[v].wd] == tree[v]
  {
    var rest := marks - {v};
    assert forall n :: n in rest ==> n in marks && rest[n] == marks[n];
    forall x | x in WatchedWds(marks)
      ensures x in WatchedWds(rest) + {marks[v].wd}
    {
      var n :| n in marks && marks[n].wd == x;
      if n != v {
        assert n in rest;
      }
    }
  }

  lemma AgreeAfterForget(tree: map<Dir, string>, tops: set<Dir>, marks: Marks, nextWd: int,
                         e: map<int, string>, miss: set<Dir>, stale: set<int>, x: int)
    requires Agree(tree, tops, marks, nextWd, e, miss, stale) && x in stale
    ensures Agree(tree, tops, marks, nextWd, e - {x}, miss, stale - {x})
  {
    forall n | n in marks
      ensures marks[n].wd in e - {x}
    {
      assert marks[n].wd in WatchedWds(marks);
    }
  }

  /** The rewrite makes every cached pathname true again after a rename inside the tree. */
  lemma AgreeAfterRewrite(tree: map<Dir, string>, tree': map<Dir, string>, tops: set<Dir>, marks: Marks,
                          nextWd: int, e: map<int, string>, stale: set<int>, n: Dir)
    requires Agree(tree, tops, marks, nextWd, e, {}, stale)
    requires tree'.Keys == tree.Keys && n in tree
    requires forall m :: m in tree && AtOrBelow(tree[m], tree[n]) ==>
               tree[n] <= tree[m] && tree'[m] == Rebase(tree[m], tree[n], tree'[n])
    requires forall m :: m in tree && !AtOrBelow(tree[m], tree[n]) ==> tree'[m] == tree[m]
    ensures Agree(tree', tops, marks, nextWd, map x | x in e :: Moved(e[x], tree[n], tree'[n]), {}, stale)
  {
  }

  /** Same descriptors on the same directories; masks may differ inside `sub`. */
  ghost predicate Remasked(marks: Marks, marks': Marks, sub: set<Dir>) {
    && marks'.Keys == marks.Keys
    && (forall n :: n in marks ==> marks'[n].wd == marks[n].wd && (n !in sub ==> marks'[n] == marks[n]))
  }

  /** The descriptors cached at or below the old place are those of the subtree. */
  lemma HitsSubtree(tree: map<Dir, string>, tops: set<Dir>, marks: Marks, nextWd: int, e: map<int, string>,
                    stale: set<int>, sub: set<Dir>, p: string)
    requires Agree(tree, tops, marks, nextWd, e, {}, stale)
    requires forall m :: m in tree ==> (AtOrBelow(tree[m], p) <==> m in sub)
    requires forall x :: x in stale ==> !AtOrBelow(e[x], p)
    ensures forall m :: m in marks ==> (marks[m].wd in Hits(e, p) <==> m in sub)
    ensures Hits(e, p) <= WatchedWds(marks)
  {
    hide AtOrBelow, MarksOk;
    forall x | x in Hits(e, p)
      ensures x in WatchedWds(marks)
    {
      assert x in e.Keys && x !in stale;
    }
  }

  /** What remains when the descriptors of a subtree go. */
  lemma LeftAfterZap(marks: Marks, marks': Marks, hits: set<int>, sub: set<Dir>)
    requires Remasked(marks, marks', sub) && hits <= WatchedWds(marks)
    requires forall m :: m in marks ==> (marks[m].wd in hits <==> m in sub)
    ensures forall m :: m in WithoutWds(marks', hits) <==> m in marks && m !in sub
    ensures forall m :: m in WithoutWds(marks', hits) ==> WithoutWds(marks', hits)[m] == marks[m]
    ensures WatchedWds(marks') == WatchedWds(marks)
    ensures WatchedWds(WithoutWds(marks', hits)) == WatchedWds(marks) - hits
  {
    var left := WithoutWds(marks', hits);
    SameWds(marks, marks');
    forall m
      ensures m in left <==> m in marks && m !in sub
      ensures m in left ==> left[m] == marks[m]
    {
    }
    forall x
      ensures x in WatchedWds(left) <==> x in WatchedWds(marks) && x !in hits
    {
      if x in WatchedWds(marks) && x !in hits {
        var m :| m in marks && marks[m].wd == x;
        assert m in left && left[m].wd == x;
      }
    }
  }

  lemma SameWds(marks: Marks, marks': Marks)
    requires marks'.Keys == marks.Keys && forall n :: n in marks ==> marks'[n].wd == marks[n].wd
    ensures WatchedWds(marks') == WatchedWds(marks)
  {
    assert forall n :: n in marks <==> n in marks';
    assert forall x :: x in WatchedWds(marks) ==> x in WatchedWds(marks');
    assert forall x :: x in WatchedWds(marks') ==> x in WatchedWds(marks);
  }

  /** Zapping a subtree that the tree no longer has at its old place leaves exactly that subtree out. */
  lemma AgreeAfterZap(tree: map<Dir, string>, tree': map<Dir, string>, tops: set<Dir>, marks: Marks, marks': Marks,
                      nextWd: int, e: map<int, string>, stale: set<int>, sub: set<Dir>, n: Dir)
    requires Agree(tree, tops, marks, nextWd, e, {}, stale) && Remasked(marks, marks', sub)
    requires n in tree && n in sub
    requires forall m :: m in tree ==> (AtOrBelow(tree[m], tree[n]) <==> m in sub)
    requires forall m :: m !in sub ==> (m in tree <==> m in tree') && (m in tree ==> tree'[m] == tree[m])
    requires forall x :: x in stale ==> !AtOrBelow(e[x], tree[n])
    ensures Hits(e, tree[n]) <= WatchedWds(marks')
    ensures Agree(tree', tops - {n}, WithoutWds(marks', Hits(e, tree[n])), nextWd, e - Hits(e, tree[n]), sub, stale)
  {
    var hits, left := Hits(e, tree[n]), WithoutWds(marks', Hits(e, tree[n]));
    hide Agree, AtOrBelow, Hits, WithoutWds, WatchedWds, Remasked;
    HitsSubtree(tree, tops, marks, nextWd, e, stale, sub, tree[n]);
    LeftAfterZap(marks, marks', hits, sub);
    AgreeOfLeft(tree, tree', tops, marks, left, nextWd, e, hits, stale, sub, n);
  }

  lemma AgreeOfLeft(tree: map<Dir, string>, tree': map<Dir, string>, tops: set<Dir>, marks: Marks, left: Marks,
                    nextWd: int, e: map<int, string>, hits: set<int>, stale: set<int>, sub: set<Dir>, n: Dir)
    requires Agree(tree, tops, marks, nextWd, e, {}, stale) && n in sub
    requires forall m :: m !in sub ==> (m in tree <==> m in tree') && (m in tree ==> tree'[m] == tree[m])
    requires forall m :: m in marks ==> (marks[m].wd in hits <==> m in sub)
    requires forall m :: m in left <==> m in marks && m !in sub
    requires forall m :: m in left ==> left[m] == marks[m]
    requires hits <= WatchedWds(marks) && WatchedWds(left) == WatchedWds(marks) - hits
    ensures Agree(tree', tops - {n}, left, nextWd, e - hits, sub, stale)
  {
    hide WatchedWds, MarksOk;
    MarksLess(marks, left, nextWd);
    KeysAfterZap(tree, tree', marks, left, sub);
    PairsAfterZap(e, hits, WatchedWds(marks), stale);
  }

  lemma KeysAfterZap(tree: map<Dir, string>, tree': map<Dir, string>, marks: Marks, left: Marks, sub: set<Dir>)
    requires marks.Keys == tree.Keys - {}
    requires forall m :: m in left <==> m in marks && m !in sub
    requires forall m :: m !in sub ==> (m in tree <==> m in tree')
    ensures left.Keys == tree'.Keys - sub
  {
    forall m
      ensures m in left.Keys <==> m in tree'.Keys - sub
    {
      assert m in marks.Keys <==> m in tree;
    }
  }

  lemma PairsAfterZap(e: map<int, string>, hits: set<int>, watched: set<int>, stale: set<int>)
    requires e.Keys == watched + stale && stale !! watched && hits <= watched
    ensures (e - hits).Keys == (watched - hits) + stale
  {
  }

  lemma MarksLess(marks: Marks, marks': Marks, nextWd: int)
    requires MarksOk(marks, nextWd) && forall r :: r in marks' ==> r in marks && marks'[r] == marks[r]
    ensures MarksOk(marks', nextWd)
  {
  }

  lemma AgreeMissNothing(tree: map<Dir, string>, tops: set<Dir>, marks: Marks, nextWd: int,
                         e: map<int, string>, miss: set<Dir>, stale: set<int>, less: set<Dir>)
    requires Agree(tree, tops, marks, nextWd, e, miss, stale)
    requires less * tree.Keys == miss * tree.Keys
    ensures Agree(tree, tops, marks, nextWd, e, less, stale)
  {
    forall m | m in tree
      ensures m in less <==> m in miss
    {
      assert m in less * tree.Keys <==> m in miss * tree.Keys;
    }
    assert tree.Keys - miss == tree.Keys - less;
  }

  // ---- handling single events ----

  /** How the monitored pathnames change when `sub`, the subtree of `n`, is moved. */
  ghost predicate Moves(tree: map<Dir, string>, tree': map<Dir, string>, tops: set<Dir>, tops': set<Dir>,
                        sub: set<Dir>, n: Dir) {
    && n in sub && tops' == tops - {n} && tops * sub <= {n}
    && (forall m :: m !in sub ==> (m in tree <==> m in tree') && (m in tree ==> tree'[m] == tree[m]))
    && (if n in tree then sub <= tree.Keys else sub !! tree.Keys)
    && (if n in tree' then sub <= tree'.Keys else sub !! tree'.Keys)
    && (n in tree ==> forall m :: m in tree ==> (AtOrBelow(tree[m], tree[n]) <==> m in sub))
    && (n in tree && n in tree' ==> forall m :: m in sub ==>
          tree[n] <= tree[m] && tree'[m] == Rebase(tree[m], tree[n], tree'[n]))
  }

  /** The cached pathname of a watched directory is the true one. */
  lemma CachedPath(s: Sys, miss: set<Dir>, stale: set<int>, n: Dir)
    requires Inv(s, miss, stale) && n in s.marks
    ensures Known(s.cache, s.marks[n].wd) && n in Tree(s.fs) && PathAt(s.cache, s.marks[n].wd) == Tree(s.fs)[n]
  {
    hide Valid, RootsOk, Tree, Tops, SlotsOk, Entries, FirstWith;
    EntryIsSlot(s.cache, s.marks[n].wd);
  }

  lemma OneStep(s: Sys, w: Walker)
    requires Valid(s.fs) && s.pending != [] && !s.exited
    ensures Settle(s, w) == Settle(Next(s, w), w)
  {
  }

  lemma SettleStops(s: Sys, w: Walker)
    requires Valid(s.fs) && (s.exited || s.pending == [])
    ensures Settle(s, w) == s
  {
  }

  lemma {:induction false} SettleQuiet(s: Sys, w: Walker)
    requires Valid(s.fs) && !s.exited && Noisy(s.pending) == 0
    ensures Settle(s, w) == s.(pending := [])
    decreases |s.pending|
  {
    hide Valid, Reinit, ZapSubtree, WatchSubtree, Rewritten, MarkEmpty, HasPath, IsRoot;
    if s.pending != [] {
      assert Next(s, w) == s.(pending := s.pending[1..]);
      SettleQuiet(s.(pending := s.pending[1..]), w);
    }
  }

  function Stale(x: Option<int>): set<int> {
    if x.Some? then {x.value} else {}
  }

  function GoneEvents(x: Option<int>): seq<Event> {
    if x.Some? then [Event(x.value, DeleteSelf, true, 0, ""), Event(x.value, Ignored, false, 0, "")] else []
  }

  /** A DeleteSelf event for a descriptor that the kernel has dropped. */
  lemma DeleteSelfStep(s: Sys, w: Walker, miss: set<Dir>, x: int)
    requires Inv(s, miss, {x}) && !s.exited
    requires s.pending != [] && s.pending[0] == Event(x, DeleteSelf, true, 0, "")
    requires forall n :: n in Tops(s.fs) ==> Tree(s.fs)[n] != Entries(s.cache)[x]
    ensures var t := Next(s, w);
      && (t.exited ==> Tops(s.fs) == {})
      && (!t.exited ==> Inv(t, miss, {}) && t.pending == s.pending[1..])
      && t.marks == s.marks && !IsRoot(t.roots, Entries(s.cache)[x])
  {
    hide Valid, RootsOk, Tree, Tops, SlotsOk, Entries, IsRoot, FirstWith, ZapRoot, Agree, Reinit, ZapSubtree,
         WatchSubtree;
    StaleEntry(s, miss, {x}, x);
    EntryIsSlot(s.cache, x);
    var j := FirstWith(s.cache, x);
    MarkRefines(s.cache, j);
    AgreeAfterForget(Tree(s.fs), Tops(s.fs), s.marks, s.nextWd, Entries(s.cache), miss, {x}, x);
    var u := s.(pending := s.pending[1..]);
    if IsRoot(s.roots, s.cache[j].path) {
      ZapRootOk(u, s.cache[j].path);
      ZapRootExact(u, s.cache[j].path);
    }
    assert {x} - {x} == {};
  }

  /** An Unmount event, again for a descriptor that the kernel has dropped. */
  lemma UnmountStep(s: Sys, w: Walker, miss: set<Dir>, stale: set<int>, x: int)
    requires Inv(s, miss, stale) && x in stale
    requires s.pending != [] && s.pending[0].wd == x && s.pending[0].kind.Unmount?
    ensures var t := Next(s, w);
      && Inv(t, miss, stale - {x}) && Entries(t.cache) == Entries(s.cache) - {x}
      && t == s.(pending := s.pending[1..], cache := t.cache)
  {
    hide Valid, RootsOk, Tree, Tops, SlotsOk, Entries, FirstWith, Agree, Reinit, ZapSubtree, WatchSubtree;
    StaleEntry(s, miss, stale, x);
    EntryIsSlot(s.cache, x);
    MarkRefines(s.cache, FirstWith(s.cache, x));
    AgreeAfterForget(Tree(s.fs), Tops(s.fs), s.marks, s.nextWd, Entries(s.cache), miss, stale, x);
  }

  lemma StaleEntry(s: Sys, miss: set<Dir>, stale: set<int>, x: int)
    requires Inv(s, miss, stale) && x in stale
    ensures x in Entries(s.cache) && x >= 1
  {
    hide Valid, RootsOk, Tree, Tops, SlotsOk, Entries;
    assert x in Entries(s.cache).Keys;
  }

  lemma SameElements(list: seq<int>, elements: set<int>)
    requires forall x :: x in list <==> x in elements
    ensures (set x | x in list) == elements
  {
    forall x
      ensures x in (set y | y in list) <==> x in elements
    {
      assert x in list <==> x in elements;
    }
  }

  /** Zapping the old place of a moved subtree succeeds, and leaves that subtree out. */
  lemma ZapStep(s: Sys, u: Sys, w: Walker, n: Dir, stale: set<int>)
    requires Inv(s, {}, stale) && Valid(u.fs) && n in Tree(s.fs)
    requires Moves(Tree(s.fs), Tree(u.fs), Tops(s.fs), Tops(u.fs), Subtree(s.fs, n), n)
    requires u.cache == s.cache && u.nextWd == s.nextWd && Remasked(s.marks, u.marks, Subtree(s.fs, n))
    requires RootsOk(u.fs, u.roots)
    requires forall x :: x in stale ==> x in Entries(s.cache) && !AtOrBelow(Entries(s.cache)[x], Tree(s.fs)[n])
    ensures var r, wds := ZapSubtree(u, w, Tree(s.fs)[n]), ZapList(s.cache, Tree(s.fs)[n]);
      && r == u.(marks := r.marks, cache := r.cache, pending := u.pending + IgnoredEvents(wds))
      && Inv(r, Subtree(s.fs, n), stale) && !ZapFails(u, Tree(s.fs)[n])
      && (forall m :: m in r.marks ==> m in u.marks && r.marks[m] == u.marks[m])
      && forall x :: x in stale ==> x in Entries(r.cache) && Entries(r.cache)[x] == Entries(s.cache)[x]
  {
    hide Valid, Tree, Tops, Subtree, RootsOk, SlotsOk, Entries, Agree, AtOrBelow, Zapped, ZapList, Remasked,
         WithoutWds, WatchedWds, Reinit;
    var p, sub := Tree(s.fs)[n], Subtree(s.fs, n);
    ZapListExact(s.cache, p);
    ZapRefines(s.cache, p);
    AgreeAfterZap(Tree(s.fs), Tree(u.fs), Tops(s.fs), s.marks, u.marks, s.nextWd, Entries(s.cache), stale, sub, n);
    var wds := ZapList(s.cache, p);
    SameElements(wds, Hits(Entries(s.cache), p));
    assert !ZapFails(u, p);
    OnlyFewer(u.marks, set wd | wd in wds);
  }

  lemma OnlyFewer(marks: Marks, wds: set<int>)
    ensures forall m :: m in WithoutWds(marks, wds) ==> m in marks && WithoutWds(marks, wds)[m] == marks[m]
  {
  }

  /** Walking over directories that are all watched and cached changes masks only. */
  lemma {:induction false} WatchEachKnown(s: Sys, order: seq<Dir>, sub: set<Dir>)
    requires Valid(s.fs)
    requires forall n :: n in order ==> n in sub && n in s.marks && Known(s.cache, s.marks[n].wd)
    ensures var t := WatchEach(s, order);
      t == s.(marks := t.marks) && Remasked(s.marks, t.marks, sub)
    decreases |order|
  {
    hide Valid, Tree, IsRoot;
    if order != [] {
      var u := WatchOne(s, order[0]);
      assert u == s.(marks := u.marks) && Remasked(s.marks, u.marks, sub);
      WatchEachKnown(u, order[1..], sub);
    }
  }

  /** Walking takes no watch back. */
  lemma {:induction false} WatchEachAdds(s: Sys, order: seq<Dir>)
    requires Valid(s.fs)
    ensures var t := WatchEach(s, order);
      forall n :: n in s.marks ==> n in t.marks && t.marks[n].wd == s.marks[n].wd
    decreases |order|
  {
    hide Valid, Tree, IsRoot, FirstWith;
    if order != [] {
      WatchEachAdds(WatchOne(s, order[0]), order[1..]);
    }
  }

  // ---- when the program exits ----

  /** The program has exited if and only if no pathname is left on its list. */
  predicate Awake(s: Sys) {
    s.exited <==> NoneListed(s.roots)
  }

  lemma NextAwake(s: Sys, w: Walker)
    requires Valid(s.fs) && s.pending != [] && !s.exited && Awake(s)
    ensures Awake(Next(s, w))
  {
    hide Valid, Reinit, WatchSubtree, ZapSubtree, Rewritten, MarkEmpty, HasPath, IsRoot, FirstWith, Join;
  }

  lemma {:induction false} SettleAwake(s: Sys, w: Walker)
    requires Valid(s.fs) && Awake(s)
    ensures Awake(Settle(s, w))
    decreases Noisy(s.pending), |s.pending|
  {
    hide Valid, Next, Awake, Noisy;
    if s.pending != [] && !s.exited {
      NextProgress(s, w);
      NextAwake(s, w);
      SettleAwake(Next(s, w), w);
    }
  }

  /** Pathnames are only ever struck off the list. */
  lemma NextListed(s: Sys, w: Walker, p: string)
    requires Valid(s.fs) && s.pending != []
    ensures IsRoot(Next(s, w).roots, p) ==> IsRoot(s.roots, p)
  {
    hide Valid, Reinit, WatchSubtree, ZapSubtree, Rewritten, MarkEmpty, HasPath, FirstWith, Join;
  }

  lemma {:induction false} SettleListed(s: Sys, w: Walker, p: string)
    requires Valid(s.fs)
    ensures IsRoot(Settle(s, w).roots, p) ==> IsRoot(s.roots, p)
    decreases Noisy(s.pending), |s.pending|
  {
    hide Valid, Next, IsRoot, Noisy;
    if s.pending != [] && !s.exited {
      NextProgress(s, w);
      NextListed(s, w, p);
      SettleListed(Next(s, w), w, p);
    }
  }
}
