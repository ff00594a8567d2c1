/** What inotify_dtree.c keeps right however operations on the tree, losses in the kernel's queue and the
    handling of events are interleaved: its list of roots, and with it the way back to a coherent cache. */
module DtreeRecovery {
  import opened Common
  import opened Paths
  import opened DirForest
  import opened Inotify
  import opened SlotCache
  import opened DtreeSpec
  import opened DtreeCoherence
  import opened DtreeSteps
  import opened DtreeAncestors
  import opened DtreeRuns

  /** An operation takes place and its events are queued; or the queue overflows at this moment, and only
      the first `kept` of them and the notice of the loss are queued; or the program handles an event. */
  datatype Step = Operate(op: Op) | Overrun(op: Op, kept: nat) | Handle

  const LOSS := Event(-1, Overflow, false, 0, "")

  ghost predicate Possible(s: Sys, st: Step)
    requires Valid(s.fs)
  {
    match st
    case Operate(op) => Enabled(s.fs, op)
    case Overrun(op, kept) => Enabled(s.fs, op) && kept <= |EventsOf(s.fs, s.marks, op)|
    case Handle => s.pending != [] && !s.exited
  }

  ghost function After(s: Sys, st: Step, w: Walker): (t: Sys)
    requires Valid(s.fs) && Possible(s, st)
    ensures Valid(t.fs)
  {
    match st
    case Operate(op) => Act(s, op)
    case Overrun(op, kept) => Act(s, op).(pending := s.pending + EventsOf(s.fs, s.marks, op)[..kept] + [LOSS])
    case Handle => Next(s, w)
  }

  ghost predicate Legal(s: Sys, steps: seq<Step>, w: Walker)
    requires Valid(s.fs)
    decreases |steps|
  {
    steps == [] || (Possible(s, steps[0]) && Legal(After(s, steps[0], w), steps[1..], w))
  }

  ghost function End(s: Sys, steps: seq<Step>, w: Walker): (t: Sys)
    requires Valid(s.fs) && Legal(s, steps, w)
    ensures Valid(t.fs)
    decreases |steps|
  {
    if steps == [] then s else End(After(s, steps[0], w), steps[1..], w)
  }

  // ---- the invariant ----

  /** The live roots with their pathnames. */
  ghost function Live(fs: Forest): map<Dir, string> {
    map n | n in Tops(fs) :: fs.up[n].path
  }

  ghost predicate BelowGiven(given: set<string>, p: string) {
    exists r :: r in given && AtOrBelow(p, r)
  }

  /** `given` are the pathnames of the command line. */
  ghost predicate GivenOk(live: map<Dir, string>, given: set<string>) {
    && (forall n :: n in live ==> live[n] in given)
    && (forall p, q :: p in given && q in given && AtOrBelow(p, q) ==> p == q)
  }

  /** Cached pathnames may be false, but a live root's is cached with no descriptor but its own. */
  ghost predicate CacheOk(live: map<Dir, string>, marks: Marks, e: map<int, string>, given: set<string>) {
    && (forall x :: x in e ==> BelowGiven(given, e[x]))
    && (forall x, r :: x in e && r in live && e[x] == live[r] ==> r in marks && marks[r].wd == x)
  }

  /** The descriptor is used up, and not that of a live root. */
  ghost predicate Spent(live: map<Dir, string>, marks: Marks, nextWd: int, x: int) {
    x < nextWd && forall r :: r in live && r in marks ==> marks[r].wd != x
  }

  predicate IsSelfEvent(ev: Event) {
    ev.kind.MoveSelf? || ev.kind.DeleteSelf?
  }

  /** No live root has been moved or deleted. */
  ghost predicate QueueOk(live: map<Dir, string>, marks: Marks, nextWd: int, evs: seq<Event>) {
    forall i :: 0 <= i < |evs| && IsSelfEvent(evs[i]) ==> Spent(live, marks, nextWd, evs[i].wd)
  }

  ghost predicate Tracked(s: Sys, given: set<string>) {
    && Valid(s.fs) && RootsOk(s.fs, s.roots) && SlotsOk(s.cache) && MarksOk(s.marks, s.nextWd) && s.nextWd >= 1
    && GivenOk(Live(s.fs), given) && CacheOk(Live(s.fs), s.marks, Entries(s.cache), given)
    && QueueOk(Live(s.fs), s.marks, s.nextWd, s.pending)
    && (s.exited ==> Tops(s.fs) == {})
  }

  lemma TrackedValid(s: Sys, given: set<string>)
    requires Tracked(s, given)
    ensures Valid(s.fs) && RootsOk(s.fs, s.roots) && (s.exited ==> Tops(s.fs) == {})
  {
  }

  // ---- operations ----

  /** What an operation moves or deletes. */
  predicate Touched(op: Op, n: Dir) {
    ((op.RmdirOp? || op.RenameOp?) && op.n == n) || (op.RenameOp? && op.victim == Some(n))
  }

  lemma GroundTops(fs: Forest, op: Op)
    requires Valid(fs) && op.RenameOp? && Enabled(fs, op)
    ensures Valid(Ground(fs, op))
    ensures forall k :: k in Tops(Ground(fs, op)) ==>
              k in Tops(fs) && Ground(fs, op).up[k] == fs.up[k] && op.victim != Some(k)
  {
    GroundOk(fs, op);
    ClearedOk(fs, op);
    hide Valid, PathOf, Within, AboveRoot, LinksOk, RootBelow, Enabled;
  }

  /** Operations make no roots, and what they move or delete is none afterwards. */
  lemma RootsOnlyGo(fs: Forest, op: Op)
    requires Valid(fs) && Enabled(fs, op)
    ensures forall r :: r in Live(NewForest(fs, op)) ==> r in Live(fs) && Live(NewForest(fs, op))[r] == Live(fs)[r]
    ensures forall n :: Touched(op, n) ==> n !in Live(NewForest(fs, op))
  {
    hide Valid, Tree, Subtree, Free, Within, Childless, Mkdir, Rmdir, Relink, CanRelink, Ground, Under, AboveRoot;
    match op
    case MkdirOp(parent, name, n) =>
      MkdirTree(fs, parent, name, n);
    case RmdirOp(n) =>
      RmdirTree(fs, n);
      RmdirUp(fs, n);
    case RenameOp(n, dest, victim, cookie) =>
      GroundOk(fs, op);
      GroundTops(fs, op);
      RelinkTree(Ground(fs, op), n, dest);
    case FileOps(evs) =>
  }

  lemma RmdirUp(fs: Forest, n: Dir)
    ensures Rmdir(fs, n).up == fs.up - {n}
  {
  }

  lemma SelfEventsOf(fs: Forest, marks: Marks, op: Op, i: nat) returns (n: Dir)
    requires Valid(fs) && Enabled(fs, op) && i < |EventsOf(fs, marks, op)|
    requires IsSelfEvent(EventsOf(fs, marks, op)[i])
    ensures Touched(op, n) && n in marks && EventsOf(fs, marks, op)[i].wd == marks[n].wd
  {
    hide Valid, Free, Within, Childless;
    n := if op.RenameOp? && EventsOf(fs, marks, op)[i].kind.DeleteSelf? then op.victim.value else op.n;
  }

  lemma NewEventsOk(live: map<Dir, string>, fs: Forest, marks: Marks, nextWd: int, op: Op)
    requires Valid(fs) && Enabled(fs, op) && MarksOk(marks, nextWd) && forall n :: Touched(op, n) ==> n !in live
    ensures QueueOk(live, NewMarks(marks, op), nextWd, EventsOf(fs, marks, op))
  {
    var evs, marks' := EventsOf(fs, marks, op), NewMarks(marks, op);
    hide Valid, Enabled, EventsOf;
    forall i | 0 <= i < |evs| && IsSelfEvent(evs[i])
      ensures Spent(live, marks', nextWd, evs[i].wd)
    {
      var n := SelfEventsOf(fs, marks, op, i);
      assert forall r :: r in marks' ==> r in marks && marks'[r] == marks[r];
    }
  }

  /** Old marks go only with what is touched. */
  lemma MarksStay(marks: Marks, op: Op)
    ensures forall r :: r in NewMarks(marks, op) ==> r in marks && NewMarks(marks, op)[r] == marks[r]
    ensures forall r :: r in marks && !Touched(op, r) ==> r in NewMarks(marks, op)
  {
  }

  lemma QueueConcat(live: map<Dir, string>, marks: Marks, nextWd: int, a: seq<Event>, b: seq<Event>)
    requires QueueOk(live, marks, nextWd, a) && QueueOk(live, marks, nextWd, b)
    ensures QueueOk(live, marks, nextWd, a + b)
  {
    hide Spent;
  }

  /** Fewer roots and watches, the watches of the roots remaining. */
  lemma FewerRoots(live: map<Dir, string>, live': map<Dir, string>, marks: Marks, marks': Marks, nextWd: int,
                   e: map<int, string>, evs: seq<Event>, given: set<string>)
    requires GivenOk(live, given) && CacheOk(live, marks, e, given) && QueueOk(live, marks, nextWd, evs)
    requires forall r :: r in live' ==> r in live && live'[r] == live[r] && (r in marks ==> r in marks')
    requires forall r :: r in marks' ==> r in marks && marks'[r] == marks[r]
    ensures GivenOk(live', given) && CacheOk(live', marks', e, given) && QueueOk(live', marks', nextWd, evs)
  {
    hide BelowGiven, AtOrBelow;
  }

  lemma LiveRootsOk(fs: Forest, fs': Forest, roots: seq<Option<string>>)
    requires Valid(fs) && Valid(fs') && RootsOk(fs, roots)
    requires forall r :: r in Live(fs') ==> r in Live(fs) && Live(fs')[r] == Live(fs)[r]
    ensures RootsOk(fs', roots)
  {
    hide Valid, Tree, AtOrBelow, IsRoot;
    TopsInTree(fs);
    TopsInTree(fs');
    assert forall r :: r in Tops(fs') ==> r in Live(fs');
  }

  lemma OperateTracked(s: Sys, t: Sys, op: Op, more: seq<Event>, given: set<string>)
    requires Tracked(s, given) && Valid(s.fs) && Enabled(s.fs, op)
    requires t == Act(s, op).(pending := s.pending + more)
    requires forall i :: 0 <= i < |more| && IsSelfEvent(more[i]) ==> more[i] in EventsOf(s.fs, s.marks, op)
    ensures Tracked(t, given)
  {
    hide Valid, RootsOk, SlotsOk, Live, GivenOk, CacheOk, Entries, Enabled, NewForest, NewMarks, EventsOf, Touched,
         Spent, MarksOk;
    var live, live' := Live(s.fs), Live(t.fs);
    RootsOnlyGo(s.fs, op);
    MarksStay(s.marks, op);
    MarksLess(s.marks, t.marks, s.nextWd);
    FewerRoots(live, live', s.marks, t.marks, s.nextWd, Entries(s.cache), s.pending, given);
    NewEventsOk(live', s.fs, s.marks, s.nextWd, op);
    QueueConcat(live', t.marks, t.nextWd, s.pending, more);
    LiveRootsOk(s.fs, t.fs, s.roots);
    LiveNone(s.fs, t.fs);
  }

  lemma LiveNone(fs: Forest, fs': Forest)
    requires forall r :: r in Live(fs') ==> r in Live(fs)
    ensures Tops(fs) == {} ==> Tops(fs') == {}
  {
    forall r
      ensures r in Tops(fs') ==> r in Tops(fs)
    {
      assert r in Tops(fs') <==> r in Live(fs');
      assert r in Tops(fs) <==> r in Live(fs);
    }
  }

  // ---- handling ----

  lemma TrueIsBelowGiven(fs: Forest, given: set<string>, n: Dir)
    requires Valid(fs) && GivenOk(Live(fs), given) && n in Tree(fs)
    ensures BelowGiven(given, Tree(fs)[n])
  {
    var r := TreeHasTop(fs, n);
    TopsInTree(fs);
    hide Valid, Tree, AtOrBelow;
    assert r in Live(fs);
  }

  /** The pathname of a live root is that of no other directory. */
  lemma TrueRoot(fs: Forest, n: Dir)
    requires Valid(fs) && n in Tree(fs)
    ensures forall r :: r in Live(fs) && Live(fs)[r] == Tree(fs)[n] ==> r == n
  {
    TreeInjective(fs);
    TopsInTree(fs);
    hide Valid, Tree;
  }

  lemma CoherentTracked(s: Sys, given: set<string>)
    requires Coherent(s) && Valid(s.fs) && GivenOk(Live(s.fs), given) && (s.exited ==> Tops(s.fs) == {})
    ensures Tracked(s, given)
  {
    hide Valid, Tree, Tops, RootsOk, SlotsOk, Entries, BelowGiven, AtOrBelow, Live, GivenOk;
    var e := Entries(s.cache);
    forall x | x in e
      ensures BelowGiven(given, e[x])
      ensures forall r :: r in Live(s.fs) && e[x] == Live(s.fs)[r] ==> r in s.marks && s.marks[r].wd == x
    {
      var n := OwnerOf(s, x);
      TrueIsBelowGiven(s.fs, given, n);
      TrueRoot(s.fs, n);
    }
  }

  lemma OwnerOf(s: Sys, x: int) returns (n: Dir)
    requires Coherent(s) && Valid(s.fs) && x in Entries(s.cache)
    ensures n in s.marks && s.marks[n].wd == x && n in Tree(s.fs) && Entries(s.cache)[x] == Tree(s.fs)[n]
  {
    hide Valid, Tree, Tops, RootsOk, SlotsOk, Entries, MarksOk;
    assert s.marks.Keys == Tree(s.fs).Keys - {};
    assert x in Entries(s.cache).Keys;
    n :| n in s.marks && s.marks[n].wd == x;
    assert n in s.marks.Keys;
  }

  lemma ReinitTracked(s: Sys, w: Walker, given: set<string>)
    requires Tracked(s, given) && IsWalker(w)
    ensures Valid(s.fs) && Coherent(Reinit(s, w)) && Tracked(Reinit(s, w), given)
  {
    assert Valid(s.fs) && RootsOk(s.fs, s.roots) && GivenOk(Live(s.fs), given) && (s.exited ==> Tops(s.fs) == {});
    hide Valid, Tops, RootsOk, IsWalker, Reinit, Live, Coherent, GivenOk;
    ReinitRestores(s, w);
    CoherentTracked(Reinit(s, w), given);
  }

  /** Watching adds true pathnames and unused descriptors. */
  lemma WatchOneCache(live: map<Dir, string>, marks: Marks, nextWd: int, e: map<int, string>, given: set<string>,
                      n: Dir, p: string, moveSelf: bool)
    requires CacheOk(live, marks, e, given) && MarksOk(marks, nextWd) && BelowGiven(given, p)
    requires forall r :: r in live && live[r] == p ==> r == n
    ensures var wd := if n in marks then marks[n].wd else nextWd;
      && CacheOk(live, marks[n := Mark(wd, moveSelf)], e, given)
      && (wd !in e ==> CacheOk(live, marks[n := Mark(wd, moveSelf)], e[wd := p], given))
  {
    hide BelowGiven;
  }

  lemma WatchOneQueue(live: map<Dir, string>, marks: Marks, nextWd: int, evs: seq<Event>, n: Dir, moveSelf: bool)
    requires QueueOk(live, marks, nextWd, evs) && MarksOk(marks, nextWd)
    ensures var wd := if n in marks then marks[n].wd else nextWd;
      QueueOk(live, marks[n := Mark(wd, moveSelf)], if n in marks then nextWd else nextWd + 1, evs)
  {
  }

  lemma WatchOneMarks(marks: Marks, nextWd: int, n: Dir, moveSelf: bool)
    requires MarksOk(marks, nextWd) && nextWd >= 1
    ensures var wd := if n in marks then marks[n].wd else nextWd;
      wd >= 1 && MarksOk(marks[n := Mark(wd, moveSelf)], if n in marks then nextWd else nextWd + 1)
  {
  }

  lemma WatchOneTracked(s: Sys, n: Dir, given: set<string>)
    requires Tracked(s, given) && Valid(s.fs)
    ensures Tracked(WatchOne(s, n), given)
  {
    hide Valid, RootsOk, SlotsOk, Live, GivenOk, CacheOk, QueueOk, MarksOk, Entries, Tree, Tops, IsRoot, Added,
         FirstWith;
    if n in Tree(s.fs) {
      var p, wd := Tree(s.fs)[n], if n in s.marks then s.marks[n].wd else s.nextWd;
      var moveSelf, e := IsRoot(s.roots, p), Entries(s.cache);
      TrueIsBelowGiven(s.fs, given, n);
      TrueRoot(s.fs, n);
      WatchOneCache(Live(s.fs), s.marks, s.nextWd, e, given, n, p, moveSelf);
      WatchOneQueue(Live(s.fs), s.marks, s.nextWd, s.pending, n, moveSelf);
      WatchOneMarks(s.marks, s.nextWd, n, moveSelf);
      EntryIsSlot(s.cache, wd);
      if wd !in e {
        AddRefines(s.cache, wd, p);
      }
    }
  }

  lemma {:induction false} WatchEachTracked(s: Sys, order: seq<Dir>, given: set<string>)
    requires Tracked(s, given) && Valid(s.fs)
    ensures Tracked(WatchEach(s, order), given)
    decreases |order|
  {
    hide Tracked, WatchOne, Valid;
    if order != [] {
      WatchOneTracked(s, order[0], given);
      TrackedValid(WatchOne(s, order[0]), given);
      WatchEachTracked(WatchOne(s, order[0]), order[1..], given);
    }
  }

  /** Pairs leave the cache, together with watches of their descriptors or without. */
  lemma FewerPairs(live: map<Dir, string>, marks: Marks, marks': Marks, nextWd: int, e: map<int, string>,
                   gone: set<int>, evs: seq<Event>, given: set<string>)
    requires CacheOk(live, marks, e, given) && QueueOk(live, marks, nextWd, evs)
    requires marks' == marks || marks' == WithoutWds(marks, gone)
    ensures CacheOk(live, marks', e - gone, given) && QueueOk(live, marks', nextWd, evs)
  {
    hide BelowGiven;
  }

  lemma MarkEmptyTracked(s: Sys, x: int, given: set<string>)
    requires Tracked(s, given) && Known(s.cache, x)
    ensures Tracked(s.(cache := MarkEmpty(s.cache, x)), given)
  {
    hide Valid, RootsOk, SlotsOk, Live, GivenOk, CacheOk, QueueOk, MarksOk, Entries, Tops, FirstWith;
    MarkRefines(s.cache, FirstWith(s.cache, x));
    FewerPairs(Live(s.fs), s.marks, s.marks, s.nextWd, Entries(s.cache), {x}, s.pending, given);
  }

  lemma IgnoredQueue(live: map<Dir, string>, marks: Marks, nextWd: int, wds: seq<int>)
    ensures QueueOk(live, marks, nextWd, IgnoredEvents(wds))
  {
  }

  lemma ZapTracked(s: Sys, w: Walker, p: string, given: set<string>)
    requires Tracked(s, given) && Valid(s.fs) && IsWalker(w)
    ensures Tracked(ZapSubtree(s, w, p), given)
  {
    hide Valid, RootsOk, SlotsOk, Live, GivenOk, CacheOk, QueueOk, MarksOk, Entries, Tops, Zapped, ZapList, Reinit,
         ZapFails, IsWalker, IgnoredEvents, WithoutWds;
    if ZapFails(s, p) {
      ReinitTracked(s, w, given);
    } else {
      var hits, wds := Hits(Entries(s.cache), p), ZapList(s.cache, p);
      ZapRefines(s.cache, p);
      ZapListExact(s.cache, p);
      SameElements(wds, hits);
      var marks' := WithoutWds(s.marks, hits);
      WithoutLess(s.marks, hits, s.nextWd);
      FewerPairs(Live(s.fs), s.marks, marks', s.nextWd, Entries(s.cache), hits, s.pending, given);
      IgnoredQueue(Live(s.fs), marks', s.nextWd, wds);
      QueueConcat(Live(s.fs), marks', s.nextWd, s.pending, IgnoredEvents(wds));
    }
  }

  lemma WithoutLess(marks: Marks, wds: set<int>, nextWd: int)
    requires MarksOk(marks, nextWd)
    ensures MarksOk(WithoutWds(marks, wds), nextWd)
  {
  }

  lemma SpentIsFree(live: map<Dir, string>, marks: Marks, nextWd: int, e: map<int, string>, given: set<string>, x: int)
    requires CacheOk(live, marks, e, given) && Spent(live, marks, nextWd, x) && x in e
    ensures forall r :: r in live ==> live[r] != e[x]
  {
    hide BelowGiven;
  }

  lemma LiveIsTrue(fs: Forest)
    requires Valid(fs)
    ensures forall n :: n in Tops(fs) ==> n in Live(fs) && n in Tree(fs) && Tree(fs)[n] == Live(fs)[n]
  {
    TopsInTree(fs);
    hide Valid, Tree;
  }

  lemma SpentIsNoRoot(s: Sys, x: int, given: set<string>)
    requires Tracked(s, given) && Known(s.cache, x) && Spent(Live(s.fs), s.marks, s.nextWd, x)
    ensures Valid(s.fs) && forall n :: n in Tops(s.fs) ==> n in Tree(s.fs) && Tree(s.fs)[n] != PathAt(s.cache, x)
  {
    hide Valid, RootsOk, SlotsOk, GivenOk, CacheOk, Spent, QueueOk, MarksOk, Entries, Tops, Tree, Live, FirstWith;
    EntryIsSlot(s.cache, x);
    SpentIsFree(Live(s.fs), s.marks, s.nextWd, Entries(s.cache), given, x);
    LiveIsTrue(s.fs);
  }

  /** Striking off the pathname that is cached with a descriptor used up. */
  lemma ZapRootTracked(s: Sys, x: int, given: set<string>)
    requires Tracked(s, given) && !s.exited && Known(s.cache, x) && Spent(Live(s.fs), s.marks, s.nextWd, x)
    requires IsRoot(s.roots, PathAt(s.cache, x))
    ensures Tracked(ZapRoot(s, PathAt(s.cache, x)), given)
  {
    hide Valid, RootsOk, SlotsOk, GivenOk, CacheOk, QueueOk, MarksOk, Entries, Tops, Tree, Live, FirstWith, Spent,
         ZapRoot, IsRoot;
    SpentIsNoRoot(s, x, given);
    ZapRootOk(s, PathAt(s.cache, x));
  }

  /** A rewrite moves pathnames to where no root is. */
  lemma RewriteTracked(s: Sys, oldTop: string, dir: string, name: string, given: set<string>)
    requires Tracked(s, given) && oldTop != "" && BelowGiven(given, dir)
    ensures Tracked(s.(cache := Rewritten(s.cache, oldTop, Join(dir, name))), given)
  {
    hide Valid, RootsOk, SlotsOk, Live, QueueOk, MarksOk, Entries, Tops, Rewritten, Moved, Join;
    var e, newTop := Entries(s.cache), Join(dir, name);
    RewriteKeepsSlots(s.cache, oldTop, newTop);
    RewriteRefines(s.cache, oldTop, newTop);
    forall x | x in e
      ensures BelowGiven(given, Moved(e[x], oldTop, newTop))
      ensures forall r :: r in Live(s.fs) && Moved(e[x], oldTop, newTop) == Live(s.fs)[r] ==> e[x] == Live(s.fs)[r]
    {
      MovedBelow(e[x], oldTop, dir, name, given);
    }
  }

  lemma MovedBelow(p: string, oldTop: string, dir: string, name: string, given: set<string>)
    requires BelowGiven(given, dir) && BelowGiven(given, p)
    requires forall p, q :: p in given && q in given && AtOrBelow(p, q) ==> p == q
    ensures var q := Moved(p, oldTop, Join(dir, name)); BelowGiven(given, q) && (q in given ==> q == p)
  {
    var q := Moved(p, oldTop, Join(dir, name));
    if AtOrBelow(p, oldTop) {
      var r :| r in given && AtOrBelow(dir, r);
      assert AtOrBelow(q, dir);
      AtOrBelowTransitive(q, dir, r);
    }
  }

  lemma SuffixTracked(s: Sys, k: nat, given: set<string>)
    requires Tracked(s, given) && k <= |s.pending|
    ensures Tracked(s.(pending := s.pending[k..]), given)
  {
    hide Valid, RootsOk, SlotsOk, Live, GivenOk, CacheOk, MarksOk, Entries, Tops, Spent;
  }

  lemma CachedBelow(s: Sys, x: int, given: set<string>)
    requires Tracked(s, given) && Known(s.cache, x)
    ensures BelowGiven(given, PathAt(s.cache, x))
  {
    hide Valid, RootsOk, SlotsOk, Live, MarksOk, Entries, Tops, BelowGiven, FirstWith;
    EntryIsSlot(s.cache, x);
  }

  lemma HeadSpent(s: Sys, given: set<string>)
    requires Tracked(s, given) && s.pending != [] && IsSelfEvent(s.pending[0])
    ensures Spent(Live(s.fs), s.marks, s.nextWd, s.pending[0].wd)
  {
    hide Valid, RootsOk, SlotsOk, Live, MarksOk, Entries, Tops, Spent, CacheOk;
  }

  /** A pathname struck off with an event of its descriptor. */
  lemma SelfTracked(s: Sys, w: Walker, given: set<string>)
    requires Tracked(s, given) && !s.exited && IsWalker(w) && Valid(s.fs)
    requires s.pending != [] && IsSelfEvent(s.pending[0]) && Known(s.cache, s.pending[0].wd)
    requires IsRoot(s.roots, PathAt(s.cache, s.pending[0].wd))
    ensures var x := s.pending[0].wd;
      var p, z := PathAt(s.cache, x), ZapRoot(s.(pending := s.pending[1..]), PathAt(s.cache, x));
      Tracked(z, given) && Tracked(ZapSubtree(z, w, p), given) && Tracked(z.(cache := MarkEmpty(z.cache, x)), given)
  {
    hide Valid, Tracked, IsWalker, IsRoot, FirstWith, ZapRoot, ZapSubtree, MarkEmpty, Live, Spent, PathAt;
    var x, p, u := s.pending[0].wd, PathAt(s.cache, s.pending[0].wd), s.(pending := s.pending[1..]);
    HeadSpent(s, given);
    SuffixTracked(s, 1, given);
    ZapRootTracked(u, x, given);
    var z := ZapRoot(u, p);
    TrackedValid(z, given);
    ZapTracked(z, w, p, given);
    MarkEmptyTracked(z, x, given);
  }

  lemma KnownTracked(s: Sys, w: Walker, given: set<string>)
    requires Tracked(s, given) && !s.exited && IsWalker(w) && Valid(s.fs)
    requires s.pending != [] && Known(s.cache, s.pending[0].wd)
    ensures var ev, u := s.pending[0], s.(pending := s.pending[1..]);
      var p := Join(PathAt(s.cache, ev.wd), ev.name);
      && Tracked(u, given) && Tracked(WatchSubtree(u, w, p), given) && Tracked(ZapSubtree(u, w, p), given)
      && Tracked(u.(cache := MarkEmpty(s.cache, ev.wd)), given)
  {
    hide Valid, Tracked, IsWalker, FirstWith, ZapSubtree, MarkEmpty, PathAt, Join, WatchEach;
    var ev, u := s.pending[0], s.(pending := s.pending[1..]);
    var p := Join(PathAt(s.cache, ev.wd), ev.name);
    SuffixTracked(s, 1, given);
    WatchEachTracked(u, w(u.fs, p), given);
    ZapTracked(u, w, p, given);
    MarkEmptyTracked(u, ev.wd, given);
  }

  lemma PairTracked(s: Sys, given: set<string>)
    requires Tracked(s, given) && |s.pending| >= 2
    requires Known(s.cache, s.pending[0].wd) && Known(s.cache, s.pending[1].wd)
    ensures var ev, to := s.pending[0], s.pending[1];
      var oldTop, newTop := Join(PathAt(s.cache, ev.wd), ev.name), Join(PathAt(s.cache, to.wd), to.name);
      Tracked(s.(pending := s.pending[1..][1..], cache := Rewritten(s.cache, oldTop, newTop)), given)
  {
    hide Tracked, FirstWith, PathAt, Rewritten;
    var to, oldTop := s.pending[1], Join(PathAt(s.cache, s.pending[0].wd), s.pending[0].name);
    assert s.pending[1..][1..] == s.pending[2..];
    SuffixTracked(s, 2, given);
    CachedBelow(s, to.wd, given);
    assert |oldTop| > 0;
    RewriteTracked(s.(pending := s.pending[2..]), oldTop, PathAt(s.cache, to.wd), to.name, given);
  }

  lemma NextTracked(s: Sys, w: Walker, given: set<string>)
    requires Tracked(s, given) && !s.exited && IsWalker(w) && Valid(s.fs) && s.pending != []
    ensures Tracked(Next(s, w), given)
  {
    hide Valid, Tracked, IsWalker, IsRoot, FirstWith, ZapRoot, ZapSubtree, WatchSubtree, Reinit, MarkEmpty, PathAt,
         Join, Rewritten, HasPath;
    var ev := s.pending[0];
    SuffixTracked(s, 1, given);
    ReinitTracked(s, w, given);
    if Known(s.cache, ev.wd) {
      KnownTracked(s, w, given);
      if IsSelfEvent(ev) && IsRoot(s.roots, PathAt(s.cache, ev.wd)) {
        SelfTracked(s, w, given);
      }
      if Paired(ev, s.pending[1..]) && Known(s.cache, s.pending[1].wd) {
        PairTracked(s, given);
      }
    }
  }

  // ---- runs ----

  lemma StepTracked(s: Sys, st: Step, w: Walker, given: set<string>)
    requires Tracked(s, given) && IsWalker(w) && Valid(s.fs) && Possible(s, st)
    ensures Tracked(After(s, st, w), given)
  {
    hide Valid, Tracked, IsWalker, Next, NewForest, NewMarks, EventsOf, Free, Childless, Within;
    match st
    case Operate(op) =>
      OperateTracked(s, Act(s, op), op, EventsOf(s.fs, s.marks, op), given);
    case Overrun(op, kept) =>
      var evs := EventsOf(s.fs, s.marks, op);
      assert s.pending + (evs[..kept] + [LOSS]) == s.pending + evs[..kept] + [LOSS];
      OperateTracked(s, After(s, st, w), op, evs[..kept] + [LOSS], given);
    case Handle =>
      NextTracked(s, w, given);
  }

  lemma {:induction false} RunTracked(s: Sys, steps: seq<Step>, w: Walker, given: set<string>)
    requires Tracked(s, given) && IsWalker(w) && Valid(s.fs) && Legal(s, steps, w)
    ensures Tracked(End(s, steps, w), given)
    decreases |steps|
  {
    hide Tracked, Valid, IsWalker, After, Possible;
    if steps != [] {
      StepTracked(s, steps[0], w, given);
      RunTracked(After(s, steps[0], w), steps[1..], w, given);
    }
  }

  lemma GivenBySelf(fs: Forest)
    requires Valid(fs)
    ensures GivenOk(Live(fs), set n | n in Live(fs) :: Live(fs)[n])
  {
  }

  lemma ZapKeepsPending(s: Sys, w: Walker, p: string, given: set<string>)
    requires Tracked(s, given) && IsWalker(w) && Valid(s.fs)
    ensures Coherent(ZapSubtree(s, w, p)) || s.pending <= ZapSubtree(s, w, p).pending
  {
    hide Valid, Tracked, IsWalker, Coherent, ZapFails, Reinit, ZapList, Zapped;
    ReinitTracked(s, w, given);
  }

  lemma ZapRootKeepsPending(s: Sys, p: string)
    requires IsRoot(s.roots, p)
    ensures ZapRoot(s, p).pending == s.pending
  {
  }

  /** A step moves the other events up by one place or two, or rebuilds the cache. */
  lemma NextMovesUp(s: Sys, w: Walker, given: set<string>)
    requires Tracked(s, given) && !s.exited && IsWalker(w) && Valid(s.fs) && s.pending != []
    ensures var t := Next(s, w);
      || Coherent(t) || (!s.pending[0].kind.Overflow? && s.pending[1..] <= t.pending)
      || (!s.pending[0].kind.Overflow? && |s.pending| >= 2 && s.pending[1].kind.MovedTo? && s.pending[2..] <= t.pending)
  {
    hide Valid, Tracked, IsWalker, IsRoot, FirstWith, ZapRoot, ZapSubtree, WatchEach, Reinit, MarkEmpty, PathAt,
         Join, Rewritten, HasPath, Coherent;
    var ev, rest, u := s.pending[0], s.pending[1..], s.(pending := s.pending[1..]);
    SuffixTracked(s, 1, given);
    ReinitTracked(s, w, given);
    assert |rest| >= 1 ==> rest[1..] == s.pending[2..];
    if Known(s.cache, ev.wd) {
      var p := PathAt(s.cache, ev.wd);
      ZapKeepsPending(u, w, Join(p, ev.name), given);
      if IsSelfEvent(ev) && IsRoot(s.roots, p) {
        ZapRootKeepsPending(u, p);
        SelfTracked(s, w, given);
        ZapKeepsPending(ZapRoot(u, p), w, p, given);
      }
    }
  }

  /** A notice of a loss among the pending events: before the program has nothing left to handle, the
      cache is coherent again, whatever it held, unless no root is left. */
  lemma {:induction false} LossHeals(s: Sys, w: Walker, given: set<string>, i: nat)
    requires Tracked(s, given) && IsWalker(w) && Valid(s.fs)
    requires Coherent(s) || s.exited || (i < |s.pending| && s.pending[i].kind.Overflow?)
    ensures var t := Settle(s, w); if t.exited then Tops(t.fs) == {} else Coherent(t)
    decreases i
  {
    hide Valid, Tracked, IsWalker, Next, Settle, Inv, Tops;
    TrackedValid(s, given);
    if s.exited || Coherent(s) {
      SettleStops(s, w);
    } else {
      OneStep(s, w);
      NextTracked(s, w, given);
      NextMovesUp(s, w, given);
      var t := Next(s, w);
      if !Coherent(t) {
        var k := if s.pending[1..] <= t.pending then 1 else 2;
        assert t.pending[i - k] == s.pending[k..][i - k] == s.pending[i];
        LossHeals(t, w, given, i - k);
      } else {
        TrackedValid(t, given);
        SettleStops(t, w);
      }
    }
  }

  /** However operations, losses and the handling of events follow each other, mishandled renames and
      operations between the handling of two events included: every live root stays on the list, so that
      the program does not exit while there is one; an overflow or an unknown descriptor that comes next
      makes the cache coherent at once; and one overflow anywhere among the pending events does so by the
      time that they are processed. */
  lemma EveryRunHeals(s: Sys, steps: seq<Step>, w: Walker)
    requires Coherent(s) && Valid(s.fs) && IsWalker(w) && (s.exited ==> Tops(s.fs) == {}) && Legal(s, steps, w)
    ensures var t := End(s, steps, w);
      && RootsOk(t.fs, t.roots) && (t.exited ==> Tops(t.fs) == {})
      && (!t.exited && t.pending != [] && LosesTrack(t) ==> Coherent(Next(t, w)) && !Next(t, w).exited)
      && ((exists i :: 0 <= i < |t.pending| && t.pending[i].kind.Overflow?) ==>
            var u := Settle(t, w); if u.exited then Tops(u.fs) == {} else Coherent(u))
  {
    hide Valid, Tracked, IsWalker, Next, Settle, Inv, Tops, Legal, End, Live, GivenOk, RootsOk;
    var given := set n | n in Live(s.fs) :: Live(s.fs)[n];
    GivenBySelf(s.fs);
    CoherentTracked(s, given);
    RunTracked(s, steps, w, given);
    var t := End(s, steps, w);
    TrackedValid(t, given);
    if !t.exited && t.pending != [] && LosesTrack(t) {
      LostTrack(t, w, given);
    }
    if i :| 0 <= i < |t.pending| && t.pending[i].kind.Overflow? {
      LossHeals(t, w, given, i);
    }
  }

  /** The event handled next is an overflow or has an unknown descriptor; or it is a departure whose
      arrival, coming next, has one; or it is a departure without one, and something below the pathname
      is cached with a descriptor that the kernel does not know. */
  ghost predicate LosesTrack(s: Sys)
    requires s.pending != []
  {
    var ev := s.pending[0];
    || ev.kind.Overflow?
    || (!ev.kind.Ignored? && !Known(s.cache, ev.wd))
    || (ev.isDir && ev.kind.MovedFrom? && ArrivesNext(s.pending) && !Known(s.cache, s.pending[1].wd))
    || (ev.isDir && ev.kind.MovedFrom? && !ArrivesNext(s.pending) && Known(s.cache, ev.wd) &&
        exists x :: x in Entries(s.cache) && x !in WatchedWds(s.marks) &&
                    AtOrBelow(Entries(s.cache)[x], Join(PathAt(s.cache, ev.wd), ev.name)))
  }

  /** The second event is the other half of the rename that the first one reports. */
  predicate ArrivesNext(evs: seq<Event>)
    requires evs != []
  {
    |evs| > 1 && evs[1].kind.MovedTo? && evs[1].cookie == evs[0].cookie
  }

  lemma ArrivalUnknown(s: Sys, w: Walker)
    requires Valid(s.fs) && s.pending != [] && s.pending[0].isDir && s.pending[0].kind.MovedFrom?
    requires ArrivesNext(s.pending) && !Known(s.cache, s.pending[1].wd)
    ensures Next(s, w) == Reinit(s, w)
  {
    hide Valid, Reinit, Join, FirstWith;
  }

  lemma DepartureRefused(s: Sys, w: Walker)
    requires Valid(s.fs) && s.pending != [] && s.pending[0].isDir && s.pending[0].kind.MovedFrom?
    requires !ArrivesNext(s.pending) && Known(s.cache, s.pending[0].wd)
    requires ZapFails(s.(pending := s.pending[1..]), Join(PathAt(s.cache, s.pending[0].wd), s.pending[0].name))
    ensures Next(s, w) == Reinit(s.(pending := s.pending[1..]), w)
  {
    hide Valid, Reinit, Join, FirstWith, ZapFails, PathAt;
    NextMovedOut(s, w);
  }

  lemma LostTrack(s: Sys, w: Walker, given: set<string>)
    requires Tracked(s, given) && Valid(s.fs) && !s.exited && IsWalker(w) && s.pending != [] && LosesTrack(s)
    ensures Coherent(Next(s, w)) && !Next(s, w).exited
  {
    TrackedValid(s, given);
    hide Valid, Tracked, IsWalker, Reinit, Coherent, ZapFails, Join, Entries, FirstWith, Next, RootsOk, PathAt,
         WatchedWds, ArrivesNext;
    var ev, u := s.pending[0], s.(pending := s.pending[1..]);
    if ev.kind.Overflow? || (!ev.kind.Ignored? && !Known(s.cache, ev.wd)) {
      LostTrackRestores(s, w);
    } else if ArrivesNext(s.pending) {
      ReinitTracked(s, w, given);
      ArrivalUnknown(s, w);
    } else {
      SuffixTracked(s, 1, given);
      ReinitTracked(u, w, given);
      UnknownRefused(u, Join(PathAt(s.cache, ev.wd), ev.name), given);
      DepartureRefused(s, w);
    }
  }

  lemma UnknownRefused(s: Sys, p: string, given: set<string>)
    requires Tracked(s, given)
    ensures (exists x :: x in Entries(s.cache) && x !in WatchedWds(s.marks) && AtOrBelow(Entries(s.cache)[x], p)) ==>
              ZapFails(s, p)
  {
    hide Valid, RootsOk, SlotsOk, CacheOk, QueueOk, Entries, ZapList, AtOrBelow;
    ZapListExact(s.cache, p);
  }

  lemma OverrunHeals(s: Sys, op: Op, kept: nat, w: Walker, given: set<string>)
    requires Tracked(s, given) && Valid(s.fs) && IsWalker(w) && Possible(s, Overrun(op, kept))
    ensures var t := After(s, Overrun(op, kept), w);
      var u := Settle(t, w); if u.exited then Tops(u.fs) == {} else Coherent(u)
  {
    hide Valid, Tracked, IsWalker, Settle, Coherent, Tops, Enabled, NewForest, NewMarks, EventsOf;
    var t := After(s, Overrun(op, kept), w);
    StepTracked(s, Overrun(op, kept), w, given);
    LossHeals(t, w, given, |t.pending| - 1);
  }

  /** From the start of the program on: after any run, an operation during which the queue overflows is
      the end of all errors in the cache. */
  lemma ProgramHeals(fs: Forest, roots: seq<Option<string>>, steps: seq<Step>, op: Op, kept: nat, w: Walker)
    requires Valid(fs) && RootsOk(fs, roots) && IsWalker(w) && Legal(Started(fs, roots, w), steps, w)
    requires Possible(End(Started(fs, roots, w), steps, w), Overrun(op, kept))
    ensures var t := After(End(Started(fs, roots, w), steps, w), Overrun(op, kept), w);
      var u := Settle(t, w); if u.exited then Tops(u.fs) == {} else Coherent(u)
  {
    hide Valid, Tracked, IsWalker, Settle, Coherent, Tops, Possible, After, Legal, End, RootsOk, Reinit, Live, GivenOk;
    var s, given := Started(fs, roots, w), set n | n in Live(fs) :: Live(fs)[n];
    ReinitRestores(Sys(fs, map[], 1, [], [], roots, false), w);
    GivenBySelf(fs);
    CoherentTracked(s, given);
    RunTracked(s, steps, w, given);
    OverrunHeals(End(s, steps, w), op, kept, w, given);
  }

  // ---- operation by operation ----

  /** An operation, of whose events only so many are queued if the queue overflows, and the handling of
      all that is pending. */
  datatype Round = Round(op: Op, kept: Option<nat>)

  ghost predicate RoundPossible(s: Sys, r: Round)
    requires Valid(s.fs)
  {
    Enabled(s.fs, r.op) && (r.kept.Some? ==> Possible(s, Overrun(r.op, r.kept.value)))
  }

  ghost function Outcome(s: Sys, r: Round, w: Walker): (t: Sys)
    requires Valid(s.fs) && RoundPossible(s, r)
    ensures Valid(t.fs)
  {
    Settle(if r.kept.None? then Act(s, r.op) else After(s, Overrun(r.op, r.kept.value), w), w)
  }

  /** The rounds follow each other until the program exits. */
  ghost predicate LegalRounds(s: Sys, rounds: seq<Round>, w: Walker)
    requires Valid(s.fs)
    decreases |rounds|
  {
    rounds != [] && !s.exited ==>
      RoundPossible(s, rounds[0]) && LegalRounds(Outcome(s, rounds[0], w), rounds[1..], w)
  }

  ghost function Final(s: Sys, rounds: seq<Round>, w: Walker): (t: Sys)
    requires Valid(s.fs) && LegalRounds(s, rounds, w)
    ensures Valid(t.fs)
    decreases |rounds|
  {
    if rounds == [] || s.exited then s else Final(Outcome(s, rounds[0], w), rounds[1..], w)
  }

  /** No rename has been mishandled, or the queue has overflowed since; `clean` says that of the start. */
  ghost predicate Clean(s: Sys, rounds: seq<Round>, w: Walker, clean: bool)
    requires Valid(s.fs) && LegalRounds(s, rounds, w)
    decreases |rounds|
  {
    if rounds == [] || s.exited then clean
    else
      Clean(Outcome(s, rounds[0], w), rounds[1..], w,
            rounds[0].kept.Some? || (clean && !Misses(s.fs, rounds[0].op)))
  }

  lemma {:induction false} SettleTracked(s: Sys, w: Walker, given: set<string>)
    requires Tracked(s, given) && IsWalker(w) && Valid(s.fs)
    ensures Tracked(Settle(s, w), given)
    decreases Noisy(s.pending), |s.pending|
  {
    hide Tracked, Valid, IsWalker, Next, Noisy;
    if s.pending != [] && !s.exited {
      NextProgress(s, w);
      NextTracked(s, w, given);
      SettleTracked(Next(s, w), w, given);
    }
  }

  ghost predicate Right(s: Sys) {
    if s.exited then Tops(s.fs) == {} else Coherent(s)
  }

  lemma RoundTracked(s: Sys, r: Round, w: Walker, given: set<string>)
    requires Tracked(s, given) && IsWalker(w) && Valid(s.fs) && !s.exited && RoundPossible(s, r)
    ensures Tracked(Outcome(s, r, w), given)
    ensures r.kept.Some? || (Coherent(s) && !Misses(s.fs, r.op)) ==> Right(Outcome(s, r, w))
  {
    hide Tracked, Valid, IsWalker, Tops, Coherent, Settle, Enabled, NewForest, NewMarks, EventsOf, Misses;
    if r.kept.Some? {
      StepTracked(s, Overrun(r.op, r.kept.value), w, given);
      SettleTracked(After(s, Overrun(r.op, r.kept.value), w), w, given);
      OverrunHeals(s, r.op, r.kept.value, w, given);
    } else {
      StepTracked(s, Operate(r.op), w, given);
      SettleTracked(Act(s, r.op), w, given);
      if Coherent(s) && !Misses(s.fs, r.op) {
        CoherentIff(s, r.op, w);
      }
    }
  }

  lemma {:induction false} RoundsTracked(s: Sys, rounds: seq<Round>, w: Walker, given: set<string>, clean: bool)
    requires Tracked(s, given) && IsWalker(w) && Valid(s.fs) && LegalRounds(s, rounds, w) && (clean ==> Right(s))
    ensures Clean(s, rounds, w, clean) ==> Right(Final(s, rounds, w))
    decreases |rounds|
  {
    hide Tracked, Valid, IsWalker, Tops, Coherent, Outcome, RoundPossible, Misses;
    if rounds != [] && !s.exited {
      var r := rounds[0];
      RoundTracked(s, r, w, given);
      RoundsTracked(Outcome(s, r, w), rounds[1..], w, given, r.kept.Some? || (clean && !Misses(s.fs, r.op)));
    }
  }

  /** Coherence over runs: it holds at the end, or the program has exited for want of roots, unless a
      rename has been mishandled and no overflow has come after it. */
  lemma RunStaysCoherent(s: Sys, rounds: seq<Round>, w: Walker)
    requires Coherent(s) && Valid(s.fs) && IsWalker(w) && !s.exited && LegalRounds(s, rounds, w)
    ensures Clean(s, rounds, w, true) ==> Right(Final(s, rounds, w))
  {
    hide Valid, Tracked, IsWalker, Coherent, Tops, LegalRounds, Final, Clean, Live, GivenOk;
    var given := set n | n in Live(s.fs) :: Live(s.fs)[n];
    GivenBySelf(s.fs);
    CoherentTracked(s, given);
    RoundsTracked(s, rounds, w, given, true);
  }

  /** From the start of the program on: the first build of the cache is coherent. */
  lemma ProgramStaysCoherent(fs: Forest, roots: seq<Option<string>>, rounds: seq<Round>, w: Walker)
    requires Valid(fs) && RootsOk(fs, roots) && IsWalker(w) && LegalRounds(Started(fs, roots, w), rounds, w)
    ensures Clean(Started(fs, roots, w), rounds, w, true) ==> Right(Final(Started(fs, roots, w), rounds, w))
  {
    hide Valid, IsWalker, Coherent, Tops, LegalRounds, Final, Clean, RootsOk, Reinit;
    ReinitRestores(Sys(fs, map[], 1, [], [], roots, false), w);
    RunStaysCoherent(Started(fs, roots, w), rounds, w);
  }
}
