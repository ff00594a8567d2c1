/** What inotify_dtree.c makes of the rename of a directory that a root lies below: no watch is on it,
    so that the program does not learn that the pathnames in its cache have become false. */
module DtreeAncestors {
  import opened Common
  import opened Paths
  import opened DirForest
  import opened Inotify
  import opened SlotCache
  import opened DtreeSpec
  import opened DtreeCoherence
  import opened DtreeSteps

  // ---- a walk takes nothing back ----

  ghost predicate Sound(s: Sys) {
    && Valid(s.fs) && SlotsOk(s.cache) && MarksOk(s.marks, s.nextWd) && s.nextWd >= 1
    && forall x :: x in Entries(s.cache) ==> 1 <= x < s.nextWd
  }

  /** `t` has the watches and the cached pairs of `s`, and maybe more. */
  ghost predicate Extends(s: Sys, t: Sys) {
    && Sound(t) && t.fs == s.fs && t.roots == s.roots && t.exited == s.exited && t.pending == s.pending
    && (forall x :: x in Entries(s.cache) ==> x in Entries(t.cache) && Entries(t.cache)[x] == Entries(s.cache)[x])
    && (forall n :: n in s.marks ==> n in t.marks && t.marks[n].wd == s.marks[n].wd)
  }

  lemma WatchOneExtends(s: Sys, n: Dir)
    requires Sound(s)
    ensures Extends(s, WatchOne(s, n))
  {
    hide Valid, Tree, SlotsOk, IsRoot, Entries, FirstWith, Added;
    if n in Tree(s.fs) {
      var wd := if n in s.marks then s.marks[n].wd else s.nextWd;
      EntryIsSlot(s.cache, wd);
      if wd !in Entries(s.cache) {
        AddRefines(s.cache, wd, Tree(s.fs)[n]);
      }
    }
  }

  lemma {:induction false} WatchEachExtends(s: Sys, order: seq<Dir>)
    requires Sound(s)
    ensures Extends(s, WatchEach(s, order))
    decreases |order|
  {
    hide Valid, Tree, SlotsOk, Entries, WatchOne, MarksOk;
    if order != [] {
      WatchOneExtends(s, order[0]);
      WatchEachExtends(WatchOne(s, order[0]), order[1..]);
    }
  }

  // ---- the events of the rename ----

  /** The directories watched in `s` but for the replaced one still are in `t`, and the cache has the
      pathnames that they had. */
  ghost predicate Retains(s: Sys, t: Sys, victim: Option<Dir>)
    requires Valid(s.fs)
  {
    && Sound(t) && !t.exited
    && (forall n :: n in s.marks && victim != Some(n) ==>
          n in Tree(s.fs) && n in t.marks && t.marks[n].wd == s.marks[n].wd)
    && (forall n :: n in s.marks && victim != Some(n) ==>
          s.marks[n].wd in Entries(t.cache) && Entries(t.cache)[s.marks[n].wd] == Tree(s.fs)[n])
  }

  /** The cache still has the replaced directory, if it was watched. */
  ghost predicate HasVictim(s: Sys, t: Sys, victim: Option<Dir>)
    requires Valid(s.fs)
  {
    victim.Some? && victim.value in s.marks ==>
      && victim.value in Tree(s.fs) && s.marks[victim.value].wd in Entries(t.cache)
      && Entries(t.cache)[s.marks[victim.value].wd] == Tree(s.fs)[victim.value]
  }

  lemma CoherentFacts(s: Sys)
    requires Coherent(s)
    ensures Valid(s.fs) && RootsOk(s.fs, s.roots) && MarksOk(s.marks, s.nextWd) && s.marks.Keys == Tree(s.fs).Keys
    ensures forall n :: n in s.marks <==> n in Tree(s.fs)
  {
    assert s.marks.Keys == Tree(s.fs).Keys by {
      hide Valid, Tree, Tops, RootsOk, SlotsOk, Entries;
    }
    assert forall n :: n in s.marks <==> n in s.marks.Keys;
  }

  lemma CachedTruth(t: Sys, n: Dir)
    requires Coherent(t) && n in t.marks
    ensures Valid(t.fs) && n in Tree(t.fs) && t.marks[n].wd in Entries(t.cache)
    ensures Entries(t.cache)[t.marks[n].wd] == Tree(t.fs)[n]
  {
    CoherentFacts(t);
    hide Valid, Tree, Tops, Entries, SlotsOk, RootsOk;
  }

  lemma StartSound(s: Sys, t: Sys)
    requires Coherent(s) && Valid(t.fs) && t.cache == s.cache && t.nextWd == s.nextWd
    requires forall n :: n in t.marks ==> n in s.marks && t.marks[n] == s.marks[n]
    ensures Sound(t)
  {
    hide Valid, Tree, Tops, RootsOk, SlotsOk, Entries;
    assert forall x :: x in Entries(s.cache) ==> x in Entries(s.cache).Keys;
  }

  lemma StartRetains(s: Sys, t: Sys, victim: Option<Dir>)
    requires Coherent(s) && Valid(s.fs) && Valid(t.fs) && !t.exited
    requires t.cache == s.cache && t.nextWd == s.nextWd
    requires t.marks == if victim.Some? then s.marks - {victim.value} else s.marks
    ensures Retains(s, t, victim) && HasVictim(s, t, victim)
  {
    hide Valid, Inv, Tree, Entries, Sound;
    StartSound(s, t);
    forall n | n in s.marks
      ensures n in Tree(s.fs) && s.marks[n].wd in Entries(t.cache) && Entries(t.cache)[s.marks[n].wd] == Tree(s.fs)[n]
    {
      CachedTruth(s, n);
    }
  }

  lemma ActRetains(s: Sys, op: Op)
    requires Coherent(s) && Valid(s.fs) && !s.exited && op.RenameOp? && Enabled(s.fs, op)
    ensures Retains(s, Act(s, op), op.victim) && HasVictim(s, Act(s, op), op.victim)
    ensures Act(s, op).roots == s.roots && Act(s, op).fs == NewForest(s.fs, op)
  {
    hide Valid, Coherent, Retains, HasVictim, Enabled, NewForest, EventsOf;
    StartRetains(s, Act(s, op), op.victim);
  }

  lemma RetainsExtends(s: Sys, t: Sys, u: Sys, victim: Option<Dir>)
    requires Valid(s.fs) && Retains(s, t, victim) && HasVictim(s, t, victim) && Extends(t, u)
    ensures Retains(s, u, victim) && HasVictim(s, u, victim)
  {
    hide Valid, Tree, Entries, SlotsOk;
  }

  lemma RetainsPending(s: Sys, t: Sys, u: Sys, victim: Option<Dir>)
    requires Valid(s.fs) && u == t.(pending := u.pending)
    ensures Retains(s, t, victim) ==> Retains(s, u, victim)
    ensures HasVictim(s, t, victim) ==> HasVictim(s, u, victim)
  {
    hide Valid, Tree, Entries, SlotsOk;
  }

  /** The arrival in a monitored directory. */
  lemma ArrivalRetains(s: Sys, t: Sys, w: Walker, victim: Option<Dir>)
    requires Valid(s.fs) && Retains(s, t, victim) && HasVictim(s, t, victim)
    requires t.pending != [] && t.pending[0].isDir && t.pending[0].kind.MovedTo? && Known(t.cache, t.pending[0].wd)
    ensures var u := Next(t, w);
      && Retains(s, u, victim) && HasVictim(s, u, victim)
      && u.pending == t.pending[1..] && u.roots == t.roots && u.fs == t.fs
  {
    var p := Join(PathAt(t.cache, t.pending[0].wd), t.pending[0].name);
    var rest := t.(pending := t.pending[1..]);
    assert Valid(t.fs);
    assert Next(t, w) == if HasPath(t.cache, p) then rest else WatchSubtree(rest, w, p) by {
      hide Valid, WatchSubtree, HasPath, Join;
    }
    hide Valid, Retains, HasVictim, WatchEach, HasPath, Next;
    RetainsPending(s, t, rest, victim);
    if !HasPath(t.cache, p) {
      assert Sound(rest) by { RetainsSound(s, rest, victim); }
      WatchEachExtends(rest, w(rest.fs, p));
      RetainsExtends(s, rest, WatchSubtree(rest, w, p), victim);
    }
  }

  lemma RetainsSound(s: Sys, t: Sys, victim: Option<Dir>)
    requires Valid(s.fs) && Retains(s, t, victim)
    ensures Sound(t) && !t.exited && Valid(t.fs)
  {
  }

  lemma DeletionNext(s: Sys, w: Walker)
    requires Valid(s.fs) && !s.exited && s.pending != [] && s.pending[0].kind.DeleteSelf?
    requires Known(s.cache, s.pending[0].wd)
    requires var q := PathAt(s.cache, s.pending[0].wd); IsRoot(s.roots, q) ==> !ZapRoot(s, q).exited
    ensures var t := Next(s, w);
      t == s.(pending := s.pending[1..], cache := MarkEmpty(s.cache, s.pending[0].wd), roots := t.roots)
  {
    hide Valid, Reinit, ZapSubtree, WatchSubtree, IsRoot, FirstRoot, Rewritten;
  }

  lemma MarkEmptyRetains(s: Sys, t: Sys, v: Dir)
    requires Valid(s.fs) && MarksOk(s.marks, s.nextWd) && Retains(s, t, Some(v)) && HasVictim(s, t, Some(v))
    requires v in s.marks
    ensures Known(t.cache, s.marks[v].wd) && PathAt(t.cache, s.marks[v].wd) == Tree(s.fs)[v]
    ensures forall u: Sys ::
              u == t.(pending := u.pending, roots := u.roots, cache := MarkEmpty(t.cache, s.marks[v].wd)) ==>
              Retains(s, u, Some(v))
  {
    hide Valid, Tree, SlotsOk, Entries, FirstWith;
    var x := s.marks[v].wd;
    EntryIsSlot(t.cache, x);
    MarkRefines(t.cache, FirstWith(t.cache, x));
  }

  /** The replaced directory's own event; some other root's pathname is on the list still. */
  lemma DeletionRetains(s: Sys, t: Sys, w: Walker, v: Dir, r: Dir)
    requires Valid(s.fs) && MarksOk(s.marks, s.nextWd) && Retains(s, t, Some(v)) && HasVictim(s, t, Some(v))
    requires v in s.marks
    requires v in Tree(s.fs) && r in Tree(s.fs) && r != v && IsRoot(t.roots, Tree(s.fs)[r])
    requires t.pending != [] && t.pending[0] == Event(s.marks[v].wd, DeleteSelf, true, 0, "")
    ensures Valid(t.fs)
    ensures var u := Next(t, w); Retains(s, u, Some(v)) && u.pending == t.pending[1..] && u.fs == t.fs
  {
    RetainsSound(s, t, Some(v));
    TreeInjective(s.fs);
    hide Valid, Tree, Retains, HasVictim, MarksOk, IsRoot, ZapRoot, Known, PathAt, MarkEmpty, Next;
    MarkEmptyRetains(s, t, v);
    ListedStays(t.roots, Tree(s.fs)[v], Tree(s.fs)[r]);
    DeletionNext(t, w);
  }

  lemma ListedStays(roots: seq<Option<string>>, q: string, p: string)
    requires IsRoot(roots, p) && p != q
    ensures forall s: Sys :: s.roots == roots && IsRoot(roots, q) && !s.exited ==> !ZapRoot(s, q).exited
  {
    forall s: Sys | s.roots == roots && IsRoot(roots, q) && !s.exited
      ensures !ZapRoot(s, q).exited
    {
      var k :| 0 <= k < |roots| && roots[k] == Some(p);
      assert ZapRoot(s, q).roots[k] == Some(p);
    }
  }

  // ---- the rename as a whole ----

  lemma ArrivalEvents(fs: Forest, marks: Marks, op: Op)
    requires op.RenameOp? && op.n in fs.up && op.n !in marks
    requires fs.up[op.n].In? ==> fs.up[op.n].parent !in marks
    ensures EventsOf(fs, marks, op) ==
            (if op.dest.In? && op.dest.parent in marks then
               [Event(marks[op.dest.parent].wd, MovedTo, true, op.cookie, op.dest.name)] else []) +
            (if op.victim.Some? && op.victim.value in marks then GoneEvents(Some(marks[op.victim.value].wd)) else [])
  {
  }

  lemma RenamedExists(fs: Forest, op: Op)
    requires Valid(fs) && op.RenameOp? && Enabled(fs, op)
    ensures op.n in fs.up && (op.dest.In? ==> op.dest.parent in fs.up)
    ensures op.victim.Some? ==> op.dest.In? && op.dest.parent != op.victim.value
  {
    if op.victim.Some? {
      VictimOutside(fs, op);
    }
  }

  /** No watch is on the directory that is renamed, so at most its arrival is reported. */
  lemma AncestorEvents(s: Sys, op: Op)
    requires Coherent(s) && Valid(s.fs) && op.RenameOp? && Enabled(s.fs, op) && AboveRoot(s.fs, op.n)
    ensures op.n !in Tree(s.fs)
    ensures Act(s, op).pending ==
            (if op.dest.In? && op.dest.parent in s.marks then
               [Event(s.marks[op.dest.parent].wd, MovedTo, true, op.cookie, op.dest.name)] else []) +
            (if op.victim.Some? && op.victim.value in s.marks then
               GoneEvents(Some(s.marks[op.victim.value].wd)) else [])
  {
    hide Enabled, Valid, Inv, Tree, NewForest, AboveRoot, EventsOf;
    RenamedExists(s.fs, op);
    AboveRootUnmonitored(s.fs, op.n);
    ParentInTree(s.fs, op.n);
    CoherentFacts(s);
    ArrivalEvents(s.fs, s.marks, op);
  }

  lemma BuriedRoot(s: Sys, op: Op) returns (r: Dir)
    requires Coherent(s) && Valid(s.fs) && op.RenameOp? && Enabled(s.fs, op) && AboveRoot(s.fs, op.n)
    ensures RootBelow(s.fs, r, op.n) && r in Tops(s.fs) && r in Tree(s.fs) && r in s.marks
    ensures IsRoot(s.roots, Tree(s.fs)[r]) && op.victim != Some(r)
  {
    CoherentFacts(s);
    TopsInTree(s.fs);
    r :| RootBelow(s.fs, r, op.n);
    hide PathOf, Within, Tree, LinksOk, Coherent, IsRoot, Free, Childless;
    assert r in Tops(s.fs);
    if op.victim.Some? {
      VictimOutside(s.fs, op);
    }
  }

  lemma WatchedIsKnown(s: Sys, t: Sys, victim: Option<Dir>, d: Dir)
    requires Valid(s.fs) && MarksOk(s.marks, s.nextWd) && Retains(s, t, victim) && d in s.marks && victim != Some(d)
    ensures Known(t.cache, s.marks[d].wd)
  {
    hide Valid, Tree, SlotsOk, Entries, FirstWith;
    EntryIsSlot(t.cache, s.marks[d].wd);
  }

  /** What is left to handle is the deletion of the replaced directory, if that was watched. */
  lemma TailRetains(s: Sys, t: Sys, w: Walker, victim: Option<Dir>, r: Dir)
    requires Valid(s.fs) && MarksOk(s.marks, s.nextWd) && Retains(s, t, victim) && HasVictim(s, t, victim)
    requires r in Tree(s.fs) && victim != Some(r) && IsRoot(t.roots, Tree(s.fs)[r])
    requires t.pending ==
             if victim.Some? && victim.value in s.marks then GoneEvents(Some(s.marks[victim.value].wd)) else []
    ensures Valid(t.fs)
    ensures var u := Settle(t, w); u.pending == [] && u.fs == t.fs && Retains(s, u, victim)
  {
    RetainsSound(s, t, victim);
    if victim.Some? && victim.value in s.marks {
      assert victim.value in Tree(s.fs);
      hide Valid, Tree, Retains, HasVictim, MarksOk, IsRoot, Next, Settle;
      DeletionRetains(s, t, w, victim.value, r);
      OneStep(t, w);
      var u := Next(t, w);
      RetainsSound(s, u, victim);
      SettleIgnored(u, w);
      RetainsPending(s, u, u.(pending := []), victim);
    } else {
      SettleStops(t, w);
    }
  }

  lemma SettleIgnored(s: Sys, w: Walker)
    requires Valid(s.fs) && !s.exited && |s.pending| == 1 && s.pending[0].kind.Ignored?
    ensures Settle(s, w) == s.(pending := [])
  {
    assert Noisy(s.pending) == 0 by {
      assert s.pending[1..] == [];
    }
    SettleQuiet(s, w);
  }

  /** Whatever lies where, the program goes on with the watches and the pathnames it had, and rather
      than exiting keeps the root's pathname on its list. */
  lemma AncestorMoved(s: Sys, op: Op, w: Walker)
    requires Coherent(s) && Valid(s.fs) && !s.exited && op.RenameOp? && Enabled(s.fs, op) && AboveRoot(s.fs, op.n)
    ensures var t := Settle(Act(s, op), w);
      t.pending == [] && t.fs == NewForest(s.fs, op) && Retains(s, t, op.victim)
  {
    hide Enabled, Valid, Coherent, Tree, Tops, RootsOk, AboveRoot, RootBelow, NewForest, EventsOf, Retains,
         HasVictim, Next,
         Settle, Act, MarksOk, IsRoot, GoneEvents, Known, PathAt;
    CoherentFacts(s);
    var r := BuriedRoot(s, op);
    RenamedExists(s.fs, op);
    ActRetains(s, op);
    AncestorEvents(s, op);
    var t, v := Act(s, op), op.victim;
    if op.dest.In? && op.dest.parent in s.marks {
      ArrivalHandled(s, t, w, v, op.dest.parent);
      TailRetains(s, Next(t, w), w, v, r);
    } else {
      TailRetains(s, t, w, v, r);
    }
  }

  lemma ArrivalHandled(s: Sys, t: Sys, w: Walker, victim: Option<Dir>, d: Dir)
    requires Valid(s.fs) && MarksOk(s.marks, s.nextWd) && Retains(s, t, victim) && HasVictim(s, t, victim)
    requires d in s.marks && victim != Some(d) && t.pending != []
    requires t.pending[0].wd == s.marks[d].wd && t.pending[0].kind.MovedTo? && t.pending[0].isDir
    ensures Valid(t.fs)
    ensures var u := Next(t, w);
      && Retains(s, u, victim) && HasVictim(s, u, victim) && Settle(t, w) == Settle(u, w)
      && u.pending == t.pending[1..] && u.roots == t.roots && u.fs == t.fs
  {
    hide Valid, Retains, HasVictim, Next, Settle, MarksOk, Known;
    RetainsSound(s, t, victim);
    WatchedIsKnown(s, t, victim, d);
    OneStep(t, w);
    ArrivalRetains(s, t, w, victim);
  }

  // ---- what that leaves wrong ----

  /** A root below what is renamed is an ordinary directory there when the rename takes place. */
  lemma BuriedInGround(fs: Forest, op: Op, r: Dir)
    requires Valid(fs) && op.RenameOp? && Enabled(fs, op) && RootBelow(fs, r, op.n) && op.victim != Some(r)
    ensures Valid(Ground(fs, op)) && r in Subtree(Ground(fs, op), op.n)
    ensures forall k :: k in Tops(Ground(fs, op)) ==> k != r && k in Tops(fs) && Ground(fs, op).up[k] == fs.up[k]
  {
    var c := Cleared(fs, op.victim);
    GroundOk(fs, op);
    ClearedOk(fs, op);
    hide Valid, PathOf, Within, AboveRoot, LinksOk;
    if op.victim.Some? {
      RmdirPath(fs, op.victim.value, r);
    }
    assert RootBelow(c, r, op.n);
    UprootedValid(c, op.n);
    UprootedWithin(c, op.n, r, op.n);
    WithinIsUnder(Ground(fs, op), r, op.n);
  }

  lemma BelowThroughParent(p: string, dir: string, name: string, top: string)
    requires IsName(name) && AtOrBelow(p, Join(dir, name)) && AtOrBelow(dir, top)
    ensures AtOrBelow(p, top)
  {
    BelowOneComponent(dir, name, top);
    AtOrBelowTransitive(p, Join(dir, name), top);
  }

  /** The root that lay below is now not monitored, or monitored under the pathname of another root. */
  lemma BuriedRootMoved(fs: Forest, op: Op, r: Dir)
    requires Valid(fs) && op.RenameOp? && Enabled(fs, op) && RootBelow(fs, r, op.n) && r in Tree(fs)
    requires op.victim != Some(r)
    ensures r in Tree(NewForest(fs, op)) ==> Tree(NewForest(fs, op))[r] != Tree(fs)[r]
  {
    GroundOk(fs, op);
    var g, t := Ground(fs, op), NewForest(fs, op);
    BuriedInGround(fs, op, r);
    RelinkTree(g, op.n, op.dest);
    CanRelinkStays(g, op.n, op.dest);
    SubtreeMonitored(t, op.n);
    if r in Tree(t) {
      TreeBelow(t, op.n);
      var top := TreeHasTop(g, op.dest.parent);
      BelowThroughParent(Tree(t)[r], Tree(g)[op.dest.parent], op.dest.name, Tree(g)[top]);
      RootsApart(fs, g, r, top);
    }
  }

  lemma CanRelinkStays(fs: Forest, n: Dir, dest: Link)
    requires Valid(fs) && CanRelink(fs, n, dest)
    ensures n in Relink(fs, n, dest).up
  {
  }

  lemma RootsApart(fs: Forest, g: Forest, r: Dir, top: Dir)
    requires Valid(fs) && Valid(g) && r in Tops(fs) && top in Tops(g) && top != r
    requires top in Tops(fs) && g.up[top] == fs.up[top]
    ensures r in Tree(fs) && top in Tree(g) && !AtOrBelow(Tree(fs)[r], Tree(g)[top])
  {
    TopsInTree(fs);
    TopsInTree(g);
  }

  /** So the cache is wrong about that root. */
  lemma AncestorIncoherent(s: Sys, op: Op, t: Sys)
    requires Coherent(s) && Valid(s.fs) && op.RenameOp? && Enabled(s.fs, op) && AboveRoot(s.fs, op.n)
    requires t.fs == NewForest(s.fs, op) && Retains(s, t, op.victim)
    ensures !Coherent(t)
  {
    var r := BuriedRoot(s, op);
    BuriedRootMoved(s.fs, op, r);
    RetainsOne(s, t, op.victim, r);
    if Coherent(t) {
      CoherentFacts(t);
      CachedTruth(t, r);
    }
  }

  lemma RetainsOne(s: Sys, t: Sys, victim: Option<Dir>, n: Dir)
    requires Valid(s.fs) && Retains(s, t, victim) && n in s.marks && victim != Some(n)
    ensures n in Tree(s.fs) && n in t.marks && t.marks[n].wd in Entries(t.cache)
    ensures Entries(t.cache)[t.marks[n].wd] == Tree(s.fs)[n]
  {
    hide Valid, Tree, Entries, SlotsOk;
  }
}
