/** What one round of event processing in inotify_dtree.c does, as a function on the state of
    the program together with the kernel. */
module DtreeSpec {
  import opened Common
  import opened Paths
  import opened DirForest
  import opened Inotify
  import opened SlotCache

  /** The order in which nftw() visits the directories at or below a pathname. */
  type Walker = (Forest, string) -> seq<Dir>

  /** nftw() reports every directory at or below the pathname, once, and nothing else. */
  ghost predicate Visits(order: seq<Dir>, fs: Forest, p: string)
    requires Valid(fs)
  {
    && NoDup(order)
    && (forall n :: n in order <==> n in Tree(fs) && AtOrBelow(Tree(fs)[n], p))
  }

  ghost predicate IsWalker(w: Walker) {
    forall fs: Forest, p: string :: Valid(fs) ==> Visits(w(fs, p), fs, p)
  }

  lemma {:induction false} SetInOrder<T>(a: set<T>) returns (order: seq<T>)
    ensures NoDup(order) && forall n :: n in order <==> n in a
  {
    if a == {} {
      order := [];
    } else {
      var n :| n in a;
      var rest := SetInOrder(a - {n});
      order := [n] + rest;
    }
  }

  lemma SomeVisit(fs: Forest, p: string)
    requires Valid(fs)
    ensures exists order :: Visits(order, fs, p)
  {
    hide Valid, Tree, AtOrBelow;
    var order := SetInOrder(set n | n in Tree(fs) && AtOrBelow(Tree(fs)[n], p));
    assert Visits(order, fs, p);
  }

  ghost function AnyVisit(fs: Forest, p: string): (order: seq<Dir>)
    ensures Valid(fs) ==> Visits(order, fs, p)
  {
    if Valid(fs) then
      SomeVisit(fs, p);
      var order :| Visits(order, fs, p);
      order
    else []
  }

  /** Such walkers exist. */
  lemma WalkerExists() returns (w: Walker)
    ensures IsWalker(w)
  {
    w := (fs, p) => AnyVisit(fs, p);
  }

  /** `pending` holds the events not yet handled: the rest of the read buffer, then the kernel's
      queue. `roots` is the list of command-line pathnames, None once zapped. */
  datatype Sys = Sys(fs: Forest, marks: Marks, nextWd: int, pending: seq<Event>,
                     cache: seq<Slot>, roots: seq<Option<string>>, exited: bool)

  predicate IsRoot(roots: seq<Option<string>>, p: string) {
    Some(p) in roots
  }

  function FirstRoot(roots: seq<Option<string>>, p: string): (j: nat)
    ensures j <= |roots| && (j < |roots| ==> roots[j] == Some(p))
    ensures forall k :: 0 <= k < j ==> roots[k] != Some(p)
  {
    if roots == [] || roots[0] == Some(p) then 0 else 1 + FirstRoot(roots[1..], p)
  }

  /** The program exits when its last root pathname is zapped. */
  function ZapRoot(s: Sys, p: string): (t: Sys)
    requires IsRoot(s.roots, p)
    ensures t == s.(roots := t.roots, exited := t.exited)
  {
    var roots := s.roots[FirstRoot(s.roots, p) := None];
    s.(roots := roots, exited := forall j :: 0 <= j < |roots| ==> roots[j].None?)
  }

  // ---- watching ----

  /** traverseTree() on one directory; inotify_add_watch() on a watched directory returns the
      descriptor it already has and replaces its mask. */
  ghost function WatchOne(s: Sys, n: Dir): Sys
    requires Valid(s.fs)
  {
    if n !in Tree(s.fs) then s
    else
      var p := Tree(s.fs)[n];
      var known := n in s.marks;
      var wd := if known then s.marks[n].wd else s.nextWd;
      var t := s.(marks := s.marks[n := Mark(wd, IsRoot(s.roots, p))],
                  nextWd := if known then s.nextWd else s.nextWd + 1);
      if FirstWith(s.cache, wd) < |s.cache| then t else t.(cache := Added(s.cache, wd, p))
  }

  ghost function WatchEach(s: Sys, order: seq<Dir>): (t: Sys)
    requires Valid(s.fs)
    ensures t.fs == s.fs && t.roots == s.roots && t.pending == s.pending && t.exited == s.exited
    decreases |order|
  {
    if order == [] then s else WatchEach(WatchOne(s, order[0]), order[1..])
  }

  ghost function WatchSubtree(s: Sys, w: Walker, p: string): (t: Sys)
    requires Valid(s.fs)
    ensures t.fs == s.fs && t.roots == s.roots && t.pending == s.pending && t.exited == s.exited
  {
    WatchEach(s, w(s.fs, p))
  }

  ghost function WatchRoots(s: Sys, w: Walker, j: nat): (t: Sys)
    requires Valid(s.fs) && j <= |s.roots|
    ensures t.fs == s.fs && t.roots == s.roots && t.pending == s.pending && t.exited == s.exited
    decreases |s.roots| - j
  {
    if j == |s.roots| then s
    else if s.roots[j].None? then WatchRoots(s, w, j + 1)
    else WatchRoots(WatchSubtree(s, w, s.roots[j].value), w, j + 1)
  }

  /** A new inotify instance, an empty cache, every remaining root watched afresh; the events
      of the old instance are lost with it. */
  ghost function Reinit(s: Sys, w: Walker): (t: Sys)
    requires Valid(s.fs)
    ensures t.fs == s.fs && t.roots == s.roots && t.pending == [] && t.exited == s.exited
  {
    WatchRoots(s.(marks := map[], nextWd := 1, pending := [], cache := []), w, 0)
  }

  // ---- handling ----

  /** inotify_rm_watch() fails on a descriptor that the kernel has dropped, even if that was
      because the same descriptor was zapped already. */
  ghost predicate ZapFails(s: Sys, p: string) {
    || !NoDup(ZapList(s.cache, p))
    || exists wd :: wd in ZapList(s.cache, p) && wd !in WatchedWds(s.marks)
  }

  ghost function ZapSubtree(s: Sys, w: Walker, p: string): (t: Sys)
    requires Valid(s.fs)
    ensures t.fs == s.fs && t.roots == s.roots && t.exited == s.exited
  {
    if ZapFails(s, p) then Reinit(s, w)
    else
      var wds := ZapList(s.cache, p);
      s.(marks := WithoutWds(s.marks, set wd | wd in wds),
         pending := s.pending + IgnoredEvents(wds),
         cache := Zapped(s.cache, p))
  }

  function PathAt(c: seq<Slot>, wd: int): string
    requires FirstWith(c, wd) < |c|
  {
    c[FirstWith(c, wd)].path
  }

  predicate Known(c: seq<Slot>, wd: int) {
    wd >= 0 && FirstWith(c, wd) < |c|
  }

  predicate HasPath(c: seq<Slot>, p: string) {
    exists j :: 0 <= j < |c| && Used(c[j]) && c[j].path == p
  }

  function MarkEmpty(c: seq<Slot>, wd: int): seq<Slot>
    requires FirstWith(c, wd) < |c|
  {
    c[FirstWith(c, wd) := UNUSED]
  }

  /** A rename is recognized when the matching MovedTo is the very next event. */
  predicate Paired(ev: Event, rest: seq<Event>) {
    rest != [] && rest[0].kind.MovedTo? && rest[0].cookie == ev.cookie
  }

  /** processNextInotifyEvent() on the first pending event (or on the first two). */
  ghost function Next(s: Sys, w: Walker): (t: Sys)
    requires Valid(s.fs) && s.pending != []
    ensures t.fs == s.fs
  {
    var ev, rest := s.pending[0], s.pending[1..];
    var u := s.(pending := rest);
    if ev.kind.Ignored? then u
    else if ev.kind.Overflow? then Reinit(s, w)
    else if !Known(s.cache, ev.wd) then Reinit(s, w)
    else
      var p := PathAt(s.cache, ev.wd);
      if ev.isDir && (ev.kind.Create? || ev.kind.MovedTo?) then
        if HasPath(s.cache, Join(p, ev.name)) then u else WatchSubtree(u, w, Join(p, ev.name))
      else if ev.kind.DeleteSelf? then
        if !IsRoot(s.roots, p) then u.(cache := MarkEmpty(s.cache, ev.wd))
        else
          var z := ZapRoot(u, p);
          if z.exited then z else z.(cache := MarkEmpty(s.cache, ev.wd))
      else if ev.isDir && ev.kind.MovedFrom? then
        if !Paired(ev, rest) then ZapSubtree(u, w, Join(p, ev.name))
        else if !Known(s.cache, rest[0].wd) then Reinit(s, w)
        else
          u.(pending := rest[1..],
             cache := Rewritten(s.cache, Join(p, ev.name), Join(PathAt(s.cache, rest[0].wd), rest[0].name)))
      else if ev.kind.Unmount? then u.(cache := MarkEmpty(s.cache, ev.wd))
      else if ev.kind.MoveSelf? && IsRoot(s.roots, p) then
        var z := ZapRoot(u, p);
        if z.exited then z else ZapSubtree(z, w, p)
      else u
  }

  // ---- termination: ignored events are the only ones that handling an event adds ----

  function Noisy(evs: seq<Event>): nat {
    if evs == [] then 0 else (if evs[0].kind.Ignored? then 0 else 1) + Noisy(evs[1..])
  }

  lemma {:induction false} NoisyConcat(a: seq<Event>, b: seq<Event>)
    ensures Noisy(a + b) == Noisy(a) + Noisy(b)
  {
    if a == [] {
      assert a + b == b;
    } else {
      assert (a + b)[1..] == a[1..] + b;
      NoisyConcat(a[1..], b);
    }
  }

  lemma {:induction false} IgnoredIsQuiet(wds: seq<int>)
    ensures Noisy(IgnoredEvents(wds)) == 0
  {
    if wds != [] {
      assert IgnoredEvents(wds)[1..] == IgnoredEvents(wds[1..]);
      IgnoredIsQuiet(wds[1..]);
    }
  }

  lemma ZapProgress(s: Sys, w: Walker, p: string)
    requires Valid(s.fs)
    ensures var t := ZapSubtree(s, w, p);
      Noisy(t.pending) == Noisy(s.pending) || t.pending == []
  {
    hide Valid, Reinit, Zapped, ZapList;
    var wds := ZapList(s.cache, p);
    NoisyConcat(s.pending, IgnoredEvents(wds));
    IgnoredIsQuiet(wds);
  }

  lemma NoisyHead(evs: seq<Event>)
    requires evs != []
    ensures Noisy(evs) == (if evs[0].kind.Ignored? then 0 else 1) + Noisy(evs[1..])
    ensures Noisy([]) == 0
  {
  }

  /** Each step consumes at least one event, and the events it adds ask for no work. */
  lemma NextProgress(s: Sys, w: Walker)
    requires Valid(s.fs) && s.pending != []
    ensures var t := Next(s, w);
      || Noisy(t.pending) < Noisy(s.pending)
      || (Noisy(t.pending) == Noisy(s.pending) && |t.pending| < |s.pending|)
  {
    hide Valid, Reinit, ZapSubtree, WatchSubtree, Rewritten, MarkEmpty, HasPath, IsRoot, FirstWith, PathAt, Noisy;
    NoisyHead(s.pending);
    if |s.pending| > 1 {
      NoisyHead(s.pending[1..]);
    }
    var ev, u := s.pending[0], s.(pending := s.pending[1..]);
    if Known(s.cache, ev.wd) {
      var p := PathAt(s.cache, ev.wd);
      ZapProgress(u, w, Join(p, ev.name));
      if IsRoot(s.roots, p) {
        ZapProgress(ZapRoot(u, p), w, p);
      }
    }
  }

  /** The main loop, until no event is left or the program exits. */
  ghost function Settle(s: Sys, w: Walker): (t: Sys)
    requires Valid(s.fs)
    ensures t.fs == s.fs && (t.pending == [] || t.exited)
    decreases Noisy(s.pending), |s.pending|
  {
    if s.pending == [] || s.exited then s
    else
      NextProgress(s, w);
      Settle(Next(s, w), w)
  }

  /** The kernel carries out `op` and queues its events. */
  ghost function Act(s: Sys, op: Op): (t: Sys)
    requires Valid(s.fs) && Enabled(s.fs, op)
    ensures Valid(t.fs)
  {
    s.(fs := NewForest(s.fs, op), marks := NewMarks(s.marks, op),
       pending := s.pending + EventsOf(s.fs, s.marks, op))
  }
}
