/** inotify_dtree.c itself: the slot array, the root list and the read buffer, updated in place
    by loops, on top of a kernel object. Each method is tied to the functions of DtreeSpec. */
module DtreeProgram {
  import opened Common
  import opened Paths
  import opened DirForest
  import opened Inotify
  import opened SlotCache
  import opened DtreeSpec
  import opened DtreeCoherence
  import opened DtreeSteps
  import opened DtreeRuns
  import DtreeRecovery
  import DtreeExit

  const READ_BUF_LEN := 100 * (HEADER + NAME_MAX + 1)
  const MAX_EVENT := HEADER + NAME_MAX + 1

  ghost predicate EventsOk(evs: seq<Event>) {
    forall i :: 0 <= i < |evs| ==> EventOk(evs[i])
  }

  /** The inotify instance and the directory tree. */
  class Kernel {
    var fs: Forest
    var marks: Marks
    var nextWd: int
    var queue: seq<Event>
    const walk: Walker

    constructor (fs: Forest, walk: Walker)
      ensures this.fs == fs && this.walk == walk && marks == map[] && nextWd == 1 && queue == []
    {
      this.fs, this.walk, marks, nextWd, queue := fs, walk, map[], 1, [];
    }

    /** inotify_add_watch(): fails with ENOENT, which is -1 here, if there is no such directory. */
    method AddWatch(path: string, moveSelf: bool) returns (wd: int)
      requires DirForest.Valid(fs) && Descriptors(marks, nextWd)
      modifies this`marks, this`nextWd
      ensures Descriptors(marks, nextWd) && (wd == -1 <==> !Exists(fs, path))
      ensures !Exists(fs, path) ==> marks == old(marks) && nextWd == old(nextWd)
      ensures forall n :: n in Tree(fs) && Tree(fs)[n] == path ==>
                && wd == (if n in old(marks) then old(marks)[n].wd else old(nextWd))
                && marks == old(marks)[n := Mark(wd, moveSelf)]
                && nextWd == if n in old(marks) then old(nextWd) else old(nextWd) + 1
    {
      TreeInjective(fs);
      if d :| d in Tree(fs) && Tree(fs)[d] == path {
        if d in marks {
          wd := marks[d].wd;
        } else {
          wd := nextWd;
          nextWd := nextWd + 1;
        }
        marks := marks[d := Mark(wd, moveSelf)];
      } else {
        wd := -1;
      }
    }

    /** inotify_rm_watch(): fails if the kernel has no such watch; otherwise an ignored event follows. */
    method RmWatch(wd: int) returns (ok: bool)
      modifies this`marks, this`queue
      ensures ok <==> wd in WatchedWds(old(marks))
      ensures if ok then
                marks == WithoutWds(old(marks), {wd}) && queue == old(queue) + [Event(wd, Ignored, false, 0, "")]
              else marks == old(marks) && queue == old(queue)
      ensures forall n :: n in marks ==> n in old(marks) && marks[n] == old(marks)[n]
    {
      ok := exists n :: n in marks && marks[n].wd == wd;
      if ok {
        marks := map n | n in marks && marks[n].wd !in {wd} :: marks[n];
        queue := queue + [Event(wd, Ignored, false, 0, "")];
      }
    }

    /** close() of the old instance and inotify_init() of a new one. */
    method Renew()
      modifies this`marks, this`nextWd, this`queue
      ensures marks == map[] && nextWd == 1 && queue == []
    {
      marks, nextWd, queue := map[], 1, [];
    }

    /** read(): some of the queued events, in order, as many whole ones as the kernel pleases. */
    method Read(space: int) returns (evs: seq<Event>)
      requires queue != [] && Size(queue[0]) <= space
      modifies this`queue
      ensures evs != [] && old(queue) == evs + queue && Bytes(evs) <= space
    {
      assert Bytes(queue[..1]) == Size(queue[0]) by {
        assert queue[..1][1..] == [];
      }
      var n: nat :| 1 <= n <= |queue| && Bytes(queue[..n]) <= space;
      evs := queue[..n];
      queue := queue[n..];
    }

    /** An operation on the tree. */
    method Act(op: Op)
      requires DirForest.Valid(fs) && Enabled(fs, op)
      modifies this`fs, this`marks, this`queue
      ensures fs == NewForest(old(fs), op) && marks == NewMarks(old(marks), op)
      ensures forall n :: n in marks ==> n in old(marks) && marks[n] == old(marks)[n]
      ensures queue == old(queue) + EventsOf(old(fs), old(marks), op)
    {
      queue := queue + EventsOf(fs, marks, op);
      fs, marks := NewForest(fs, op), NewMarks(marks, op);
    }

    /** An operation on the tree, with only `kept` of its events fitting the queue. */
    method Overrun(op: Op, kept: nat)
      requires DirForest.Valid(fs) && Enabled(fs, op) && kept <= |EventsOf(fs, marks, op)|
      modifies this`fs, this`marks, this`queue
      ensures fs == NewForest(old(fs), op) && marks == NewMarks(old(marks), op)
      ensures forall n :: n in marks ==> n in old(marks) && marks[n] == old(marks)[n]
      ensures queue == old(queue) + EventsOf(old(fs), old(marks), op)[..kept] + [DtreeRecovery.LOSS]
    {
      queue := queue + EventsOf(fs, marks, op)[..kept] + [Event(-1, Overflow, false, 0, "")];
      fs, marks := NewForest(fs, op), NewMarks(marks, op);
    }
  }

  /** Watch descriptors are positive. */
  ghost predicate Descriptors(marks: Marks, nextWd: int) {
    nextWd >= 1 && forall n :: n in marks ==> marks[n].wd >= 1
  }

  predicate Exists(fs: Forest, path: string)
    requires DirForest.Valid(fs)
  {
    exists n :: n in Tree(fs) && Tree(fs)[n] == path
  }

  function NoneCount(roots: seq<Option<string>>): nat {
    if roots == [] then 0 else NoneCount(roots[..|roots| - 1]) + if roots[|roots| - 1].None? then 1 else 0
  }

  lemma {:induction false} NoneCountAll(roots: seq<Option<string>>)
    ensures NoneCount(roots) <= |roots|
    ensures NoneCount(roots) == |roots| <==> forall j :: 0 <= j < |roots| ==> roots[j].None?
  {
    if roots != [] {
      NoneCountAll(roots[..|roots| - 1]);
    }
  }

  lemma {:induction false} NoneCountZap(roots: seq<Option<string>>, j: nat)
    requires j < |roots| && roots[j].Some?
    ensures NoneCount(roots[j := None]) == NoneCount(roots) + 1
  {
    var n := |roots| - 1;
    if j == n {
      assert roots[j := None][..n] == roots[..n];
    } else {
      assert roots[j := None][..n] == roots[..n][j := None];
      NoneCountZap(roots[..n], j);
    }
  }

  /** What is left of `evs` once `n` bytes of it have been passed. */
  function After(evs: seq<Event>, n: int): seq<Event> {
    if n <= 0 || evs == [] then evs else After(evs[1..], n - Size(evs[0]))
  }

  ghost predicate Smaller(a: seq<Event>, b: seq<Event>) {
    Noisy(a) < Noisy(b) || (Noisy(a) == Noisy(b) && |a| < |b|)
  }

  lemma {:induction false} BytesConcat(a: seq<Event>, b: seq<Event>)
    ensures Bytes(a + b) == Bytes(a) + Bytes(b)
  {
    if a == [] {
      assert a + b == b;
    } else {
      assert (a + b)[1..] == a[1..] + b;
      BytesConcat(a[1..], b);
    }
  }

  lemma {:induction false} AfterAll(evs: seq<Event>, n: int)
    requires Bytes(evs) <= n
    ensures After(evs, n) == []
  {
    if evs != [] {
      AfterAll(evs[1..], n - Size(evs[0]));
    }
  }

  /** Advancing the pointer by the bytes consumed leaves exactly the events not handled. */
  lemma AfterConsumed(buf: seq<Event>, evLen: int, left: seq<Event>, bufSize: int)
    requires buf != [] && EventsOk(buf) && Consumes(buf, evLen, left) && bufSize <= READ_BUF_LEN
    requires bufSize == Bytes(buf) || (|buf| == 1 && bufSize == Bytes(buf) - 1)
    ensures After(buf, evLen) == left
    ensures if left == [] then bufSize - evLen <= 0 else bufSize - evLen == Bytes(left) > 0
  {
    if evLen == READ_BUF_LEN && left == [] {
      EventFits(buf);
      assert |buf| == 1 ==> Bytes(buf) == Size(buf[0]);
      AfterAll(buf, evLen);
    } else if |buf| >= 2 && evLen == Size(buf[0]) + Size(buf[1]) && left == buf[2..] {
      assert buf[1..][1..] == buf[2..];
      assert Bytes(buf) == Size(buf[0]) + Bytes(buf[1..]) == evLen + Bytes(buf[2..]);
      assert left != [] ==> Bytes(left) >= Size(left[0]);
      assert After(buf, evLen) == After(buf[1..], Size(buf[1])) == After(buf[2..], 0);
    } else {
      assert After(buf, evLen) == After(buf[1..], 0);
    }
  }

  lemma ZapListUsed(c: seq<Slot>, p: string)
    ensures forall i :: 0 <= i < |ZapList(c, p)| ==> ZapList(c, p)[i] >= 0
  {
  }

  lemma NextEventsOk(s: Sys, w: Walker)
    requires DirForest.Valid(s.fs) && s.pending != [] && EventsOk(s.pending)
    ensures EventsOk(Next(s, w).pending)
  {
    hide DirForest.Valid, DtreeSpec.WatchSubtree, Reinit, Rewritten, IsRoot, HasPath, ZapFails, FirstWith, PathAt,
         ZapList,
         Zapped, MarkEmpty, WithoutWds;
    if Known(s.cache, s.pending[0].wd) {
      var p := PathAt(s.cache, s.pending[0].wd);
      ZapListUsed(s.cache, p);
      ZapListUsed(s.cache, Join(p, s.pending[0].name));
    }
  }

  lemma FirstWindow(buf: seq<Event>, queue: seq<Event>)
    requires buf != [] && EventsOk(buf + queue) && Bytes(buf) <= READ_BUF_LEN
    ensures Bytes(buf) > 0 && Window(buf, Bytes(buf), true, queue)
  {
  }

  lemma WindowCounts(buf: seq<Event>, bufSize: int, firstTry: bool, queue: seq<Event>)
    requires Window(buf, bufSize, firstTry, queue)
    ensures bufSize <= READ_BUF_LEN && (bufSize == Bytes(buf) || (|buf| == 1 && bufSize == Bytes(buf) - 1))
  {
  }

  lemma WindowAgain(buf: seq<Event>, bufSize: int, queue: seq<Event>)
    requires bufSize <= READ_BUF_LEN
    requires if buf == [] then bufSize <= 0 else bufSize == Bytes(buf) > 0
    ensures bufSize > 0 ==> Window(buf, bufSize, true, queue)
  {
  }

  lemma EventFits(evs: seq<Event>)
    requires evs != [] && EventsOk(evs)
    ensures 0 < Size(evs[0]) <= MAX_EVENT
  {
  }

  lemma EventsOkParts(a: seq<Event>, b: seq<Event>)
    requires EventsOk(a + b)
    ensures EventsOk(a) && EventsOk(b)
  {
    assert forall i :: 0 <= i < |a| ==> (a + b)[i] == a[i];
    assert forall i :: 0 <= i < |b| ==> (a + b)[|a| + i] == b[i];
  }

  /** `bufSize` counts the bytes of `buf`. After a second read that timed out it is one short, since
      the program then adds the -1 that read() returned; the deferred event is alone in that case. */
  predicate Window(buf: seq<Event>, bufSize: int, firstTry: bool, queue: seq<Event>) {
    && (bufSize == Bytes(buf) || (!firstTry && |buf| == 1 && bufSize == Bytes(buf) - 1))
    && (!firstTry && |buf| == 1 ==> queue == [])
    && bufSize <= READ_BUF_LEN
  }

  /** There are bytes beyond the first event exactly if there is a second one. */
  lemma SecondEvent(buf: seq<Event>, bufSize: int, firstTry: bool, queue: seq<Event>)
    requires buf != [] && Window(buf, bufSize, firstTry, queue)
    ensures Size(buf[0]) < bufSize <==> |buf| > 1
  {
    assert Bytes(buf) == Size(buf[0]) + Bytes(buf[1..]);
    if |buf| > 1 {
      assert Bytes(buf[1..]) == Size(buf[1..][0]) + Bytes(buf[1..][1..]);
    } else {
      assert buf[1..] == [];
    }
  }

  /** `evLen` bytes are the first event, the first two, or more than there are. */
  predicate Consumes(buf: seq<Event>, evLen: int, left: seq<Event>) {
    || (|buf| >= 1 && evLen == Size(buf[0]) && left == buf[1..])
    || (|buf| >= 2 && evLen == Size(buf[0]) + Size(buf[1]) && left == buf[2..])
    || (evLen == READ_BUF_LEN && left == [])
  }

  predicate Cached(c: seq<Slot>, buf: seq<Event>, slot: nat) {
    && buf != [] && buf[0].wd >= 0 && !buf[0].kind.Ignored? && !buf[0].kind.Overflow?
    && slot < |c| && slot == FirstWith(c, buf[0].wd)
  }

  lemma NextUnpaired(s: Sys, w: Walker)
    requires DirForest.Valid(s.fs) && s.pending != [] && Known(s.cache, s.pending[0].wd)
    requires s.pending[0].isDir && s.pending[0].kind.MovedFrom? && !Paired(s.pending[0], s.pending[1..])
    ensures Next(s, w) == DtreeSpec.ZapSubtree(s.(pending := s.pending[1..]), w,
                                               Join(PathAt(s.cache, s.pending[0].wd), s.pending[0].name))
  {
    hide DirForest.Valid, DtreeSpec.ZapSubtree;
  }

  /** The kernel's state when the scan has passed the slots `seen`. */
  ghost predicate ZapState(s: Sys, now: Sys, seen: seq<Slot>, p: string) {
    var wds := ZapList(seen, p);
    && NoDup(wds) && (forall wd :: wd in wds ==> wd in WatchedWds(s.marks))
    && now.marks == WithoutWds(s.marks, set wd | wd in wds)
    && now.pending == s.pending + IgnoredEvents(wds)
    && now == s.(marks := now.marks, pending := now.pending, cache := now.cache)
  }

  /** Why the kernel can refuse: the descriptor was never watched, or it has just been dropped. */
  lemma ZapStuck(s: Sys, now: Sys, c: seq<Slot>, j: nat, p: string)
    requires j < |c| && s.cache == c && Hit(c[j], p)
    requires ZapState(s, now, c[..j], p) && c[j].wd !in WatchedWds(now.marks)
    ensures ZapFails(s, p)
  {
    var wd, seen, all := c[j].wd, ZapList(c[..j], p), ZapList(c, p);
    ZapListPrefix(c, p, j + 1);
    assert c[..j + 1][..j] == c[..j];
    assert seen + [wd] <= all;
    assert all[|seen|] == wd;
    assert forall i :: 0 <= i < |seen| ==> seen[i] == all[i];
    assert forall n :: n in s.marks && s.marks[n].wd !in seen ==> n in now.marks && now.marks[n] == s.marks[n];
    assert wd in seen || wd !in WatchedWds(s.marks);
  }

  lemma ZapStart(s: Sys, p: string)
    ensures ZapState(s, s, [], p) && ZapList([], p) == []
  {
    assert WithoutWds(s.marks, {}) == s.marks;
  }

  lemma ZapPast(s: Sys, now: Sys, c: seq<Slot>, j: nat, p: string)
    requires j < |c| && !Hit(c[j], p) && ZapState(s, now, c[..j], p)
    ensures ZapState(s, now, c[..j + 1], p) && |ZapList(c[..j + 1], p)| == |ZapList(c[..j], p)|
  {
    assert c[..j + 1][..j] == c[..j];
  }

  lemma ZapDone(s: Sys, now: Sys, w: Walker, p: string)
    requires DirForest.Valid(s.fs) && ZapState(s, now, s.cache, p) && now.cache == Zapped(s.cache, p)
    ensures !ZapFails(s, p) && now == DtreeSpec.ZapSubtree(s, w, p)
  {
    hide DirForest.Valid;
  }

  lemma ZapOn(s: Sys, now: Sys, next: Sys, c: seq<Slot>, j: nat, p: string)
    requires j < |c| && Hit(c[j], p) && ZapState(s, now, c[..j], p) && c[j].wd in WatchedWds(now.marks)
    requires next == now.(marks := WithoutWds(now.marks, {c[j].wd}), cache := next.cache,
                          pending := now.pending + [Event(c[j].wd, Ignored, false, 0, "")])
    ensures ZapState(s, next, c[..j + 1], p) && |ZapList(c[..j + 1], p)| == |ZapList(c[..j], p)| + 1
  {
    var wd, seen, wds := c[j].wd, ZapList(c[..j], p), ZapList(c[..j + 1], p);
    assert c[..j + 1][..j] == c[..j];
    assert wds == seen + [wd];
    assert IgnoredEvents(wds) == IgnoredEvents(seen) + [Event(wd, Ignored, false, 0, "")];
    var n :| n in now.marks && now.marks[n].wd == wd;
    assert n in s.marks && s.marks[n].wd == wd;
    assert (set x | x in wds) == (set x | x in seen) + {wd};
    assert next.marks == WithoutWds(s.marks, set x | x in wds);
  }

  lemma ZapElseReinit(s: Sys, w: Walker, p: string)
    requires DirForest.Valid(s.fs) && ZapFails(s, p)
    ensures DtreeSpec.ZapSubtree(s, w, p) == Reinit(s, w)
  {
  }

  lemma ReinitForgets(s: Sys, t: Sys, w: Walker)
    requires DirForest.Valid(s.fs) && t.fs == s.fs && t.roots == s.roots && t.exited == s.exited
    ensures Reinit(s, w) == Reinit(t, w)
  {
    hide DirForest.Valid;
  }

  lemma {:induction false} NoneOf(roots: seq<Option<string>>)
    requires forall j :: 0 <= j < |roots| ==> roots[j].Some?
    ensures NoneCount(roots) == 0
  {
    if roots != [] {
      NoneOf(roots[..|roots| - 1]);
    }
  }

  /** zapSubtree() may be handed a pathname of its own or one that lies in a cache slot. */
  datatype PathArg = Text(path: string) | InSlot(slot: nat)

  class Watcher {
    const k: Kernel
    var wlCache: array<Slot>
    const rootDirPaths: array<Option<string>>
    var ignoreRootDirs: int
    var exited: bool

    ghost predicate Valid()
      reads this, k, rootDirPaths
    {
      && DirForest.Valid(k.fs) && Descriptors(k.marks, k.nextWd)
      && ignoreRootDirs == NoneCount(rootDirPaths[..])
      && (exited <==> NoneListed(rootDirPaths[..]))
    }

    /** The state of program and kernel; `rest` is the part of the read buffer not yet handled. */
    ghost function Abs(rest: seq<Event>): Sys
      reads this, k, wlCache, rootDirPaths
    {
      Sys(k.fs, k.marks, k.nextWd, rest + k.queue, wlCache[..], rootDirPaths[..], exited)
    }

    constructor (k: Kernel, roots: array<Option<string>>)
      requires DirForest.Valid(k.fs) && Descriptors(k.marks, k.nextWd)
      requires roots.Length > 0 && forall j :: 0 <= j < roots.Length ==> roots[j].Some?
      ensures Valid() && this.k == k && rootDirPaths == roots && !exited && wlCache.Length == 0 && fresh(wlCache)
    {
      this.k, rootDirPaths, ignoreRootDirs, exited := k, roots, 0, false;
      wlCache := new Slot[0];
      new;
      NoneOf(roots[..]);
      assert roots[..][0].Some?;
    }

    // ---- the slot array ----

    /** The slot that holds `wd`, or -1. */
    method FindWatch(wd: int) returns (slot: int)
      ensures slot == if FirstWith(wlCache[..], wd) < wlCache.Length then FirstWith(wlCache[..], wd) else -1
    {
      ghost var c := wlCache[..];
      for j := 0 to wlCache.Length
        invariant forall i :: 0 <= i < j ==> c[i].wd != wd
      {
        if wlCache[j].wd == wd {
          return j;
        }
      }
      return -1;
    }

    method MarkCacheSlotEmpty(slot: nat)
      requires slot < wlCache.Length
      modifies wlCache
      ensures wlCache[..] == old(wlCache[..])[slot := UNUSED]
    {
      wlCache[slot] := Slot(-1, "");
    }

    /** The first unused slot, after growing the array if there was none. */
    method FindEmptyCacheSlot() returns (slot: nat)
      modifies this`wlCache
      ensures wlCache == old(wlCache) || fresh(wlCache)
      ensures wlCache[..] == Grown(old(wlCache[..])) && slot == FirstWith(old(wlCache[..]), -1)
      ensures slot < wlCache.Length
    {
      ghost var c := wlCache[..];
      for j := 0 to wlCache.Length
        invariant forall i :: 0 <= i < j ==> c[i].wd != -1
      {
        if wlCache[j].wd == -1 {
          return j;
        }
      }
      var size := wlCache.Length;
      var grown := new Slot[size + ALLOC_INCR](j requires 0 <= j < size + ALLOC_INCR reads this, wlCache =>
        if j < wlCache.Length then wlCache[j] else UNUSED);
      wlCache := grown;
      assert wlCache[..] == c + seq(ALLOC_INCR, _ => UNUSED);
      return size;
    }

    method AddWatchToCache(wd: int, pathname: string) returns (slot: int)
      modifies this`wlCache, wlCache
      ensures wlCache == old(wlCache) || fresh(wlCache)
      ensures wlCache[..] == Added(old(wlCache[..]), wd, pathname)
      ensures 0 <= slot < wlCache.Length && wlCache[slot] == Slot(wd, pathname)
    {
      slot := FindEmptyCacheSlot();
      wlCache[slot] := Slot(wd, pathname);
    }

    method PathnameInCache(pathname: string) returns (found: bool)
      ensures found <==> HasPath(wlCache[..], pathname)
    {
      ghost var c := wlCache[..];
      for j := 0 to wlCache.Length
        invariant forall i :: 0 <= i < j ==> !(Used(c[i]) && c[i].path == pathname)
      {
        if wlCache[j].wd >= 0 && wlCache[j].path == pathname {
          assert Used(c[j]) && c[j].path == pathname;
          return true;
        }
      }
      return false;
    }

    /** Every slot is compared and, on a match, overwritten in place. */
    method RewriteCachedPaths(oldPathPrefix: string, oldName: string, newPathPrefix: string, newName: string)
      modifies wlCache
      ensures wlCache[..] == Rewritten(old(wlCache[..]), Join(oldPathPrefix, oldName), Join(newPathPrefix, newName))
    {
      var fullPath, newPrefix := Join(oldPathPrefix, oldName), Join(newPathPrefix, newName);
      ghost var c := wlCache[..];
      for j := 0 to wlCache.Length
        invariant forall i :: 0 <= i < j ==> wlCache[i] == Rewritten(c, fullPath, newPrefix)[i]
        invariant forall i :: j <= i < wlCache.Length ==> wlCache[i] == c[i]
      {
        if fullPath <= wlCache[j].path && (|wlCache[j].path| == |fullPath| || wlCache[j].path[|fullPath|] == '/') {
          wlCache[j] := Slot(wlCache[j].wd, newPrefix + wlCache[j].path[|fullPath|..]);
        }
      }
    }

    // ---- the root list ----

    /** The position of `path` in the root list, or -1. */
    method FindRootDirPath(path: string) returns (p: int)
      ensures p == if IsRoot(rootDirPaths[..], path) then FirstRoot(rootDirPaths[..], path) else -1
      ensures p >= 0 <==> IsRoot(rootDirPaths[..], path)
      ensures p < rootDirPaths.Length
    {
      ghost var roots := rootDirPaths[..];
      for j := 0 to rootDirPaths.Length
        invariant forall i :: 0 <= i < j ==> roots[i] != Some(path)
      {
        if rootDirPaths[j] == Some(path) {
          assert roots[j] == Some(path);
          return j;
        }
      }
      return -1;
    }

    method ZapRootDirPath(path: string, ghost rest: seq<Event>)
      requires Valid() && !exited && IsRoot(rootDirPaths[..], path)
      modifies this`ignoreRootDirs, this`exited, rootDirPaths
      ensures Valid() && Abs(rest) == ZapRoot(old(Abs(rest)), path)
      ensures exited <==> forall j :: 0 <= j < rootDirPaths.Length ==> rootDirPaths[j].None?
      ensures exists p :: 0 <= p < rootDirPaths.Length && old(rootDirPaths[p]) == Some(path) &&
                          rootDirPaths[..] == old(rootDirPaths[..])[p := None]
    {
      var p := FindRootDirPath(path);
      ghost var roots := rootDirPaths[..];
      NoneCountZap(roots, p);
      rootDirPaths[p] := None;
      assert rootDirPaths[..] == roots[p := None];
      ignoreRootDirs := ignoreRootDirs + 1;
      NoneCountAll(rootDirPaths[..]);
      if ignoreRootDirs == rootDirPaths.Length {
        exited := true;
      }
    }

    // ---- watching ----

    /** Called for each directory that the walk visits; nothing is done if it has gone by then. */
    method TraverseTree(pathname: string, ghost rest: seq<Event>)
      requires Valid()
      modifies this`wlCache, wlCache, k`marks, k`nextWd
      ensures Valid() && (wlCache == old(wlCache) || fresh(wlCache))
      ensures !Exists(k.fs, pathname) ==> Abs(rest) == old(Abs(rest))
      ensures forall n :: n in Tree(k.fs) && Tree(k.fs)[n] == pathname ==>
                Abs(rest) == WatchOne(old(Abs(rest)), n)
    {
      hide DirForest.Valid, Tree, FirstWith, Added, Grown, NoneCount;
      var root := FindRootDirPath(pathname);
      var wd := k.AddWatch(pathname, root >= 0);
      if wd == -1 {
        return;
      }
      var slot := FindWatch(wd);
      if slot < 0 {
        slot := AddWatchToCache(wd, pathname);
      }
    }

    method WatchSubtree(path: string, ghost rest: seq<Event>)
      requires Valid() && IsWalker(k.walk)
      modifies this`wlCache, wlCache, k`marks, k`nextWd
      ensures Valid() && (wlCache == old(wlCache) || fresh(wlCache))
      ensures Abs(rest) == DtreeSpec.WatchSubtree(old(Abs(rest)), k.walk, path)
    {
      var order := k.walk(k.fs, path);
      assert Visits(order, k.fs, path);
      ghost var start := Abs(rest);
      for i := 0 to |order|
        invariant Valid() && k.fs == old(k.fs) && (wlCache == old(wlCache) || fresh(wlCache))
        invariant WatchEach(Abs(rest), order[i..]) == WatchEach(start, order)
      {
        TraverseTree(Tree(k.fs)[order[i]], rest);
        assert order[i..][1..] == order[i + 1..];
      }
    }

    /** The number of entries removed, or -1 if the kernel refused to drop a watch. */
    method ZapSubtree(arg: PathArg, ghost rest: seq<Event>) returns (cnt: int)
      requires Valid() && (arg.InSlot? ==> arg.slot < wlCache.Length)
      modifies wlCache, k`marks, k`queue
      ensures Valid() && k.fs == old(k.fs) && k.nextWd == old(k.nextWd)
      ensures var p := if arg.Text? then arg.path else old(wlCache[..])[arg.slot].path;
        if ZapFails(old(Abs(rest)), p) then cnt == -1
        else
          && cnt == |ZapList(old(wlCache[..]), p)|
          && Abs(rest) == DtreeSpec.ZapSubtree(old(Abs(rest)), k.walk, p)
    {
      hide ZapState, ZapList, WithoutWds, WatchedWds, ZapFails, DirForest.Valid, DtreeSpec.ZapSubtree, AtOrBelow,
           NoneCount, IgnoredEvents;
      // a copy, since the string in the slot is itself about to be cleared
      var pn := if arg.Text? then arg.path else wlCache[arg.slot].path;
      cnt := 0;
      ghost var s, c := Abs(rest), wlCache[..];
      ZapStart(s, pn);
      assert c[..0] == [] && c[..|c|] == c;
      for j := 0 to wlCache.Length
        invariant Valid() && k.fs == s.fs && k.nextWd == s.nextWd && cnt == |ZapList(c[..j], pn)|
        invariant ZapState(s, Abs(rest), c[..j], pn)
        invariant forall i :: 0 <= i < j ==> wlCache[i] == Zapped(c, pn)[i]
        invariant forall i :: j <= i < wlCache.Length ==> wlCache[i] == c[i]
      {
        ghost var before := Abs(rest);
        if wlCache[j].wd >= 0 && AtOrBelow(wlCache[j].path, pn) {
          var ok := k.RmWatch(wlCache[j].wd);
          if !ok {
            ZapStuck(s, Abs(rest), c, j, pn);
            return -1;
          }
          MarkCacheSlotEmpty(j);
          cnt := cnt + 1;
          ZapOn(s, before, Abs(rest), c, j, pn);
        } else {
          ZapPast(s, before, c, j, pn);
        }
      }
      ZapDone(s, Abs(rest), k.walk, pn);
    }

    /** Everything pending is given up. */
    method Reinitialize()
      requires Valid() && IsWalker(k.walk)
      modifies this`wlCache, wlCache, k`marks, k`nextWd, k`queue
      ensures Valid() && (wlCache == old(wlCache) || fresh(wlCache))
      ensures k.queue == [] && Abs([]) == Reinit(old(Abs([])), k.walk)
    {
      hide DirForest.Valid, IsWalker, DtreeSpec.WatchSubtree;
      ghost var start := Abs([]);
      k.Renew();
      wlCache := new Slot[0];
      ghost var s := start.(marks := map[], nextWd := 1, pending := [], cache := []);
      assert Abs([]) == s;
      for j := 0 to rootDirPaths.Length
        invariant Valid() && fresh(wlCache) && k.fs == start.fs && k.queue == []
        invariant rootDirPaths[..] == start.roots && WatchRoots(Abs([]), k.walk, j) == WatchRoots(s, k.walk, 0)
      {
        if rootDirPaths[j].Some? {
          WatchSubtree(rootDirPaths[j].value, []);
        }
      }
    }

    // ---- events ----

    /** An event whose descriptor is not cached, or an overflow: start afresh. */
    method StartAfresh(buf: seq<Event>) returns (evLen: int, ghost left: seq<Event>)
      requires Valid() && IsWalker(k.walk)
      modifies this`wlCache, wlCache, k`marks, k`nextWd, k`queue
      ensures Valid() && (wlCache == old(wlCache) || fresh(wlCache))
      ensures evLen == READ_BUF_LEN && left == [] && Abs(left) == Reinit(old(Abs(buf)), k.walk)
    {
      Reinitialize();
      ReinitForgets(old(Abs([])), old(Abs(buf)), k.walk);
      return READ_BUF_LEN, [];
    }

    /** A directory appeared under the cached directory in `slot`. */
    method HandleEntry(buf: seq<Event>, slot: nat)
      requires Valid() && IsWalker(k.walk) && Cached(wlCache[..], buf, slot)
      requires buf[0].isDir && (buf[0].kind.Create? || buf[0].kind.MovedTo?)
      modifies this`wlCache, wlCache, k`marks, k`nextWd
      ensures Valid() && (wlCache == old(wlCache) || fresh(wlCache))
      ensures Abs(buf[1..]) == Next(old(Abs(buf)), k.walk)
    {
      hide DirForest.Valid, IsWalker, Next, DtreeSpec.WatchSubtree, HasPath;
      NextEntry(Abs(buf), k.walk);
      var fullPath := Join(wlCache[slot].path, buf[0].name);
      assert (buf + k.queue)[1..] == buf[1..] + k.queue;
      var cached := PathnameInCache(fullPath);
      if !cached {
        WatchSubtree(fullPath, buf[1..]);
      }
    }

    /** The cached directory in `slot` is gone. */
    method HandleDeleteSelf(buf: seq<Event>, slot: nat)
      requires Valid() && !exited && Cached(wlCache[..], buf, slot) && buf[0].kind.DeleteSelf?
      modifies this`ignoreRootDirs, this`exited, wlCache, rootDirPaths
      ensures Valid() && Abs(buf[1..]) == Next(old(Abs(buf)), k.walk)
    {
      hide DirForest.Valid, DtreeSpec.WatchSubtree, Reinit, DtreeSpec.ZapSubtree, ZapRoot;
      ghost var s := Abs(buf);
      assert (buf + k.queue)[1..] == buf[1..] + k.queue;
      var p := FindRootDirPath(wlCache[slot].path);
      if p >= 0 {
        ZapRootDirPath(wlCache[slot].path, buf[1..]);
        if exited {
          return;
        }
      }
      MarkCacheSlotEmpty(slot);
    }

    /** A directory left its place under the cached directory in `slot`, and not for a watched one. */
    method HandleMovedOut(buf: seq<Event>, slot: nat) returns (evLen: int, ghost left: seq<Event>)
      requires Valid() && IsWalker(k.walk) && Cached(wlCache[..], buf, slot)
      requires buf[0].isDir && buf[0].kind.MovedFrom? && !Paired(buf[0], buf[1..] + k.queue)
      modifies this`wlCache, wlCache, k`marks, k`nextWd, k`queue
      ensures Valid() && (wlCache == old(wlCache) || fresh(wlCache))
      ensures Abs(left) == Next(old(Abs(buf)), k.walk)
      ensures (evLen == Size(buf[0]) && left == buf[1..]) || (evLen == READ_BUF_LEN && left == [])
    {
      hide DirForest.Valid, IsWalker, DtreeSpec.WatchSubtree, DtreeSpec.ZapSubtree, ZapFails, Reinit, Next;
      ghost var s := Abs(buf);
      assert (buf + k.queue)[1..] == buf[1..] + k.queue;
      NextUnpaired(s, k.walk);
      var fullPath := Join(wlCache[slot].path, buf[0].name);
      ghost var u := Abs(buf[1..]);
      var cnt := ZapSubtree(Text(fullPath), buf[1..]);
      if cnt == -1 {
        ZapElseReinit(u, k.walk, fullPath);
        ReinitForgets(u, Abs(buf), k.walk);
        evLen, left := StartAfresh(buf);
      } else {
        return Size(buf[0]), buf[1..];
      }
    }

    /** A recognized rename; `slot` and `nextSlot` hold the old and the new parent directory. */
    method HandleRename(buf: seq<Event>, slot: nat, nextSlot: nat)
      requires Valid() && Cached(wlCache[..], buf, slot) && |buf| > 1
      requires buf[0].isDir && buf[0].kind.MovedFrom? && Paired(buf[0], buf[1..])
      requires Cached(wlCache[..], buf[1..], nextSlot)
      modifies wlCache
      ensures Valid() && Abs(buf[2..]) == Next(old(Abs(buf)), k.walk)
    {
      hide DirForest.Valid, Next, Rewritten;
      assert (buf + k.queue)[2..] == buf[2..] + k.queue;
      NextPair(Abs(buf), k.walk);
      RewriteCachedPaths(wlCache[slot].path, buf[0].name, wlCache[nextSlot].path, buf[1].name);
    }

    /** The root directory cached in `slot` was moved: cease to monitor it. */
    method HandleMoveSelf(buf: seq<Event>, slot: nat) returns (evLen: int, ghost left: seq<Event>)
      requires Valid() && !exited && IsWalker(k.walk) && Cached(wlCache[..], buf, slot)
      requires buf[0].kind.MoveSelf? && IsRoot(rootDirPaths[..], wlCache[slot].path)
      modifies this`wlCache, this`ignoreRootDirs, this`exited, wlCache, rootDirPaths, k`marks, k`nextWd, k`queue
      ensures Valid() && (wlCache == old(wlCache) || fresh(wlCache))
      ensures Abs(left) == Next(old(Abs(buf)), k.walk)
      ensures (evLen == Size(buf[0]) && left == buf[1..]) || (evLen == READ_BUF_LEN && left == [])
    {
      hide DirForest.Valid, IsWalker, DtreeSpec.WatchSubtree, DtreeSpec.ZapSubtree, ZapFails, Reinit, Next, ZapRoot,
           IsRoot;
      ghost var s, p := Abs(buf), wlCache[slot].path;
      assert (buf + k.queue)[1..] == buf[1..] + k.queue;
      NextMoveSelf(s, k.walk);
      ZapRootDirPath(wlCache[slot].path, buf[1..]);
      ghost var z := Abs(buf[1..]);
      if exited {
        return Size(buf[0]), buf[1..];
      }
      var cnt := ZapSubtree(InSlot(slot), buf[1..]);
      if cnt == -1 {
        ZapElseReinit(z, k.walk, p);
        ReinitForgets(z, Abs(buf), k.walk);
        evLen, left := StartAfresh(buf);
      } else {
        return Size(buf[0]), buf[1..];
      }
    }

    /** Handles the first event of `buf`, or the first two; returns the number of bytes consumed,
        READ_BUF_LEN if the rest of the buffer is to be discarded, or -1 if a MovedFrom at the end
        of the buffer should wait for one more read. */
    method ProcessNextInotifyEvent(buf: seq<Event>, bufSize: int, firstTry: bool)
        returns (evLen: int, ghost left: seq<Event>)
      requires Valid() && !exited && IsWalker(k.walk) && buf != [] && EventsOk(buf)
      requires Window(buf, bufSize, firstTry, k.queue)
      modifies this`wlCache, this`ignoreRootDirs, this`exited, wlCache, rootDirPaths, k`marks, k`nextWd, k`queue
      ensures Valid() && (wlCache == old(wlCache) || fresh(wlCache))
      ensures evLen == -1 ==>
                && firstTry && |buf| == 1 && buf[0].isDir && buf[0].kind.MovedFrom?
                && left == buf && Abs(left) == old(Abs(buf)) && wlCache == old(wlCache)
      ensures evLen != -1 ==> evLen > 0 && Abs(left) == Next(old(Abs(buf)), k.walk) && Consumes(buf, evLen, left)
    {
      hide DirForest.Valid, IsWalker, DtreeSpec.WatchSubtree, DtreeSpec.ZapSubtree, Reinit, Rewritten, IsRoot,
           ZapRoot, HasPath;
      ghost var s := Abs(buf);
      assert (buf + k.queue)[1..] == buf[1..] + k.queue;
      var ev := buf[0];
      var slot := -1;
      if ev.wd != -1 && !ev.kind.Ignored? {
        slot := FindWatch(ev.wd);
        if slot == -1 {
          evLen, left := StartAfresh(buf);
          return;
        }
      }
      evLen, left := Size(ev), buf[1..];
      if ev.isDir && (ev.kind.Create? || ev.kind.MovedTo?) {
        HandleEntry(buf, slot);
      } else if ev.kind.DeleteSelf? {
        HandleDeleteSelf(buf, slot);
      } else if ev.isDir && ev.kind.MovedFrom? {
        SecondEvent(buf, bufSize, firstTry, k.queue);
        if evLen < bufSize && buf[1].kind.MovedTo? && buf[1].cookie == ev.cookie {
          var nextSlot := FindWatch(buf[1].wd);
          if nextSlot == -1 {
            evLen, left := StartAfresh(buf);
            return;
          }
          HandleRename(buf, slot, nextSlot);
          evLen, left := evLen + Size(buf[1]), buf[2..];
        } else if evLen < bufSize || !firstTry {
          assert buf[1..] + k.queue == [] || |buf| > 1;
          evLen, left := HandleMovedOut(buf, slot);
        } else {
          return -1, buf;
        }
      } else if ev.kind.Overflow? {
        evLen, left := StartAfresh(buf);
      } else if ev.kind.Unmount? {
        MarkCacheSlotEmpty(slot);
      } else if ev.kind.MoveSelf? {
        var p := FindRootDirPath(wlCache[slot].path);
        if p >= 0 {
          evLen, left := HandleMoveSelf(buf, slot);
        }
      }
    }

    /** The second read for a MovedFrom that is alone in the buffer; it times out, with -1 added to
        the count, only if there is nothing to read. */
    method ReadMore(buf: seq<Event>) returns (more: seq<Event>, numRead: int)
      requires |buf| == 1 && EventsOk(buf + k.queue)
      modifies k`queue
      ensures more + k.queue == buf + old(k.queue) && buf <= more
      ensures numRead > 0 && Window(more, numRead, false, k.queue)
      ensures numRead == if old(k.queue) == [] then Bytes(buf) - 1 else Bytes(more)
    {
      EventsOkParts(buf, k.queue);
      EventFits(buf);
      assert Bytes(buf) == Size(buf[0]);
      if k.queue != [] {
        EventFits(k.queue);
        var evs := k.Read(READ_BUF_LEN - Bytes(buf));
        BytesConcat(buf, evs);
        more, numRead := buf + evs, Bytes(buf) + Bytes(evs);
        assert buf + (evs + k.queue) == more + k.queue;
      } else {
        more, numRead := buf, Bytes(buf) - 1;
      }
    }

    /** The state between two events of the same buffer. */
    ghost predicate Midway(buf: seq<Event>, numRead: int, firstTry: bool)
      reads this, k
    {
      && EventsOk(buf + k.queue)
      && (if numRead > 0 then buf != [] && Window(buf, numRead, firstTry, k.queue) else buf == [])
    }

    /** The body of the loop over the buffer: `buf` starts at the next event, `numRead` bytes long. */
    method ProcessFront(buf: seq<Event>, numRead: int, firstTry: bool)
        returns (buf': seq<Event>, numRead': int, firstTry': bool)
      requires Valid() && !exited && IsWalker(k.walk) && Midway(buf, numRead, firstTry) && numRead > 0
      modifies this`wlCache, this`ignoreRootDirs, this`exited, wlCache, rootDirPaths, k`marks, k`nextWd, k`queue
      ensures Valid() && (wlCache == old(wlCache) || fresh(wlCache)) && k.fs == old(k.fs)
      ensures Settle(Abs(buf'), k.walk) == Settle(old(Abs(buf)), k.walk)
      ensures !exited ==> Midway(buf', numRead', firstTry')
      ensures || Smaller(buf' + k.queue, buf + old(k.queue))
              || (buf' + k.queue == buf + old(k.queue) && numRead' > 0 && firstTry && !firstTry')
    {
      hide DirForest.Valid, IsWalker, Next, Settle, EventsOk, Window, Consumes, Noisy, Bytes, After, NoneCount;
      ghost var s := Abs(buf);
      OneStep(s, k.walk);
      NextProgress(s, k.walk);
      NextEventsOk(s, k.walk);
      EventsOkParts(buf, k.queue);
      WindowCounts(buf, numRead, firstTry, k.queue);
      ghost var left;
      var evLen;
      evLen, left := ProcessNextInotifyEvent(buf, numRead, firstTry);
      if evLen > 0 {
        AfterConsumed(buf, evLen, left, numRead);
        buf', numRead', firstTry' := After(buf, evLen), numRead - evLen, true;
        WindowAgain(buf', numRead', k.queue);
      } else {
        buf', numRead' := ReadMore(buf);
        firstTry' := false;
      }
    }

    /** One read of events, all of them handled before returning. However the kernel splits its
        queue between reads, the outcome is that of handling the queue event by event. */
    method ProcessInotifyEvents()
      requires Valid() && !exited && IsWalker(k.walk) && k.queue != [] && EventsOk(k.queue)
      modifies this`wlCache, this`ignoreRootDirs, this`exited, wlCache, rootDirPaths, k`marks, k`nextWd, k`queue
      ensures Valid() && (wlCache == old(wlCache) || fresh(wlCache)) && k.fs == old(k.fs)
      ensures !exited ==>
                && Settle(Abs([]), k.walk) == Settle(old(Abs([])), k.walk)
                && EventsOk(k.queue) && Smaller(k.queue, old(k.queue))
      ensures exited ==> var t := Settle(old(Abs([])), k.walk); t == Abs([]).(pending := t.pending)
    {
      hide DirForest.Valid, IsWalker, Next, Settle, EventsOk, Window, Noisy, Bytes, NoneCount;
      ghost var start := Abs([]);
      var firstTry := true;
      EventFits(k.queue);
      var buf := k.Read(READ_BUF_LEN);
      var numRead := Bytes(buf);
      FirstWindow(buf, k.queue);
      assert Abs(buf) == start;
      while numRead > 0 && !exited
        invariant Valid() && (wlCache == old(wlCache) || fresh(wlCache)) && k.fs == start.fs
        invariant !exited ==> Midway(buf, numRead, firstTry)
        invariant Settle(Abs(buf), k.walk) == Settle(start, k.walk)
        invariant (buf + k.queue == start.pending && numRead > 0) || exited || Smaller(buf + k.queue, start.pending)
        decreases !exited, Noisy(buf + k.queue), |buf + k.queue|, firstTry
      {
        buf, numRead, firstTry := ProcessFront(buf, numRead, firstTry);
      }
      if exited {
        SettleStops(Abs(buf), k.walk);
      } else {
        assert buf + k.queue == k.queue == [] + k.queue;
      }
    }

    /** The part of main()'s loop that reacts to the inotify descriptor, until it has no more to read. */
    method Respond()
      requires Valid() && !exited && IsWalker(k.walk) && EventsOk(k.queue)
      modifies this`wlCache, this`ignoreRootDirs, this`exited, wlCache, rootDirPaths, k`marks, k`nextWd, k`queue
      ensures Valid() && (wlCache == old(wlCache) || fresh(wlCache)) && k.fs == old(k.fs)
      ensures var t := Settle(old(Abs([])), k.walk); t == Abs([]).(pending := t.pending)
      ensures !exited ==> k.queue == []
    {
      hide DirForest.Valid, IsWalker, Next, Settle, EventsOk, NoneCount;
      ghost var start := Abs([]);
      while k.queue != [] && !exited
        invariant Valid() && (wlCache == old(wlCache) || fresh(wlCache)) && k.fs == start.fs
        invariant !exited ==> EventsOk(k.queue) && Settle(Abs([]), k.walk) == Settle(start, k.walk)
        invariant exited ==> var t := Settle(start, k.walk); t == Abs([]).(pending := t.pending)
        decreases !exited, Noisy(k.queue), |k.queue|
      {
        ProcessInotifyEvents();
      }
      if !exited {
        SettleStops(Abs([]), k.walk);
      }
    }

    /** An operation on the tree and the program's whole reaction to it. */
    method OperateAndRespond(op: Op)
      requires Valid() && !exited && IsWalker(k.walk) && Coherent(Abs([])) && Enabled(k.fs, op)
      requires EventsOk(EventsOf(k.fs, k.marks, op))
      modifies this`wlCache, this`ignoreRootDirs, this`exited, wlCache, rootDirPaths, k
      ensures Valid() && k.fs == NewForest(old(k.fs), op)
      ensures exited || Coherent(Abs([])) <==> !Misses(old(k.fs), op)
      ensures exited ==> Tops(k.fs) == {}
      ensures exited <==> forall j :: 0 <= j < rootDirPaths.Length ==> rootDirPaths[j].None?
      ensures old(DtreeExit.AllLive(k.fs, rootDirPaths[..])) && !Uproots(old(k.fs), op) ==>
                (exited <==> Tops(k.fs) == {})
    {
      hide DirForest.Valid, IsWalker, Next, Settle, EventsOk, NoneCount, Inv, DtreeExit.AllLive, Uproots,
           Free, Under, Childless, NewForest, NewMarks, EventsOf, Misses, Tops;
      ghost var s := Abs([]);
      assert s.pending == [] + k.queue == k.queue;
      k.Act(op);
      assert k.queue == EventsOf(s.fs, s.marks, op);
      assert Abs([]) == DtreeSpec.Act(s, op);
      CoherentIff(s, op, k.walk);
      if DtreeExit.AllLive(s.fs, s.roots) && !Uproots(s.fs, op) {
        DtreeExit.ExitIff(s, op, k.walk);
      }
      Respond();
    }

    /** An operation during which the queue overflows, in any state that the program can be in, and the
        program's reaction to that. */
    method OverrunAndRespond(op: Op, kept: nat, ghost given: set<string>)
      requires Valid() && !exited && IsWalker(k.walk) && DtreeRecovery.Tracked(Abs([]), given)
      requires Enabled(k.fs, op) && kept <= |EventsOf(k.fs, k.marks, op)|
      requires EventsOk(k.queue) && EventsOk(EventsOf(k.fs, k.marks, op))
      modifies this`wlCache, this`ignoreRootDirs, this`exited, wlCache, rootDirPaths, k
      ensures Valid() && k.fs == NewForest(old(k.fs), op)
      ensures if exited then Tops(k.fs) == {} else Coherent(Abs([]))
    {
      hide DirForest.Valid, IsWalker, Next, Settle, NoneCount, Coherent, Enabled, NewForest, NewMarks, EventsOf,
           Tops, DtreeRecovery.Tracked;
      ghost var s := Abs([]);
      k.Overrun(op, kept);
      assert [] + k.queue == k.queue;
      assert Abs([]) == DtreeRecovery.After(s, DtreeRecovery.Overrun(op, kept), k.walk);
      DtreeRecovery.OverrunHeals(s, op, kept, k.walk, given);
      Respond();
      if !exited {
        assert Abs([]).pending == [];
      }
    }
  }
}
