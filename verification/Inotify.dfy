/** The part of inotify that inotify_dtree.c relies on: which directories carry a watch, and
    which events an operation on the directory tree leaves for the program to read. */
module Inotify {
  import opened Common
  import opened Paths
  import opened DirForest

  datatype Kind = Create | MovedFrom | MovedTo | DeleteSelf | MoveSelf | Unmount | Ignored | Overflow

  /** `wd` is -1 exactly on an overflow event. */
  datatype Event = Event(wd: int, kind: Kind, isDir: bool, cookie: int, name: string)

  predicate EventOk(ev: Event) {
    && (ev.kind.Overflow? ==> ev.wd == -1)
    && (!ev.kind.Overflow? ==> ev.wd >= 0)
    && |ev.name| <= NAME_MAX
  }

  const NAME_MAX := 255
  const HEADER := 16

  /** Bytes of one event in a read buffer: a header, then the name and its terminator padded
      to a multiple of the header size. */
  function Size(ev: Event): nat {
    if ev.name == "" then HEADER else HEADER + (|ev.name| / HEADER + 1) * HEADER
  }

  function Bytes(evs: seq<Event>): nat {
    if evs == [] then 0 else Size(evs[0]) + Bytes(evs[1..])
  }

  /** The watch on a directory; `moveSelf` says whether IN_MOVE_SELF is in its mask. */
  datatype Mark = Mark(wd: int, moveSelf: bool)

  type Marks = map<Dir, Mark>

  ghost function WatchedWds(marks: Marks): set<int> {
    set n | n in marks :: marks[n].wd
  }

  /** Descriptors count up from 1, one for each watched directory. */
  ghost predicate MarksOk(marks: Marks, nextWd: int) {
    && (forall n :: n in marks ==> 1 <= marks[n].wd < nextWd)
    && (forall m, n :: m in marks && n in marks && marks[m].wd == marks[n].wd ==> m == n)
  }

  function WithoutWds(marks: Marks, wds: set<int>): Marks {
    map n | n in marks && marks[n].wd !in wds :: marks[n]
  }

  /** Watches that are still there have kept their descriptors. */
  ghost predicate SameWatches(marks: Marks, marks': Marks) {
    forall n :: n in marks && n in marks' ==> marks'[n].wd == marks[n].wd
  }

  function IgnoredEvents(wds: seq<int>): seq<Event> {
    seq(|wds|, i requires 0 <= i < |wds| => Event(wds[i], Ignored, false, 0, ""))
  }

  // ---- operations on the tree ----

  datatype Op =
    | MkdirOp(parent: Dir, name: string, n: Dir)
    | RmdirOp(n: Dir)
      // `victim` is the empty directory that the rename replaces, if there is one
    | RenameOp(n: Dir, dest: Link, victim: Option<Dir>, cookie: int)
      // operations on files other than directories
    | FileOps(evs: seq<Event>)

  predicate IsFileEvent(ev: Event) {
    !ev.isDir && (ev.kind.Create? || ev.kind.MovedFrom? || ev.kind.MovedTo?)
  }

  ghost predicate Enabled(fs: Forest, op: Op)
    requires Valid(fs)
  {
    match op
    case MkdirOp(parent, name, n) =>
      parent in fs.up && n !in fs.up && IsName(name) && Free(fs, parent, name)
    case RmdirOp(n) => n in fs.up && Childless(fs, n)
    case RenameOp(n, dest, victim, cookie) =>
      && n in fs.up && !dest.Root?
      && (dest.Outside? ==> victim.None?)
      && (dest.In? ==> dest.parent in fs.up && IsName(dest.name) && !Within(fs, dest.parent, n))
      && (dest.In? && victim.None? ==> Free(fs, dest.parent, dest.name))
      && (victim.Some? ==> victim.value in fs.up && victim.value != n &&
                           PlaceOf(fs.up[victim.value]) == PlaceOf(dest) && Childless(fs, victim.value))
    case FileOps(evs) =>
      forall i :: 0 <= i < |evs| ==> IsFileEvent(evs[i])
  }

  /** The tree once a replaced directory is gone. */
  function Cleared(fs: Forest, victim: Option<Dir>): Forest {
    if victim.Some? then Rmdir(fs, victim.value) else fs
  }

  lemma ClearedOk(fs: Forest, op: Op)
    requires Valid(fs) && op.RenameOp? && Enabled(fs, op)
    ensures Valid(Cleared(fs, op.victim))
    ensures op.n in Cleared(fs, op.victim).up && (AboveRoot(Cleared(fs, op.victim), op.n) <==> AboveRoot(fs, op.n))
    ensures op.dest.In? ==>
              && op.dest.parent in Cleared(fs, op.victim).up && !Within(Cleared(fs, op.victim), op.dest.parent, op.n)
              && Free(Cleared(fs, op.victim), op.dest.parent, op.dest.name)
  {
    if op.victim.Some? {
      var v, n := op.victim.value, op.n;
      var c := Cleared(fs, op.victim);
      RmdirValid(fs, v);
      RmdirPath(fs, v, n);
      RmdirPath(fs, v, op.dest.parent);
      VictimOutside(fs, op);
      hide Within, PathOf, Valid;
      forall r
        ensures RootBelow(c, r, n) <==> RootBelow(fs, r, n)
      {
        if r in c.up {
          RmdirPath(fs, v, r);
        }
      }
    }
  }

  lemma VictimOutside(fs: Forest, op: Op)
    requires Valid(fs) && op.RenameOp? && op.victim.Some? && Enabled(fs, op)
    ensures !Within(fs, op.victim.value, op.n) && op.dest.In? && op.dest.parent != op.victim.value
    ensures Free(Cleared(fs, op.victim), op.dest.parent, op.dest.name)
  {
  }

  /** What the rename starts from: the replaced directory is gone, and pathnames on the command line
      that led below `n` lead nowhere. */
  function Ground(fs: Forest, op: Op): Forest
    requires Valid(fs) && op.RenameOp? && Enabled(fs, op)
  {
    ClearedOk(fs, op);
    Uprooted(Cleared(fs, op.victim), op.n)
  }

  lemma GroundOk(fs: Forest, op: Op)
    requires Valid(fs) && op.RenameOp? && Enabled(fs, op)
    ensures Valid(Ground(fs, op)) && CanRelink(Ground(fs, op), op.n, op.dest)
    ensures !AboveRoot(fs, op.n) ==> Ground(fs, op) == Cleared(fs, op.victim)
  {
    var c := Cleared(fs, op.victim);
    ClearedOk(fs, op);
    UprootedValid(c, op.n);
    UprootedLinks(c, op.n);
    if op.dest.In? {
      UprootedWithin(c, op.n, op.dest.parent, op.n);
      WithinIsUnder(Ground(fs, op), op.dest.parent, op.n);
    }
    if !AboveRoot(fs, op.n) {
      UprootedSame(c, op.n);
    }
  }

  function NewForest(fs: Forest, op: Op): (r: Forest)
    requires Valid(fs) && Enabled(fs, op)
    ensures Valid(r)
  {
    match op
    case MkdirOp(parent, name, n) =>
      MkdirTree(fs, parent, name, n);
      Mkdir(fs, parent, name, n)
    case RmdirOp(n) =>
      RmdirTree(fs, n);
      Rmdir(fs, n)
    case RenameOp(n, dest, victim, cookie) =>
      GroundOk(fs, op);
      Relink(Ground(fs, op), n, dest)
    case FileOps(evs) => fs
  }

  /** A deleted directory loses its watch at once; the program hears of it later. */
  function Gone(marks: Marks, n: Dir): seq<Event> {
    if n in marks then
      [Event(marks[n].wd, DeleteSelf, true, 0, ""), Event(marks[n].wd, Ignored, false, 0, "")]
    else []
  }

  function NewMarks(marks: Marks, op: Op): Marks {
    match op
    case RmdirOp(n) => marks - {n}
    case RenameOp(n, dest, victim, cookie) => if victim.Some? then marks - {victim.value} else marks
    case _ => marks
  }

  function EntryEvent(marks: Marks, link: Link, kind: Kind, cookie: int): seq<Event> {
    if link.In? && link.parent in marks then
      [Event(marks[link.parent].wd, kind, true, cookie, link.name)]
    else []
  }

  function RenameEvents(fs: Forest, marks: Marks, n: Dir, dest: Link, cookie: int): seq<Event>
    requires n in fs.up
  {
    EntryEvent(marks, fs.up[n], MovedFrom, cookie) +
    EntryEvent(marks, dest, MovedTo, cookie) +
    (if n in marks && marks[n].moveSelf then [Event(marks[n].wd, MoveSelf, true, 0, "")] else [])
  }

  function EventsOf(fs: Forest, marks: Marks, op: Op): seq<Event>
    requires op.RenameOp? ==> op.n in fs.up
  {
    match op
    case MkdirOp(parent, name, n) => EntryEvent(marks, In(parent, name), Create, 0)
    case RmdirOp(n) => Gone(marks, n)
    case RenameOp(n, dest, victim, cookie) =>
      RenameEvents(fs, marks, n, dest, cookie) + if victim.Some? then Gone(marks, victim.value) else []
    case FileOps(evs) => evs
  }
}
