/** The directory tree that inotify_dtree.c watches, as the kernel sees it: each directory
    knows its parent and its name there, and a pathname is found by walking to the top. */
module DirForest {
  import opened Common
  import opened Paths

  type Dir = int

  /** An entry of a directory. */
  datatype Place = Place(parent: Dir, name: string)

  /** Where a directory hangs: it is an entry of another one; it lies in a place that does not matter;
      or it is what a pathname on the command line names, and then `place` is its entry in a directory that
      is not monitored, if the pathname goes through that directory. */
  datatype Link = Root(path: string, place: Option<Place>) | Outside | In(parent: Dir, name: string)

  function PlaceOf(link: Link): Option<Place> {
    match link
    case Root(_, place) => place
    case Outside => None
    case In(parent, name) => Some(Place(parent, name))
  }

  /** `rank` certifies that no directory is its own ancestor; nothing else depends on it. */
  datatype Forest = Forest(up: map<Dir, Link>, rank: map<Dir, nat>)

  predicate IsRootPath(p: string) {
    p != "" && p[|p| - 1] != '/'
  }

  ghost predicate LinksOk(up: map<Dir, Link>, rank: map<Dir, nat>) {
    && rank.Keys == up.Keys
    && (forall n {:trigger up[n].parent} :: n in up && up[n].In? ==>
          up[n].parent in up && rank[up[n].parent] < rank[n] && IsName(up[n].name))
    && (forall n {:trigger up[n].place} :: n in up && up[n].Root? && up[n].place.Some? ==>
          var place := up[n].place.value;
          place.parent in up && rank[place.parent] < rank[n] && IsName(place.name))
    && (forall n :: n in up && up[n].Root? ==> IsRootPath(up[n].path))
  }

  ghost predicate SiblingsDiffer(up: map<Dir, Link>) {
    forall m, n :: m in up && n in up && PlaceOf(up[m]).Some? && PlaceOf(up[m]) == PlaceOf(up[n]) ==> m == n
  }

  ghost predicate RootsDisjoint(up: map<Dir, Link>) {
    forall m, n :: m in up && n in up && up[m].Root? && up[n].Root? && AtOrBelow(up[m].path, up[n].path) ==> m == n
  }

  /** No root lies in a monitored directory. */
  ghost predicate RootsOutside(fs: Forest)
    requires LinksOk(fs.up, fs.rank)
  {
    forall r {:trigger fs.up[r].place} :: r in fs.up && fs.up[r].Root? && fs.up[r].place.Some? ==>
      PathOf(fs, fs.up[r].place.value.parent).None?
  }

  ghost predicate Valid(fs: Forest) {
    LinksOk(fs.up, fs.rank) && SiblingsDiffer(fs.up) && RootsDisjoint(fs.up) && RootsOutside(fs)
  }

  /** The pathname of `n`, if it lies in a monitored tree. */
  function PathOf(fs: Forest, n: Dir): Option<string>
    requires LinksOk(fs.up, fs.rank) && n in fs.up
    decreases fs.rank[n]
  {
    match fs.up[n]
    case Root(p, _) => Some(p)
    case Outside => None
    case In(parent, name) =>
      var q := PathOf(fs, parent);
      if q.None? then None else Some(Join(q.value, name))
  }

  /** `n` is `top` or below it, whether monitored trees begin in between or not. */
  predicate Within(fs: Forest, n: Dir, top: Dir)
    requires LinksOk(fs.up, fs.rank) && n in fs.up
    decreases fs.rank[n]
  {
    n == top || (PlaceOf(fs.up[n]).Some? && Within(fs, PlaceOf(fs.up[n]).value.parent, top))
  }

  /** `n` is `top` or one of its descendants in the same tree. */
  predicate Under(fs: Forest, n: Dir, top: Dir)
    requires LinksOk(fs.up, fs.rank) && n in fs.up
    decreases fs.rank[n]
  {
    n == top || (fs.up[n].In? && Under(fs, fs.up[n].parent, top))
  }

  /** The monitored root above `n`. */
  ghost function RootOf(fs: Forest, n: Dir): (r: Dir)
    requires LinksOk(fs.up, fs.rank) && n in fs.up && PathOf(fs, n).Some?
    ensures r in fs.up && fs.up[r].Root? && Under(fs, n, r)
    ensures AtOrBelow(PathOf(fs, n).value, fs.up[r].path)
    ensures fs.up[n].In? ==> |fs.up[r].path| < |PathOf(fs, n).value|
    decreases fs.rank[n]
  {
    if fs.up[n].Root? then n
    else
      var parent := fs.up[n].parent;
      BelowOneComponent(PathOf(fs, parent).value, fs.up[n].name, fs.up[RootOf(fs, parent)].path);
      RootOf(fs, parent)
  }

  lemma {:induction false} PathsDiffer(fs: Forest, m: Dir, n: Dir)
    requires Valid(fs) && m in fs.up && n in fs.up
    requires PathOf(fs, m).Some? && PathOf(fs, m) == PathOf(fs, n)
    ensures m == n
    decreases fs.rank[m]
  {
    var r, t := RootOf(fs, m), RootOf(fs, n);
    if fs.up[m].In? && fs.up[n].In? {
      var a, b := fs.up[m].parent, fs.up[n].parent;
      JoinInjective(PathOf(fs, a).value, fs.up[m].name, PathOf(fs, b).value, fs.up[n].name);
      PathsDiffer(fs, a, b);
    }
  }

  /** The string test decides ancestry: a monitored directory's pathname is at or below
      another's exactly when it is that directory or one of its descendants. */
  lemma {:induction false} BelowIffUnder(fs: Forest, m: Dir, n: Dir)
    requires Valid(fs) && m in fs.up && n in fs.up
    requires PathOf(fs, m).Some? && PathOf(fs, n).Some?
    ensures AtOrBelow(PathOf(fs, m).value, PathOf(fs, n).value) <==> Under(fs, m, n)
    decreases fs.rank[m]
  {
    var p, q := PathOf(fs, m).value, PathOf(fs, n).value;
    if fs.up[m].Root? {
      if AtOrBelow(p, q) {
        AtOrBelowTransitive(p, q, fs.up[RootOf(fs, n)].path);
      }
    } else {
      var parent := fs.up[m].parent;
      BelowOneComponent(PathOf(fs, parent).value, fs.up[m].name, q);
      BelowIffUnder(fs, parent, n);
      if p == q {
        PathsDiffer(fs, m, n);
      }
    }
  }

  /** Descendants of a directory outside every tree, or of one inside, share its fate. */
  lemma {:induction false} UnderKeepsMonitored(fs: Forest, m: Dir, top: Dir)
    requires LinksOk(fs.up, fs.rank) && m in fs.up && top in fs.up && Under(fs, m, top)
    ensures PathOf(fs, m).Some? <==> PathOf(fs, top).Some?
    decreases fs.rank[m]
  {
    if m != top {
      UnderKeepsMonitored(fs, fs.up[m].parent, top);
    }
  }

  // ---- what the kernel does to the tree ----

  ghost predicate Childless(fs: Forest, n: Dir) {
    forall m :: m in fs.up && PlaceOf(fs.up[m]).Some? ==> PlaceOf(fs.up[m]).value.parent != n
  }

  ghost predicate Free(fs: Forest, parent: Dir, name: string) {
    forall m :: m in fs.up ==> PlaceOf(fs.up[m]) != Some(Place(parent, name))
  }

  function Mkdir(fs: Forest, parent: Dir, name: string, n: Dir): Forest
    requires parent in fs.rank
  {
    Forest(fs.up[n := In(parent, name)], fs.rank[n := fs.rank[parent] + 1])
  }

  function Rmdir(fs: Forest, n: Dir): Forest {
    Forest(fs.up - {n}, fs.rank - {n})
  }

  /** `r` is a root strictly below `n`. */
  predicate RootBelow(fs: Forest, r: Dir, n: Dir)
    requires LinksOk(fs.up, fs.rank)
  {
    r in fs.up && r != n && fs.up[r].Root? && Within(fs, r, n)
  }

  /** Some root lies strictly below `n`. */
  ghost predicate AboveRoot(fs: Forest, n: Dir)
    requires LinksOk(fs.up, fs.rank)
  {
    exists r :: RootBelow(fs, r, n)
  }

  ghost predicate CanRelink(fs: Forest, n: Dir, dest: Link)
    requires Valid(fs)
  {
    && n in fs.up && !AboveRoot(fs, n)
    && (dest.Outside? ||
        (dest.In? && IsName(dest.name) && Free(fs, dest.parent, dest.name) &&
         dest.parent in fs.up && !Under(fs, dest.parent, n)))
  }

  function Lift(fs: Forest, n: Dir, dest: Link): map<Dir, nat>
    requires Valid(fs) && CanRelink(fs, n, dest)
  {
    map m | m in fs.up ::
      if dest.In? && Under(fs, m, n) then fs.rank[m] + fs.rank[dest.parent] + 1 else fs.rank[m]
  }

  /** rename(2): `n` moves to `dest`, and everything below it goes along. */
  function Relink(fs: Forest, n: Dir, dest: Link): (r: Forest)
    requires Valid(fs) && CanRelink(fs, n, dest)
    ensures Valid(r)
  {
    RelinkValid(fs, n, dest);
    Forest(fs.up[n := dest], Lift(fs, n, dest))
  }

  /** Without roots in between, everything below is a descendant in the same tree. */
  lemma {:induction false} WithinIsUnder(fs: Forest, m: Dir, n: Dir)
    requires LinksOk(fs.up, fs.rank) && m in fs.up && !AboveRoot(fs, n)
    ensures Within(fs, m, n) <==> Under(fs, m, n)
    decreases fs.rank[m]
  {
    if m != n && fs.up[m].In? {
      WithinIsUnder(fs, fs.up[m].parent, n);
    } else if m != n && fs.up[m].Root? {
      assert !RootBelow(fs, m, n);
    }
  }

  lemma {:induction false} UnderIsWithin(fs: Forest, m: Dir, n: Dir)
    requires LinksOk(fs.up, fs.rank) && m in fs.up
    ensures Under(fs, m, n) ==> Within(fs, m, n)
    decreases fs.rank[m]
  {
    if m != n && fs.up[m].In? {
      UnderIsWithin(fs, fs.up[m].parent, n);
    }
  }

  lemma RelinkLinks(fs: Forest, n: Dir, dest: Link)
    requires Valid(fs) && CanRelink(fs, n, dest)
    ensures LinksOk(fs.up[n := dest], Lift(fs, n, dest))
    ensures forall r :: r in fs.up && r != n && fs.up[r].Root? && fs.up[r].place.Some? ==>
              !Under(fs, fs.up[r].place.value.parent, n)
  {
    var up, rank := fs.up[n := dest], Lift(fs, n, dest);
    forall m | m in up && up[m].In?
      ensures up[m].parent in up && rank[up[m].parent] < rank[m]
    {
      if m != n {
        assert Under(fs, m, n) <==> Under(fs, fs.up[m].parent, n);
      }
    }
    forall r | r in fs.up && r != n && fs.up[r].Root? && fs.up[r].place.Some?
      ensures !Under(fs, fs.up[r].place.value.parent, n)
    {
      assert !RootBelow(fs, r, n);
      WithinIsUnder(fs, fs.up[r].place.value.parent, n);
    }
  }

  /** Outside the moved subtree pathnames stay. */
  lemma {:induction false} RelinkPath(fs: Forest, n: Dir, dest: Link, m: Dir)
    requires Valid(fs) && CanRelink(fs, n, dest) && m in fs.up
    ensures var fs' := Forest(fs.up[n := dest], Lift(fs, n, dest));
      && LinksOk(fs'.up, fs'.rank)
      && (Under(fs', m, n) <==> Under(fs, m, n))
      && (!Under(fs, m, n) ==> PathOf(fs', m) == PathOf(fs, m))
    decreases fs.rank[m]
  {
    RelinkLinks(fs, n, dest);
    hide RootsOutside, RootsDisjoint, SiblingsDiffer, Free;
    if m != n && fs.up[m].In? {
      RelinkPath(fs, n, dest, fs.up[m].parent);
    }
  }

  lemma RelinkSiblings(fs: Forest, n: Dir, dest: Link)
    requires Valid(fs) && CanRelink(fs, n, dest)
    ensures SiblingsDiffer(fs.up[n := dest]) && RootsDisjoint(fs.up[n := dest])
  {
    hide Under, AboveRoot, LinksOk, RootsOutside, AtOrBelow;
  }

  lemma RelinkValid(fs: Forest, n: Dir, dest: Link)
    requires Valid(fs) && CanRelink(fs, n, dest)
    ensures Valid(Forest(fs.up[n := dest], Lift(fs, n, dest)))
  {
    hide Under, Within, AboveRoot, SiblingsDiffer, RootsDisjoint, Free, Lift;
    var fs' := Forest(fs.up[n := dest], Lift(fs, n, dest));
    RelinkLinks(fs, n, dest);
    RelinkSiblings(fs, n, dest);
    forall r | r in fs'.up && fs'.up[r].Root? && fs'.up[r].place.Some?
      ensures PathOf(fs', fs'.up[r].place.value.parent).None?
    {
      assert fs.up[r] == fs'.up[r] && fs.up[r].place.Some?;
      RelinkPath(fs, n, dest, fs.up[r].place.value.parent);
    }
  }

  lemma {:induction false} MkdirPath(fs: Forest, parent: Dir, name: string, n: Dir, m: Dir)
    requires Valid(fs) && parent in fs.up && n !in fs.up && IsName(name)
    requires m in fs.up
    ensures var fs' := Mkdir(fs, parent, name, n);
      LinksOk(fs'.up, fs'.rank) && PathOf(fs', m) == PathOf(fs, m)
    decreases fs.rank[m]
  {
    if fs.up[m].In? {
      MkdirPath(fs, parent, name, n, fs.up[m].parent);
    }
  }

  lemma MkdirValid(fs: Forest, parent: Dir, name: string, n: Dir)
    requires Valid(fs) && parent in fs.up && n !in fs.up && IsName(name) && Free(fs, parent, name)
    ensures Valid(Mkdir(fs, parent, name, n))
  {
    hide PathOf;
    var fs' := Mkdir(fs, parent, name, n);
    MkdirPath(fs, parent, name, n, parent);
    forall r | r in fs'.up && fs'.up[r].Root? && fs'.up[r].place.Some?
      ensures PathOf(fs', fs'.up[r].place.value.parent).None?
    {
      assert fs.up[r] == fs'.up[r] && fs.up[r].place.Some?;
      MkdirPath(fs, parent, name, n, fs.up[r].place.value.parent);
    }
  }

  lemma {:induction false} RmdirPath(fs: Forest, n: Dir, m: Dir)
    requires Valid(fs) && n in fs.up && Childless(fs, n)
    requires m in fs.up && m != n
    ensures LinksOk(Rmdir(fs, n).up, Rmdir(fs, n).rank) && PathOf(Rmdir(fs, n), m) == PathOf(fs, m)
    ensures forall k :: k in fs.up && k != n ==> (Under(Rmdir(fs, n), m, k) <==> Under(fs, m, k))
    ensures forall k :: k in fs.up && k != n ==> (Within(Rmdir(fs, n), m, k) <==> Within(fs, m, k))
    decreases fs.rank[m]
  {
    hide SiblingsDiffer, RootsDisjoint, RootsOutside;
    var fs' := Rmdir(fs, n);
    assert forall k :: k in fs.up && k != n ==> k in fs'.up && fs'.up[k] == fs.up[k] && fs'.rank[k] == fs.rank[k];
    if PlaceOf(fs.up[m]).Some? {
      RmdirPath(fs, n, PlaceOf(fs.up[m]).value.parent);
    }
  }

  lemma RmdirValid(fs: Forest, n: Dir)
    requires Valid(fs) && n in fs.up && Childless(fs, n)
    ensures Valid(Rmdir(fs, n))
  {
    hide PathOf, Under, Within;
    var fs' := Rmdir(fs, n);
    assert LinksOk(fs'.up, fs'.rank);
    forall r | r in fs'.up && fs'.up[r].Root? && fs'.up[r].place.Some?
      ensures PathOf(fs', fs'.up[r].place.value.parent).None?
    {
      assert fs.up[r] == fs'.up[r] && fs.up[r].place.Some?;
      assert PlaceOf(fs.up[r]).Some?;
      RmdirPath(fs, n, fs.up[r].place.value.parent);
    }
  }

  lemma RelinkOutside(fs: Forest, n: Dir, dest: Link, m: Dir)
    requires Valid(fs) && CanRelink(fs, n, dest) && m in fs.up
    ensures Under(Relink(fs, n, dest), m, n) <==> Under(fs, m, n)
    ensures !Under(fs, m, n) ==> PathOf(Relink(fs, n, dest), m) == PathOf(fs, m)
  {
    RelinkPath(fs, n, dest, m);
  }

  /** Inside a moved subtree, a pathname changes in its leading part only. */
  lemma {:induction false} RelinkInside(fs: Forest, n: Dir, dest: Link, m: Dir)
    requires Valid(fs) && CanRelink(fs, n, dest) && m in fs.up && Under(fs, m, n)
    requires var fs' := Relink(fs, n, dest); PathOf(fs, n).Some? && PathOf(fs', n).Some?
    ensures var fs' := Relink(fs, n, dest);
      && PathOf(fs, m).Some? && PathOf(fs', m).Some?
      && PathOf(fs, n).value <= PathOf(fs, m).value
      && PathOf(fs', m).value == Rebase(PathOf(fs, m).value, PathOf(fs, n).value, PathOf(fs', n).value)
    decreases fs.rank[m]
  {
    if m != n {
      RelinkInside(fs, n, dest, fs.up[m].parent);
      RebaseJoin(PathOf(fs, fs.up[m].parent).value, fs.up[m].name, PathOf(fs, n).value,
                 PathOf(Relink(fs, n, dest), n).value);
    }
  }

  // ---- the true pathnames, all at once ----

  /** The monitored directories with their pathnames. */
  function Tree(fs: Forest): map<Dir, string>
    requires Valid(fs)
  {
    map n | n in fs.up && PathOf(fs, n).Some? :: PathOf(fs, n).value
  }

  ghost function Tops(fs: Forest): set<Dir> {
    set n | n in fs.up && fs.up[n].Root?
  }

  ghost function Subtree(fs: Forest, n: Dir): set<Dir>
    requires Valid(fs)
  {
    set m | m in fs.up && Under(fs, m, n)
  }

  lemma TreeInjective(fs: Forest)
    requires Valid(fs)
    ensures forall m, n :: m in Tree(fs) && n in Tree(fs) && Tree(fs)[m] == Tree(fs)[n] ==> m == n
  {
    forall m, n | m in Tree(fs) && n in Tree(fs) && Tree(fs)[m] == Tree(fs)[n]
      ensures m == n
    {
      PathsDiffer(fs, m, n);
    }
  }

  lemma TreeBelow(fs: Forest, n: Dir)
    requires Valid(fs) && n in Tree(fs)
    ensures n in Subtree(fs, n)
    ensures forall m :: m in Tree(fs) ==> (AtOrBelow(Tree(fs)[m], Tree(fs)[n]) <==> m in Subtree(fs, n))
  {
    forall m | m in Tree(fs)
      ensures AtOrBelow(Tree(fs)[m], Tree(fs)[n]) <==> m in Subtree(fs, n)
    {
      BelowIffUnder(fs, m, n);
    }
  }

  lemma TopsInTree(fs: Forest)
    requires Valid(fs)
    ensures forall n :: n in Tops(fs) ==> n in Tree(fs) && Tree(fs)[n] == fs.up[n].path
  {
  }

  /** Every monitored pathname is at or below that of a root, and equals it for the root alone. */
  lemma TreeHasTop(fs: Forest, n: Dir) returns (r: Dir)
    requires Valid(fs) && n in Tree(fs)
    ensures r in Tops(fs) && r in Tree(fs) && AtOrBelow(Tree(fs)[n], Tree(fs)[r])
    ensures n == r <==> n in Tops(fs)
  {
    r := RootOf(fs, n);
    if n in Tops(fs) {
      assert AtOrBelow(fs.up[n].path, fs.up[r].path);
    }
  }

  lemma SubtreeMonitored(fs: Forest, n: Dir)
    requires Valid(fs) && n in fs.up
    ensures n in Subtree(fs, n)
    ensures if n in Tree(fs) then Subtree(fs, n) <= Tree(fs).Keys else Subtree(fs, n) !! Tree(fs).Keys
  {
    forall m | m in Subtree(fs, n)
      ensures m in Tree(fs) <==> n in Tree(fs)
    {
      UnderKeepsMonitored(fs, m, n);
    }
  }

  lemma ParentInTree(fs: Forest, n: Dir)
    requires Valid(fs) && n in fs.up
    ensures fs.up[n].In? ==> fs.up[n].parent in fs.up
    ensures n in Tree(fs) <==> fs.up[n].Root? || (fs.up[n].In? && fs.up[n].parent in Tree(fs))
    ensures n in Tree(fs) && fs.up[n].In? ==> Tree(fs)[n] == Join(Tree(fs)[fs.up[n].parent], fs.up[n].name)
  {
  }

  lemma TreeInside(fs: Forest)
    requires Valid(fs)
    ensures Tree(fs).Keys <= fs.up.Keys
  {
  }

  lemma TopsApart(fs: Forest, n: Dir)
    requires Valid(fs) && n in fs.up
    ensures Tops(fs) * Subtree(fs, n) <= {n}
  {
  }

  lemma MkdirNewPath(fs: Forest, parent: Dir, name: string, n: Dir)
    requires Valid(fs) && parent in fs.up && n !in fs.up && Valid(Mkdir(fs, parent, name, n))
    requires PathOf(Mkdir(fs, parent, name, n), parent) == PathOf(fs, parent)
    ensures PathOf(Mkdir(fs, parent, name, n), n) ==
            if PathOf(fs, parent).Some? then Some(Join(PathOf(fs, parent).value, name)) else None
  {
    hide SiblingsDiffer, RootsDisjoint, RootsOutside;
  }

  lemma MkdirTree(fs: Forest, parent: Dir, name: string, n: Dir)
    requires Valid(fs) && parent in fs.up && n !in fs.up && IsName(name) && Free(fs, parent, name)
    ensures var fs' := Mkdir(fs, parent, name, n);
      && Valid(fs') && Tops(fs') == Tops(fs) && fs'.up[n] == In(parent, name)
      && (forall m :: m in fs.up ==> fs'.up[m] == fs.up[m])
      && Tree(fs') == if parent in Tree(fs) then Tree(fs)[n := Join(Tree(fs)[parent], name)] else Tree(fs)
  {
    hide SiblingsDiffer, RootsDisjoint, RootsOutside, Free, PathOf, IsName;
    var fs' := Mkdir(fs, parent, name, n);
    MkdirValid(fs, parent, name, n);
    forall m | m in fs.up
      ensures PathOf(fs', m) == PathOf(fs, m)
    {
      MkdirPath(fs, parent, name, n, m);
    }
    MkdirNewPath(fs, parent, name, n);
    assert fs'.up == fs.up[n := In(parent, name)];
    assert Tops(fs') == Tops(fs);
  }

  lemma RmdirTree(fs: Forest, n: Dir)
    requires Valid(fs) && n in fs.up && Childless(fs, n)
    ensures Valid(Rmdir(fs, n)) && Tree(Rmdir(fs, n)) == Tree(fs) - {n} && Tops(Rmdir(fs, n)) == Tops(fs) - {n}
    ensures forall k :: k in fs.up && k != n ==> Subtree(Rmdir(fs, n), k) == Subtree(fs, k) - {n}
  {
    hide Within, Childless, Under, PathOf;
    var fs' := Rmdir(fs, n);
    RmdirValid(fs, n);
    forall m | m in fs.up && m != n
      ensures PathOf(fs', m) == PathOf(fs, m)
      ensures forall k :: k in fs.up && k != n ==> (Under(fs', m, k) <==> Under(fs, m, k))
    {
      RmdirPath(fs, n, m);
    }
    assert Tops(fs') == Tops(fs) - {n};
    assert Tree(fs') == Tree(fs) - {n};
    forall k | k in fs.up && k != n
      ensures Subtree(fs', k) == Subtree(fs, k) - {n}
    {
    }
  }

  /** A rename leaves every pathname outside the moved subtree alone. Inside it, a directory is
      monitored exactly if the new place is, and its pathname changes in its leading part. */
  lemma RelinkTree(fs: Forest, n: Dir, dest: Link)
    requires Valid(fs) && CanRelink(fs, n, dest)
    ensures var fs' := Relink(fs, n, dest);
      && Tops(fs') == Tops(fs) - {n} && Subtree(fs', n) == Subtree(fs, n)
      && fs'.up[n] == dest && (forall m :: m in fs.up && m != n ==> m in fs'.up && fs'.up[m] == fs.up[m])
      && (n in Tree(fs') <==> dest.In? && dest.parent in Tree(fs))
      && (n in Tree(fs') ==> Tree(fs')[n] == Join(Tree(fs)[dest.parent], dest.name))
      && (forall m :: m !in Subtree(fs, n) ==>
            && (m in Tree(fs') <==> m in Tree(fs))
            && (m in Tree(fs) ==> Tree(fs')[m] == Tree(fs)[m]))
      && (forall m :: m in Subtree(fs, n) && n in Tree(fs) && n in Tree(fs') ==>
            && m in Tree(fs) && m in Tree(fs') && Tree(fs)[n] <= Tree(fs)[m]
            && Tree(fs')[m] == Rebase(Tree(fs)[m], Tree(fs)[n], Tree(fs')[n]))
  {
    hide LinksOk, SiblingsDiffer, RootsDisjoint, RootsOutside, Lift, AboveRoot, Free, Under;
    var fs' := Relink(fs, n, dest);
    forall m | m in fs.up
      ensures Under(fs', m, n) <==> Under(fs, m, n)
      ensures !Under(fs, m, n) ==> PathOf(fs', m) == PathOf(fs, m)
    {
      RelinkOutside(fs, n, dest, m);
    }
    assert Subtree(fs', n) == Subtree(fs, n);
    assert Tops(fs') == Tops(fs) - {n};
    forall m | m in Subtree(fs, n) && n in Tree(fs) && n in Tree(fs')
      ensures && m in Tree(fs) && m in Tree(fs') && Tree(fs)[n] <= Tree(fs)[m]
              && Tree(fs')[m] == Rebase(Tree(fs)[m], Tree(fs)[n], Tree(fs')[n])
    {
      RelinkInside(fs, n, dest, m);
    }
  }

  // ---- roots below a directory that is moved ----

  /** The forest in which no pathname on the command line leads below `n` any more: the roots there are
      ordinary directories where they are. */
  function Uprooted(fs: Forest, n: Dir): Forest
    requires LinksOk(fs.up, fs.rank)
  {
    Forest(map m | m in fs.up ::
             if RootBelow(fs, m, n) then In(fs.up[m].place.value.parent, fs.up[m].place.value.name) else fs.up[m],
           fs.rank)
  }

  lemma UprootedLinks(fs: Forest, n: Dir)
    requires Valid(fs)
    ensures LinksOk(Uprooted(fs, n).up, Uprooted(fs, n).rank)
    ensures forall m :: m in fs.up ==> PlaceOf(Uprooted(fs, n).up[m]) == PlaceOf(fs.up[m])
  {
    hide RootsOutside, RootsDisjoint, SiblingsDiffer;
  }

  lemma {:induction false} UprootedWithin(fs: Forest, n: Dir, m: Dir, k: Dir)
    requires Valid(fs) && m in fs.up
    ensures LinksOk(Uprooted(fs, n).up, Uprooted(fs, n).rank)
    ensures Within(Uprooted(fs, n), m, k) <==> Within(fs, m, k)
    decreases fs.rank[m]
  {
    UprootedLinks(fs, n);
    hide RootsOutside, RootsDisjoint, SiblingsDiffer, RootBelow;
    if PlaceOf(fs.up[m]).Some? {
      UprootedWithin(fs, n, PlaceOf(fs.up[m]).value.parent, k);
    }
  }

  /** What is no longer under a root is not monitored; everything else keeps its pathname. */
  lemma {:induction false} UprootedPath(fs: Forest, n: Dir, m: Dir)
    requires Valid(fs) && m in fs.up
    ensures LinksOk(Uprooted(fs, n).up, Uprooted(fs, n).rank)
    ensures PathOf(Uprooted(fs, n), m) == PathOf(fs, m) || PathOf(Uprooted(fs, n), m).None?
    ensures RootBelow(fs, m, n) ==> PathOf(Uprooted(fs, n), m).None?
    decreases fs.rank[m]
  {
    UprootedLinks(fs, n);
    hide RootsDisjoint, SiblingsDiffer, Within;
    if fs.up[m].In? {
      UprootedPath(fs, n, fs.up[m].parent);
    } else if RootBelow(fs, m, n) {
      assert PlaceOf(fs.up[m]).Some?;
      UprootedPath(fs, n, fs.up[m].place.value.parent);
    }
  }

  lemma UprootedValid(fs: Forest, n: Dir)
    requires Valid(fs)
    ensures Valid(Uprooted(fs, n)) && !AboveRoot(Uprooted(fs, n), n)
  {
    hide PathOf, Within;
    var fs' := Uprooted(fs, n);
    UprootedLinks(fs, n);
    forall r | r in fs'.up && fs'.up[r].Root? && fs'.up[r].place.Some?
      ensures PathOf(fs', fs'.up[r].place.value.parent).None?
    {
      assert fs.up[r] == fs'.up[r] && fs.up[r].place.Some?;
      UprootedPath(fs, n, fs.up[r].place.value.parent);
    }
    forall r
      ensures !RootBelow(fs', r, n)
    {
      if r in fs.up {
        UprootedWithin(fs, n, r, n);
        assert fs'.up[r].Root? ==> !RootBelow(fs, r, n);
      }
    }
  }

  lemma UprootedSame(fs: Forest, n: Dir)
    requires LinksOk(fs.up, fs.rank) && !AboveRoot(fs, n)
    ensures Uprooted(fs, n) == fs
  {
    hide Within;
    assert forall m :: m in fs.up ==> !RootBelow(fs, m, n);
    assert Uprooted(fs, n).up == fs.up;
  }

  /** Nothing monitored has a root below it. */
  lemma {:induction false} WithinMonitored(fs: Forest, m: Dir, n: Dir)
    requires Valid(fs) && m in fs.up && n in fs.up && Within(fs, m, n) && PathOf(fs, n).Some?
    ensures PathOf(fs, m).Some?
    decreases fs.rank[m]
  {
    if m != n && fs.up[m].In? {
      WithinMonitored(fs, fs.up[m].parent, n);
    }
  }

  lemma AboveRootUnmonitored(fs: Forest, n: Dir)
    requires Valid(fs) && n in fs.up && AboveRoot(fs, n)
    ensures n !in Tree(fs)
  {
    var r :| RootBelow(fs, r, n);
    if PathOf(fs, n).Some? {
      assert fs.up[r].place.Some?;
      WithinMonitored(fs, fs.up[r].place.value.parent, n);
    }
  }
}
