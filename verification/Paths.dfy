/** Pathnames as the directory-tree program compares them (inotify_dtree.c). */
module Paths {

  /** A directory entry name: never empty, never containing a slash. */
  predicate IsName(s: string) {
    s != "" && '/' !in s
  }

  function Join(dir: string, name: string): string {
    dir + "/" + name
  }

  /** The strncmp() test followed by "slash or end of string". */
  predicate AtOrBelow(p: string, top: string) {
    top <= p && (|p| == |top| || p[|top|] == '/')
  }

  /** `p` with its leading `oldTop` replaced by `newTop`. */
  function Rebase(p: string, oldTop: string, newTop: string): string
    requires oldTop <= p
  {
    newTop + p[|oldTop|..]
  }

  lemma AtOrBelowTransitive(p: string, q: string, r: string)
    requires AtOrBelow(p, q) && AtOrBelow(q, r)
    ensures AtOrBelow(p, r)
  {
  }

  lemma NoSlashAfter(dir: string, name: string)
    requires IsName(name)
    ensures forall k :: |dir| < k < |Join(dir, name)| ==> Join(dir, name)[k] != '/'
  {
    forall k | |dir| < k < |Join(dir, name)|
      ensures Join(dir, name)[k] != '/'
    {
      assert Join(dir, name)[k] == name[k - |dir| - 1];
    }
  }

  /** Two different slash-free last components never make the same pathname. */
  lemma JoinInjective(d1: string, n1: string, d2: string, n2: string)
    requires IsName(n1) && IsName(n2)
    requires Join(d1, n1) == Join(d2, n2)
    ensures d1 == d2 && n1 == n2
  {
    var p := Join(d1, n1);
    NoSlashAfter(d1, n1);
    NoSlashAfter(d2, n2);
    assert p[|d1|] == '/' && p[|d2|] == '/';
    assert d1 == p[..|d1|] && d2 == p[..|d2|];
    assert n1 == p[|d1| + 1..] && n2 == p[|d2| + 1..];
  }

  /** The slash-or-end test looks through exactly one component at a time. */
  lemma BelowOneComponent(dir: string, name: string, top: string)
    requires IsName(name)
    ensures AtOrBelow(Join(dir, name), top) <==> Join(dir, name) == top || AtOrBelow(dir, top)
  {
    var p := Join(dir, name);
    NoSlashAfter(dir, name);
    if AtOrBelow(p, top) && p != top {
      assert top == p[..|top|];
      assert top == dir[..|top|];
    }
    if AtOrBelow(dir, top) {
      assert top == dir[..|top|] == p[..|top|];
    }
  }

  lemma RebaseJoin(dir: string, name: string, oldTop: string, newTop: string)
    requires oldTop <= dir
    ensures oldTop <= Join(dir, name)
    ensures Rebase(Join(dir, name), oldTop, newTop) == Join(Rebase(dir, oldTop, newTop), name)
  {
    assert oldTop == dir[..|oldTop|] == Join(dir, name)[..|oldTop|];
    assert Join(dir, name)[|oldTop|..] == dir[|oldTop|..] + "/" + name;
  }
}
