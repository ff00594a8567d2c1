/** The recursive display of namespaces_of.go, over the forest that the scan has built. */
module NamespaceDisplay {
  import opened Common
  import opened NamespaceForest

  /** One displayed line: the namespace and the level of its indentation. */
  datatype Line = Line(ns: NsId, level: int)

  /** User namespaces are always shown, others if their type is selected. */
  predicate Shown(list: NsList, n: NsId, types: set<int>) {
    n in list && (list[n].nsType == CLONE_NEWUSER || list[n].nsType in types)
  }

  /** displayNamespaceTree(). */
  function DisplayTree(w: World, list: NsList, ns: NsId, level: int, types: set<int>): seq<Line>
    requires Ok(w) && Linked(w, list, {}) && ns in list
    decreases w.bound - Rank(w, ns), |list[ns].children| + 1
  {
    (if Shown(list, ns, types) then [Line(ns, level)] else []) + DisplayChildren(w, list, ns, 0, level, types)
  }

  /** Its loop over the children from position `i` on. */
  function DisplayChildren(w: World, list: NsList, ns: NsId, i: nat, level: int, types: set<int>): seq<Line>
    requires Ok(w) && Linked(w, list, {}) && ns in list && i <= |list[ns].children|
    decreases w.bound - Rank(w, ns), |list[ns].children| - i
  {
    if i == |list[ns].children| then []
    else
      var c := list[ns].children[i];
      Below(w, list, ns, c);
      DisplayTree(w, list, c, level + 1, types) + DisplayChildren(w, list, ns, i + 1, level, types)
  }

  /** displayNamespaceHierarchies() without --subtree; None if the entry for `rootNS` does not exist,
      in which case the program dereferences a nil pointer. */
  function DisplayHierarchies(w: World, list: NsList, rootNS: NsId, types: set<int>): Option<seq<Line>>
    requires Ok(w) && Linked(w, list, {})
  {
    if rootNS !in list then None
    else Some(DisplayTree(w, list, rootNS, 0, types) +
              if INVIS_USER_NS in list then DisplayTree(w, list, INVIS_USER_NS, 0, types) else [])
  }

  /** With it; None if there is no entry for the namespace, in which case the program dereferences a
      nil pointer. */
  function DisplaySubtree(w: World, list: NsList, ns: NsId, types: set<int>): Option<seq<Line>>
    requires Ok(w) && Linked(w, list, {})
  {
    if ns !in list then None else Some(DisplayTree(w, list, ns, 0, types))
  }

  lemma Below(w: World, list: NsList, ns: NsId, c: NsId)
    requires Ok(w) && Linked(w, list, {}) && ns in list && c in list[ns].children
    ensures c in list && c != INVIS_USER_NS && Owner(w, c) == Some(ns) && Rank(w, ns) < Rank(w, c) < w.bound
  {
    hide Linked;
    HasOwner(w, list, ns, c);
  }

  lemma HasOwner(w: World, list: NsList, ns: NsId, c: NsId)
    requires Ok(w) && Linked(w, list, {}) && ns in list && c in list[ns].children
    ensures c in list && NamespaceForest.Known(w, c) && Owner(w, c) == Some(ns)
  {
    hide Ok, Owner, NoDup;
  }

  // ---- depth and ancestry ----

  ghost function Depth(w: World, n: NsId): nat
    requires Ok(w) && NamespaceForest.Known(w, n)
    decreases Rank(w, n)
  {
    if Owner(w, n).None? then 0 else 1 + Depth(w, Owner(w, n).value)
  }

  /** Along one line of ancestors, depth decides. */
  lemma {:induction false} AncestorsByDepth(w: World, n: NsId, a: NsId)
    requires Ok(w) && NamespaceForest.Known(w, n) && a in Ancestors(w, n)
    ensures NamespaceForest.Known(w, a) && Depth(w, a) <= Depth(w, n) && Rank(w, a) <= Rank(w, n)
    ensures Depth(w, a) == Depth(w, n) ==> a == n
    decreases Rank(w, n)
  {
    if a != n {
      AncestorsByDepth(w, Owner(w, n).value, a);
    }
  }

  lemma {:induction false} OneAtEachDepth(w: World, n: NsId, a: NsId, b: NsId)
    requires Ok(w) && NamespaceForest.Known(w, n) && a in Ancestors(w, n) && b in Ancestors(w, n)
    requires NamespaceForest.Known(w, a) && NamespaceForest.Known(w, b) && Depth(w, a) == Depth(w, b)
    ensures a == b
    decreases Rank(w, n)
  {
    AncestorsByDepth(w, n, a);
    AncestorsByDepth(w, n, b);
    if a != n && b != n {
      OneAtEachDepth(w, Owner(w, n).value, a, b);
    }
  }

  lemma {:induction false} AncestorsTransitive(w: World, n: NsId, a: NsId)
    requires Ok(w) && NamespaceForest.Known(w, n) && a in Ancestors(w, n)
    ensures NamespaceForest.Known(w, a) && Ancestors(w, a) <= Ancestors(w, n)
    decreases Rank(w, n)
  {
    if a != n {
      AncestorsTransitive(w, Owner(w, n).value, a);
    }
  }

  /** The child of `top` on the way down to a descendant. */
  lemma {:induction false} ChildTowards(w: World, list: NsList, n: NsId, top: NsId) returns (c: NsId)
    requires Ok(w) && Linked(w, list, {}) && n in list && top in Ancestors(w, n) && n != top
    ensures top in list && c in list[top].children && c in Ancestors(w, n)
    decreases Rank(w, n)
  {
    var owner := Owner(w, n).value;
    if owner == top {
      c := n;
    } else {
      c := ChildTowards(w, list, owner, top);
    }
  }

  // ---- what is displayed ----

  function Count(lines: seq<Line>, n: NsId): nat {
    if lines == [] then 0 else (if lines[0].ns == n then 1 else 0) + Count(lines[1..], n)
  }

  lemma {:induction false} CountConcat(a: seq<Line>, b: seq<Line>, n: NsId)
    ensures Count(a + b, n) == Count(a, n) + Count(b, n)
  {
    if a == [] {
      assert a + b == b;
    } else {
      assert (a + b)[1..] == a[1..] + b;
      CountConcat(a[1..], b, n);
    }
  }

  /** A namespace is displayed once by the walk from `ns` if it is shown and lies at or below `ns`,
      and otherwise not at all. */
  lemma {:induction false} TreeCounts(w: World, list: NsList, ns: NsId, level: int, types: set<int>, n: NsId)
    requires Ok(w) && Linked(w, list, {}) && ns in list && n in list
    ensures Count(DisplayTree(w, list, ns, level, types), n) ==
            if Shown(list, n, types) && ns in Ancestors(w, n) then 1 else 0
    decreases w.bound - Rank(w, ns), |list[ns].children| + 1
  {
    var head := if Shown(list, ns, types) then [Line(ns, level)] else [];
    CountConcat(head, DisplayChildren(w, list, ns, 0, level, types), n);
    ChildrenCount(w, list, ns, 0, level, types, n);
    if n != ns && ns in Ancestors(w, n) {
      var c := ChildTowards(w, list, n, ns);
    }
    ChildAbove(w, list, ns, n);
  }

  /** A child of `ns` above `n` means that `n` lies strictly below `ns`. */
  lemma ChildAbove(w: World, list: NsList, ns: NsId, n: NsId)
    requires Ok(w) && Linked(w, list, {}) && ns in list && n in list
    ensures forall c :: c in list[ns].children && c in Ancestors(w, n) ==> ns in Ancestors(w, n) && n != ns
    ensures forall c, d | c in list[ns].children && d in list[ns].children ::
              c in Ancestors(w, n) && d in Ancestors(w, n) ==> c == d
  {
    forall c | c in list[ns].children && c in Ancestors(w, n)
      ensures ns in Ancestors(w, n) && n != ns
    {
      Below(w, list, ns, c);
      AncestorsTransitive(w, n, c);
      AncestorsByDepth(w, n, c);
    }
    forall c, d | c in list[ns].children && d in list[ns].children && c in Ancestors(w, n) && d in Ancestors(w, n)
      ensures c == d
    {
      Below(w, list, ns, c);
      Below(w, list, ns, d);
      OneAtEachDepth(w, n, c, d);
    }
  }

  lemma ListedOnce(w: World, list: NsList, ns: NsId)
    requires Ok(w) && Linked(w, list, {}) && ns in list
    ensures NoDup(list[ns].children)
  {
  }

  lemma {:induction false} ChildrenCount(w: World, list: NsList, ns: NsId, i: nat, level: int, types: set<int>, n: NsId)
    requires Ok(w) && Linked(w, list, {}) && ns in list && n in list && i <= |list[ns].children|
    ensures Count(DisplayChildren(w, list, ns, i, level, types), n) ==
            if Shown(list, n, types) &&
               exists j :: i <= j < |list[ns].children| && list[ns].children[j] in Ancestors(w, n)
            then 1 else 0
    decreases w.bound - Rank(w, ns), |list[ns].children| - i
  {
    hide Ok, Linked, Ancestors, Owner, DisplayTree, Shown;
    var ch := list[ns].children;
    if i < |ch| {
      Below(w, list, ns, ch[i]);
      ListedOnce(w, list, ns);
      CountConcat(DisplayTree(w, list, ch[i], level + 1, types), DisplayChildren(w, list, ns, i + 1, level, types), n);
      TreeCounts(w, list, ch[i], level + 1, types, n);
      ChildrenCount(w, list, ns, i + 1, level, types, n);
      ChildAbove(w, list, ns, n);
    }
  }

  /** Only recorded namespaces at or below `ns` are displayed, at their depth below `ns`. */
  lemma {:induction false} TreeLevels(w: World, list: NsList, ns: NsId, level: int, types: set<int>)
    requires Ok(w) && Linked(w, list, {}) && ns in list
    ensures forall x :: x in DisplayTree(w, list, ns, level, types) ==>
              && Shown(list, x.ns, types) && NamespaceForest.Known(w, x.ns)
              && ns in Ancestors(w, x.ns) && x.level == level + Depth(w, x.ns) - Depth(w, ns)
    decreases w.bound - Rank(w, ns), |list[ns].children| + 1
  {
    ChildrenLevels(w, list, ns, 0, level, types);
  }

  lemma {:induction false} ChildrenLevels(w: World, list: NsList, ns: NsId, i: nat, level: int, types: set<int>)
    requires Ok(w) && Linked(w, list, {}) && ns in list && i <= |list[ns].children|
    ensures forall x :: x in DisplayChildren(w, list, ns, i, level, types) ==>
              && Shown(list, x.ns, types) && NamespaceForest.Known(w, x.ns)
              && ns in Ancestors(w, x.ns) && x.level == level + Depth(w, x.ns) - Depth(w, ns)
    decreases w.bound - Rank(w, ns), |list[ns].children| - i
  {
    if i < |list[ns].children| {
      var c := list[ns].children[i];
      Below(w, list, ns, c);
      TreeLevels(w, list, c, level + 1, types);
      ChildrenLevels(w, list, ns, i + 1, level, types);
      forall x | x in DisplayTree(w, list, c, level + 1, types)
        ensures ns in Ancestors(w, x.ns) && x.level == level + Depth(w, x.ns) - Depth(w, ns)
      {
        AncestorsTransitive(w, x.ns, c);
      }
    }
  }

  // ---- in which order ----

  /** Line `i` shows `a`, and the lines after it up to `j` are indented further and show namespaces below `a`. */
  ghost predicate Heads(w: World, lines: seq<Line>, i: int, j: int, a: NsId)
    requires Ok(w)
  {
    && 0 <= i < j < |lines| && lines[i].ns == a
    && forall m :: i < m <= j ==>
         lines[m].level > lines[i].level && NamespaceForest.Known(w, lines[m].ns) && a in Ancestors(w, lines[m].ns)
  }

  ghost predicate AtOrUnder(w: World, n: NsId, a: NsId)
    requires Ok(w)
  {
    NamespaceForest.Known(w, n) && a in Ancestors(w, n)
  }

  /** Every shown namespace at or below `ns`, or strictly below it, heads the lines of those below it. */
  ghost predicate Headed(w: World, list: NsList, types: set<int>, lines: seq<Line>, ns: NsId, strictly: bool)
    requires Ok(w)
  {
    forall j, a :: 0 <= j < |lines| && a in list && AtOrUnder(w, a, ns) && (strictly ==> a != ns) &&
                   (list[a].nsType == CLONE_NEWUSER || list[a].nsType in types) &&
                   AtOrUnder(w, lines[j].ns, a) && a != lines[j].ns ==>
      exists i :: Heads(w, lines, i, j, a)
  }

  /** `m` lies at or below an earlier child of `p` than `n`. */
  ghost predicate Earlier(w: World, list: NsList, p: NsId, m: NsId, n: NsId)
    requires Ok(w)
  {
    p in list && exists x, y :: 0 <= x < y < |list[p].children| &&
                                AtOrUnder(w, m, list[p].children[x]) && AtOrUnder(w, n, list[p].children[y])
  }

  /** Earlier children of every namespace at or below `ns` come first, each with all that is below it. */
  ghost predicate ChildrenInTurn(w: World, list: NsList, lines: seq<Line>, ns: NsId)
    requires Ok(w)
  {
    forall p, i, j | 0 <= i < |lines| && 0 <= j < |lines| && AtOrUnder(w, p, ns) ::
      Earlier(w, list, p, lines[i].ns, lines[j].ns) ==> i < j
  }

  lemma HeadsShift(w: World, a: seq<Line>, b: seq<Line>, i: int, j: int, n: NsId)
    requires Ok(w)
    ensures Heads(w, b, i, j, n) ==> Heads(w, a + b, |a| + i, |a| + j, n)
    ensures Heads(w, a, i, j, n) ==> Heads(w, a + b, i, j, n)
  {
    hide Ok, Ancestors;
    if Heads(w, b, i, j, n) {
      forall m | |a| + i < m <= |a| + j
        ensures (a + b)[m] == b[m - |a|]
      {
      }
    }
  }

  lemma HeadedConcat(w: World, list: NsList, types: set<int>, a: seq<Line>, b: seq<Line>, ns: NsId, strictly: bool)
    requires Ok(w) && Headed(w, list, types, a, ns, strictly) && Headed(w, list, types, b, ns, strictly)
    ensures Headed(w, list, types, a + b, ns, strictly)
  {
    hide Ok, Ancestors, AtOrUnder, Heads;
    forall j, n | 0 <= j < |a + b| && n in list && AtOrUnder(w, n, ns) && (strictly ==> n != ns) &&
                  (list[n].nsType == CLONE_NEWUSER || list[n].nsType in types) &&
                  AtOrUnder(w, (a + b)[j].ns, n) && n != (a + b)[j].ns
      ensures exists i :: Heads(w, a + b, i, j, n)
    {
      if j < |a| {
        assert (a + b)[j] == a[j];
        var i :| Heads(w, a, i, j, n);
        HeadsShift(w, a, b, i, j, n);
      } else {
        assert (a + b)[j] == b[j - |a|];
        var i :| Heads(w, b, i, j - |a|, n);
        HeadsShift(w, a, b, i, j - |a|, n);
      }
    }
  }

  /** Of two namespaces above the same one, the deeper is below the other. */
  lemma {:induction false} DeeperIsBelow(w: World, n: NsId, a: NsId, b: NsId)
    requires Ok(w) && NamespaceForest.Known(w, n) && a in Ancestors(w, n) && b in Ancestors(w, n)
    requires NamespaceForest.Known(w, a) && NamespaceForest.Known(w, b) && Depth(w, b) <= Depth(w, a)
    ensures b in Ancestors(w, a)
    decreases Rank(w, n)
  {
    AncestorsByDepth(w, n, a);
    AncestorsByDepth(w, n, b);
    if a != n && b != n {
      DeeperIsBelow(w, Owner(w, n).value, a, b);
    }
  }

  /** What is strictly below `ns` and above something below its child `c` is below `c` too. */
  lemma BelowSameChild(w: World, list: NsList, ns: NsId, c: NsId, a: NsId, n: NsId)
    requires Ok(w) && Linked(w, list, {}) && ns in list && c in list[ns].children
    requires AtOrUnder(w, n, c) && AtOrUnder(w, n, a) && AtOrUnder(w, a, ns) && a != ns
    ensures AtOrUnder(w, a, c)
  {
    hide Linked, Ancestors;
    HasOwner(w, list, ns, c);
    ChildDepth(w, ns, c);
    AncestorsByDepth(w, a, ns);
    DeeperIsBelow(w, n, a, c);
  }

  lemma ChildDepth(w: World, ns: NsId, c: NsId)
    requires Ok(w) && NamespaceForest.Known(w, c) && Owner(w, c) == Some(ns)
    ensures NamespaceForest.Known(w, ns) && Depth(w, c) == Depth(w, ns) + 1
  {
  }

  /** From the child's point of view to that of `ns`. */
  lemma HeadedAbove(w: World, list: NsList, types: set<int>, lines: seq<Line>, ns: NsId, c: NsId)
    requires Ok(w) && Linked(w, list, {}) && ns in list && c in list[ns].children
    requires Headed(w, list, types, lines, c, false) && forall x :: x in lines ==> AtOrUnder(w, x.ns, c)
    ensures Headed(w, list, types, lines, ns, true)
  {
    hide Ok, Linked, Ancestors, AtOrUnder, Heads;
    forall j, a | 0 <= j < |lines| && a in list && AtOrUnder(w, a, ns) && a != ns &&
                  (list[a].nsType == CLONE_NEWUSER || list[a].nsType in types) &&
                  AtOrUnder(w, lines[j].ns, a) && a != lines[j].ns
      ensures exists i :: Heads(w, lines, i, j, a)
    {
      assert lines[j] in lines;
      BelowSameChild(w, list, ns, c, a, lines[j].ns);
    }
  }

  /** The line of a namespace before those below it. */
  lemma HeadedByItself(w: World, list: NsList, types: set<int>, ns: NsId, level: int, below: seq<Line>)
    requires Ok(w) && ns in list && NamespaceForest.Known(w, ns) && Headed(w, list, types, below, ns, true)
    requires forall x :: x in below ==> AtOrUnder(w, x.ns, ns) && x.level > level
    ensures Shown(list, ns, types) ==> Headed(w, list, types, [Line(ns, level)] + below, ns, false)
    ensures !Shown(list, ns, types) ==> Headed(w, list, types, below, ns, false)
  {
    hide Ok, Ancestors;
    var lines := [Line(ns, level)] + below;
    if Shown(list, ns, types) {
      forall j, a | 0 <= j < |lines| && a in list && AtOrUnder(w, a, ns) &&
                    (list[a].nsType == CLONE_NEWUSER || list[a].nsType in types) &&
                    AtOrUnder(w, lines[j].ns, a) && a != lines[j].ns
        ensures exists i :: Heads(w, lines, i, j, a)
      {
        if j == 0 {
          AncestorsByDepth(w, ns, a);
          AncestorsByDepth(w, a, ns);
        } else if a == ns {
          assert forall m :: 0 < m <= j ==> lines[m] == below[m - 1] && below[m - 1] in below;
          assert Heads(w, lines, 0, j, a);
        } else {
          assert lines[j] == below[j - 1];
          var i :| Heads(w, below, i, j - 1, a);
          HeadsShift(w, [Line(ns, level)], below, i, j - 1, a);
        }
      }
    }
  }

  lemma TreeLines(w: World, list: NsList, ns: NsId, level: int, types: set<int>)
    requires Ok(w) && Linked(w, list, {}) && ns in list
    ensures forall x :: x in DisplayTree(w, list, ns, level, types) ==> AtOrUnder(w, x.ns, ns)
  {
    hide Ok, Linked, Ancestors, DisplayTree;
    TreeLevels(w, list, ns, level, types);
  }

  lemma {:induction false} ChildrenDeeper(w: World, list: NsList, ns: NsId, i: nat, level: int, types: set<int>)
    requires Ok(w) && Linked(w, list, {}) && ns in list && i <= |list[ns].children|
    ensures forall x :: x in DisplayChildren(w, list, ns, i, level, types) ==> AtOrUnder(w, x.ns, ns) && x.level > level
    decreases |list[ns].children| - i
  {
    hide Ok, Linked, Ancestors, DisplayTree, Owner;
    if i < |list[ns].children| {
      var c := list[ns].children[i];
      Below(w, list, ns, c);
      TreeLevels(w, list, c, level + 1, types);
      ChildrenDeeper(w, list, ns, i + 1, level, types);
      forall x | x in DisplayTree(w, list, c, level + 1, types)
        ensures AtOrUnder(w, x.ns, ns) && x.level > level
      {
        AncestorsByDepth(w, x.ns, c);
        UnderChild(w, x.ns, c, ns);
      }
    }
  }

  lemma UnderChild(w: World, n: NsId, c: NsId, ns: NsId)
    requires Ok(w) && AtOrUnder(w, n, c) && NamespaceForest.Known(w, c) && Owner(w, c) == Some(ns)
    ensures AtOrUnder(w, n, ns)
  {
    AncestorsTransitive(w, n, c);
  }

  /** In the display from `ns`, whatever is shown heads the block of lines of what is below it. */
  lemma {:induction false} TreeHeaded(w: World, list: NsList, ns: NsId, level: int, types: set<int>)
    requires Ok(w) && Linked(w, list, {}) && ns in list
    ensures Headed(w, list, types, DisplayTree(w, list, ns, level, types), ns, false)
    decreases w.bound - Rank(w, ns), |list[ns].children| + 1
  {
    assert NamespaceForest.Known(w, ns);
    var below := DisplayChildren(w, list, ns, 0, level, types);
    assert DisplayTree(w, list, ns, level, types) ==
           (if Shown(list, ns, types) then [Line(ns, level)] else []) + below;
    hide Ok, Linked, Ancestors, DisplayTree, DisplayChildren, Headed, Shown, AtOrUnder;
    assert [] + below == below;
    ChildrenHeaded(w, list, ns, 0, level, types);
    ChildrenDeeper(w, list, ns, 0, level, types);
    HeadedByItself(w, list, types, ns, level, below);
  }

  lemma {:induction false} ChildrenHeaded(w: World, list: NsList, ns: NsId, i: nat, level: int, types: set<int>)
    requires Ok(w) && Linked(w, list, {}) && ns in list && i <= |list[ns].children|
    ensures Headed(w, list, types, DisplayChildren(w, list, ns, i, level, types), ns, true)
    decreases w.bound - Rank(w, ns), |list[ns].children| - i
  {
    hide Ok, Linked, Ancestors, DisplayTree, Heads, AtOrUnder;
    if i < |list[ns].children| {
      var c := list[ns].children[i];
      Below(w, list, ns, c);
      var first, rest := DisplayTree(w, list, c, level + 1, types), DisplayChildren(w, list, ns, i + 1, level, types);
      TreeHeaded(w, list, c, level + 1, types);
      TreeLines(w, list, c, level + 1, types);
      HeadedAbove(w, list, types, first, ns, c);
      ChildrenHeaded(w, list, ns, i + 1, level, types);
      HeadedConcat(w, list, types, first, rest, ns, true);
    }
  }

  lemma {:induction false} LineCounted(lines: seq<Line>, j: nat)
    requires j < |lines|
    ensures Count(lines, lines[j].ns) >= 1
  {
    if j > 0 {
      LineCounted(lines[1..], j - 1);
    }
  }

  /** The lines from position `i` on are below children from there on. */
  lemma LineBelowLater(w: World, list: NsList, ns: NsId, i: nat, level: int, types: set<int>, j: nat)
    requires Ok(w) && Linked(w, list, {}) && ns in list && i <= |list[ns].children|
    requires j < |DisplayChildren(w, list, ns, i, level, types)|
    ensures var n := DisplayChildren(w, list, ns, i, level, types)[j].ns;
      exists x :: i <= x < |list[ns].children| && AtOrUnder(w, n, list[ns].children[x])
  {
    hide Ok, Linked, Ancestors, DisplayTree, DisplayChildren, Count;
    var lines := DisplayChildren(w, list, ns, i, level, types);
    ChildrenLevels(w, list, ns, i, level, types);
    assert lines[j] in lines;
    LineCounted(lines, j);
    ChildrenCount(w, list, ns, i, level, types, lines[j].ns);
  }

  lemma OneIndex(w: World, list: NsList, ns: NsId, n: NsId, x: nat, y: nat)
    requires Ok(w) && Linked(w, list, {}) && ns in list && n in list
    requires x < |list[ns].children| && y < |list[ns].children|
    requires AtOrUnder(w, n, list[ns].children[x]) && AtOrUnder(w, n, list[ns].children[y])
    ensures x == y
  {
    hide Ok, Linked, Ancestors;
    ChildAbove(w, list, ns, n);
    ListedOnce(w, list, ns);
  }

  /** Two lines, with the first below an earlier child of `p`, that are both below the child `c` of `ns`:
      then so is `p`. */
  lemma TurnsInside(w: World, list: NsList, ns: NsId, x: nat, p: NsId, m: NsId, n: NsId)
    requires Ok(w) && Linked(w, list, {}) && ns in list && x < |list[ns].children| && m in list && n in list
    requires AtOrUnder(w, m, list[ns].children[x]) && AtOrUnder(w, p, ns) && Earlier(w, list, p, m, n)
    requires AtOrUnder(w, n, list[ns].children[x]) || p != ns
    ensures p != ns && AtOrUnder(w, p, list[ns].children[x]) && AtOrUnder(w, n, list[ns].children[x])
  {
    hide Ok, Linked, Ancestors, Owner;
    var a, b :| 0 <= a < b < |list[p].children| &&
                AtOrUnder(w, m, list[p].children[a]) && AtOrUnder(w, n, list[p].children[b]);
    if p == ns {
      OneIndex(w, list, ns, m, x, a);
      OneIndex(w, list, ns, n, x, b);
    } else {
      Below(w, list, p, list[p].children[a]);
      Below(w, list, p, list[p].children[b]);
      HasOwner(w, list, p, list[p].children[a]);
      HasOwner(w, list, p, list[p].children[b]);
      UnderChild(w, m, list[p].children[a], p);
      UnderChild(w, n, list[p].children[b], p);
      BelowSameChild(w, list, ns, list[ns].children[x], p, m);
      AncestorsTransitive(w, n, p);
    }
  }

  lemma LinesListed(w: World, list: NsList, ns: NsId, i: nat, level: int, types: set<int>)
    requires Ok(w) && Linked(w, list, {}) && ns in list && i <= |list[ns].children|
    ensures forall x :: x in DisplayChildren(w, list, ns, i, level, types) ==> x.ns in list
    ensures forall x :: x in DisplayTree(w, list, ns, level, types) ==> x.ns in list
  {
    hide Ok, Linked, Ancestors, DisplayTree, DisplayChildren;
    ChildrenLevels(w, list, ns, i, level, types);
    TreeLevels(w, list, ns, level, types);
  }

  lemma TurnsConcat(w: World, list: NsList, ns: NsId, x: nat, first: seq<Line>, rest: seq<Line>)
    requires Ok(w) && Linked(w, list, {}) && ns in list && x < |list[ns].children|
    requires forall l :: l in first ==> l.ns in list && AtOrUnder(w, l.ns, list[ns].children[x])
    requires forall l :: l in rest ==> l.ns in list
    requires forall j :: 0 <= j < |rest| ==>
               exists y :: x < y < |list[ns].children| && AtOrUnder(w, rest[j].ns, list[ns].children[y])
    requires ChildrenInTurn(w, list, first, list[ns].children[x]) && ChildrenInTurn(w, list, rest, ns)
    ensures ChildrenInTurn(w, list, first + rest, ns)
  {
    hide Ok, Linked, Ancestors, AtOrUnder, Earlier;
    var lines := first + rest;
    forall p, i, j | 0 <= i < |lines| && 0 <= j < |lines| && AtOrUnder(w, p, ns) &&
                     Earlier(w, list, p, lines[i].ns, lines[j].ns)
      ensures i < j
    {
      if j < |first| {
        assert lines[j] == first[j] && first[j] in first;
        if i < |first| {
          assert lines[i] == first[i] && first[i] in first;
          TurnsInside(w, list, ns, x, p, lines[i].ns, lines[j].ns);
        } else {
          assert lines[i] == rest[i - |first|] && rest[i - |first|] in rest;
          var y :| x < y < |list[ns].children| && AtOrUnder(w, rest[i - |first|].ns, list[ns].children[y]);
          NotBefore(w, list, ns, x, y, p, lines[i].ns, lines[j].ns);
        }
      } else if i >= |first| {
        assert lines[i] == rest[i - |first|] && lines[j] == rest[j - |first|];
      }
    }
  }

  /** What is below a later child of `ns` does not come earlier. */
  lemma NotBefore(w: World, list: NsList, ns: NsId, x: nat, y: nat, p: NsId, m: NsId, n: NsId)
    requires Ok(w) && Linked(w, list, {}) && ns in list && x < y < |list[ns].children| && m in list && n in list
    requires AtOrUnder(w, m, list[ns].children[y]) && AtOrUnder(w, n, list[ns].children[x]) && AtOrUnder(w, p, ns)
    ensures !Earlier(w, list, p, m, n)
  {
    hide Ok, Linked, Ancestors, AtOrUnder;
    if Earlier(w, list, p, m, n) {
      if p == ns {
        var a, b :| 0 <= a < b < |list[p].children| &&
                    AtOrUnder(w, m, list[p].children[a]) && AtOrUnder(w, n, list[p].children[b]);
        OneIndex(w, list, ns, m, y, a);
        OneIndex(w, list, ns, n, x, b);
      } else {
        TurnsInside(w, list, ns, y, p, m, n);
        OneIndex(w, list, ns, n, x, y);
      }
    }
  }

  lemma NeverEarlier(w: World, list: NsList, ns: NsId, p: NsId, n: NsId)
    requires Ok(w) && Linked(w, list, {}) && NamespaceForest.Known(w, ns) && AtOrUnder(w, p, ns)
    ensures !Earlier(w, list, p, ns, n) && !Earlier(w, list, p, n, ns)
  {
    hide Linked, Ancestors;
    AncestorsByDepth(w, p, ns);
    if p in list {
      forall x | 0 <= x < |list[p].children|
        ensures !AtOrUnder(w, ns, list[p].children[x])
      {
        var c := list[p].children[x];
        HasOwner(w, list, p, c);
        ChildDepth(w, p, c);
        if AtOrUnder(w, ns, c) {
          AncestorsByDepth(w, ns, c);
        }
      }
    }
  }

  lemma TurnsHead(w: World, list: NsList, ns: NsId, level: int, below: seq<Line>)
    requires Ok(w) && Linked(w, list, {}) && NamespaceForest.Known(w, ns) && ChildrenInTurn(w, list, below, ns)
    ensures ChildrenInTurn(w, list, [Line(ns, level)] + below, ns)
  {
    hide Ok, Linked, Ancestors, AtOrUnder, Earlier;
    var lines := [Line(ns, level)] + below;
    forall p, i, j | 0 <= i < |lines| && 0 <= j < |lines| && AtOrUnder(w, p, ns) &&
                     Earlier(w, list, p, lines[i].ns, lines[j].ns)
      ensures i < j
    {
      NeverEarlier(w, list, ns, p, lines[i].ns);
      NeverEarlier(w, list, ns, p, lines[j].ns);
      assert i > 0 && j > 0;
      assert lines[i] == below[i - 1] && lines[j] == below[j - 1];
    }
  }

  /** In the display from `ns`, children come in the order in which they are recorded. */
  lemma {:induction false} TreeInTurn(w: World, list: NsList, ns: NsId, level: int, types: set<int>)
    requires Ok(w) && Linked(w, list, {}) && ns in list
    ensures ChildrenInTurn(w, list, DisplayTree(w, list, ns, level, types), ns)
    decreases w.bound - Rank(w, ns), |list[ns].children| + 1
  {
    assert NamespaceForest.Known(w, ns);
    var below := DisplayChildren(w, list, ns, 0, level, types);
    assert DisplayTree(w, list, ns, level, types) ==
           (if Shown(list, ns, types) then [Line(ns, level)] else []) + below;
    hide Ok, Linked, Ancestors, DisplayTree, DisplayChildren, Shown, ChildrenInTurn;
    assert [] + below == below;
    ChildrenTurns(w, list, ns, 0, level, types);
    TurnsHead(w, list, ns, level, below);
  }

  lemma {:induction false} ChildrenTurns(w: World, list: NsList, ns: NsId, i: nat, level: int, types: set<int>)
    requires Ok(w) && Linked(w, list, {}) && ns in list && i <= |list[ns].children|
    ensures ChildrenInTurn(w, list, DisplayChildren(w, list, ns, i, level, types), ns)
    decreases w.bound - Rank(w, ns), |list[ns].children| - i
  {
    hide Ok, Linked, Ancestors, DisplayTree, AtOrUnder, Earlier;
    if i < |list[ns].children| {
      var c := list[ns].children[i];
      Below(w, list, ns, c);
      var first, rest := DisplayTree(w, list, c, level + 1, types), DisplayChildren(w, list, ns, i + 1, level, types);
      TreeInTurn(w, list, c, level + 1, types);
      TreeLines(w, list, c, level + 1, types);
      LinesListed(w, list, c, 0, level + 1, types);
      LinesListed(w, list, ns, i + 1, level, types);
      ChildrenTurns(w, list, ns, i + 1, level, types);
      forall j | 0 <= j < |rest|
        ensures exists y :: i < y < |list[ns].children| && AtOrUnder(w, rest[j].ns, list[ns].children[y])
      {
        LineBelowLater(w, list, ns, i + 1, level, types, j);
      }
      TurnsConcat(w, list, ns, i, first, rest);
    }
  }

  /** The top above a recorded namespace is recorded too: the root or the special entry. */
  lemma {:induction false} TopAbove(w: World, list: NsList, rootNS: NsId, n: NsId) returns (top: NsId)
    requires Ok(w) && Linked(w, list, {}) && RootOk(w, list, rootNS, {}) && n in list
    ensures top in list && top in Ancestors(w, n) && Owner(w, top).None?
    ensures top == rootNS || top == INVIS_USER_NS
    decreases Rank(w, n)
  {
    if Owner(w, n).None? {
      top := n;
    } else {
      top := TopAbove(w, list, rootNS, Owner(w, n).value);
    }
  }

  lemma {:induction false} OneTopAbove(w: World, n: NsId, a: NsId, b: NsId)
    requires Ok(w) && NamespaceForest.Known(w, n) && a in Ancestors(w, n) && b in Ancestors(w, n)
    requires NamespaceForest.Known(w, a) && NamespaceForest.Known(w, b) && Owner(w, a).None? && Owner(w, b).None?
    ensures a == b
  {
    OneAtEachDepth(w, n, a, b);
  }

  /** Without --subtree, every shown namespace appears at its depth; once if a top of the hierarchy
      has been recorded, and twice if only namespaces with invisible owners have: `rootNS` then still
      is the zero ID, which is also the key of the special entry. With nothing recorded, the program
      crashes. */
  lemma HierarchiesExact(w: World, list: NsList, rootNS: NsId, types: set<int>)
    requires Ok(w) && Linked(w, list, {}) && RootOk(w, list, rootNS, {})
    ensures DisplayHierarchies(w, list, rootNS, types).None? <==> list == map[]
    ensures list != map[] ==> var lines := DisplayHierarchies(w, list, rootNS, types).value;
      && (forall n :: n in list ==>
            Count(lines, n) ==
            if list[n].nsType != CLONE_NEWUSER && list[n].nsType !in types then 0
            else if rootNS != INVIS_USER_NS then 1 else 2)
      && (forall x :: x in lines ==>
            x.ns in list && NamespaceForest.Known(w, x.ns) && x.level == Depth(w, x.ns))
  {
    hide Ok, Linked, RootOk, Ancestors, Owner, Depth, Count, DisplayTree;
    RootRecorded(w, list, rootNS);
    if list != map[] {
      var first := DisplayTree(w, list, rootNS, 0, types);
      var second := if INVIS_USER_NS in list then DisplayTree(w, list, INVIS_USER_NS, 0, types) else [];
      forall n | n in list
        ensures Count(first + second, n) ==
                if !Shown(list, n, types) then 0 else if rootNS != INVIS_USER_NS then 1 else 2
      {
        CountConcat(first, second, n);
        TopCounts(w, list, rootNS, types, n);
        CountEmpty(n);
      }
      TreeLevels(w, list, rootNS, 0, types);
      TopDepth(w, rootNS);
      if INVIS_USER_NS in list {
        TreeLevels(w, list, INVIS_USER_NS, 0, types);
        TopDepth(w, INVIS_USER_NS);
      }
    }
  }

  /** What lies above something below a top is itself below that top. */
  lemma SameTop(w: World, n: NsId, p: NsId, top: NsId)
    requires Ok(w) && AtOrUnder(w, n, p) && AtOrUnder(w, n, top) && NamespaceForest.Known(w, top) && Depth(w, top) == 0
    ensures AtOrUnder(w, p, top)
  {
    AncestorsByDepth(w, n, p);
    DeeperIsBelow(w, n, p, top);
  }

  lemma NotBoth(w: World, n: NsId, a: NsId, b: NsId)
    requires Ok(w) && AtOrUnder(w, n, a) && AtOrUnder(w, n, b) && NamespaceForest.Known(w, a) && Depth(w, a) == 0
    requires NamespaceForest.Known(w, b) && Depth(w, b) == 0
    ensures a == b
  {
    OneAtEachDepth(w, n, a, b);
  }

  lemma EarlierBelow(w: World, list: NsList, p: NsId, m: NsId, n: NsId)
    requires Ok(w) && Linked(w, list, {}) && Earlier(w, list, p, m, n)
    ensures AtOrUnder(w, m, p) && AtOrUnder(w, n, p)
  {
    hide Ok, Linked, Ancestors, AtOrUnder, Owner;
    var x, y :| 0 <= x < y < |list[p].children| &&
                AtOrUnder(w, m, list[p].children[x]) && AtOrUnder(w, n, list[p].children[y]);
    HasOwner(w, list, p, list[p].children[x]);
    HasOwner(w, list, p, list[p].children[y]);
    UnderChild(w, m, list[p].children[x], p);
    UnderChild(w, n, list[p].children[y], p);
  }

  /** All lines are below the top `a` first, and then below the top `b`. */
  ghost predicate TwoParts(w: World, list: NsList, first: seq<Line>, second: seq<Line>, a: NsId, b: NsId)
    requires Ok(w)
  {
    && NamespaceForest.Known(w, a) && Depth(w, a) == 0 && NamespaceForest.Known(w, b) && Depth(w, b) == 0
    && (forall i :: 0 <= i < |first| ==> AtOrUnder(w, first[i].ns, a))
    && (forall i :: 0 <= i < |second| ==> AtOrUnder(w, second[i].ns, b))
  }

  lemma PartsHeaded(w: World, list: NsList, types: set<int>, first: seq<Line>, second: seq<Line>, a: NsId, b: NsId,
                    j: int, n: NsId)
    requires Ok(w) && TwoParts(w, list, first, second, a, b)
    requires Headed(w, list, types, first, a, false) && Headed(w, list, types, second, b, false)
    requires 0 <= j < |first + second| && n in list && AtOrUnder(w, (first + second)[j].ns, n)
    requires n != (first + second)[j].ns && (list[n].nsType == CLONE_NEWUSER || list[n].nsType in types)
    ensures exists i :: Heads(w, first + second, i, j, n)
  {
    hide Ok, Ancestors, AtOrUnder, Heads;
    if j < |first| {
      SameTop(w, first[j].ns, n, a);
      var i :| Heads(w, first, i, j, n);
      HeadsShift(w, first, second, i, j, n);
    } else {
      assert (first + second)[j] == second[j - |first|];
      SameTop(w, second[j - |first|].ns, n, b);
      var i :| Heads(w, second, i, j - |first|, n);
      HeadsShift(w, first, second, i, j - |first|, n);
    }
  }

  lemma PartsInTurn(w: World, list: NsList, first: seq<Line>, second: seq<Line>, a: NsId, b: NsId, p: NsId,
                    i: int, j: int)
    requires Ok(w) && Linked(w, list, {}) && TwoParts(w, list, first, second, a, b) && a != b
    requires ChildrenInTurn(w, list, first, a) && ChildrenInTurn(w, list, second, b)
    requires 0 <= i < |first + second| && 0 <= j < |first + second|
    requires Earlier(w, list, p, (first + second)[i].ns, (first + second)[j].ns)
    ensures i < j
  {
    hide Ok, Linked, Ancestors, AtOrUnder, Earlier;
    var m, n := (first + second)[i].ns, (first + second)[j].ns;
    EarlierBelow(w, list, p, m, n);
    if j < |first| {
      SameTop(w, n, p, a);
      if i >= |first| {
        assert m == second[i - |first|].ns;
        SameTop(w, m, p, b);
        NotBoth(w, p, a, b);
      }
    } else if i >= |first| {
      assert m == second[i - |first|].ns && n == second[j - |first|].ns;
      SameTop(w, n, p, b);
    }
  }

  /** Without --subtree, each shown namespace heads the block of lines of everything below it: the nearest
      line before that is indented less belongs to the owner, if that is shown. What is below the root
      comes before what has an invisible owner, and earlier children come first. */
  lemma HierarchiesOrdered(w: World, list: NsList, rootNS: NsId, types: set<int>)
    requires Ok(w) && Linked(w, list, {}) && RootOk(w, list, rootNS, {}) && list != map[]
    ensures DisplayHierarchies(w, list, rootNS, types).Some?
    ensures var lines := DisplayHierarchies(w, list, rootNS, types).value;
      && (forall j, a | 0 <= j < |lines| && a in list && (list[a].nsType == CLONE_NEWUSER || list[a].nsType in types) ::
            AtOrUnder(w, lines[j].ns, a) && a != lines[j].ns ==> exists i :: Heads(w, lines, i, j, a))
      && (rootNS != INVIS_USER_NS ==>
            forall p, i, j | 0 <= i < |lines| && 0 <= j < |lines| ::
              Earlier(w, list, p, lines[i].ns, lines[j].ns) ==> i < j)
      && (rootNS != INVIS_USER_NS ==>
            forall i, j | 0 <= i < |lines| && 0 <= j < |lines| ::
              AtOrUnder(w, lines[i].ns, rootNS) && AtOrUnder(w, lines[j].ns, INVIS_USER_NS) ==> i < j)
  {
    hide Ok, Linked, RootOk, Ancestors, Depth, DisplayTree, AtOrUnder, Heads, Earlier, Headed, ChildrenInTurn;
    RootRecorded(w, list, rootNS);
    TopDepth(w, rootNS);
    TopDepth(w, INVIS_USER_NS);
    var first := DisplayTree(w, list, rootNS, 0, types);
    var second := if INVIS_USER_NS in list then DisplayTree(w, list, INVIS_USER_NS, 0, types) else [];
    OneTree(w, list, rootNS, types, first);
    OneTree(w, list, INVIS_USER_NS, types, second);
    var lines := first + second;
    forall j, a | 0 <= j < |lines| && a in list && (list[a].nsType == CLONE_NEWUSER || list[a].nsType in types) &&
                  AtOrUnder(w, lines[j].ns, a) && a != lines[j].ns
      ensures exists i :: Heads(w, lines, i, j, a)
    {
      PartsHeaded(w, list, types, first, second, rootNS, INVIS_USER_NS, j, a);
    }
    if rootNS != INVIS_USER_NS {
      forall p, i, j | 0 <= i < |lines| && 0 <= j < |lines| && Earlier(w, list, p, lines[i].ns, lines[j].ns)
        ensures i < j
      {
        PartsInTurn(w, list, first, second, rootNS, INVIS_USER_NS, p, i, j);
      }
      forall i, j | 0 <= i < |lines| && 0 <= j < |lines| &&
                    AtOrUnder(w, lines[i].ns, rootNS) && AtOrUnder(w, lines[j].ns, INVIS_USER_NS)
        ensures i < j
      {
        RootFirst(w, list, first, second, rootNS, i, j);
      }
    }
  }

  lemma RootFirst(w: World, list: NsList, first: seq<Line>, second: seq<Line>, rootNS: NsId, i: int, j: int)
    requires Ok(w) && TwoParts(w, list, first, second, rootNS, INVIS_USER_NS) && rootNS != INVIS_USER_NS
    requires 0 <= i < |first + second| && 0 <= j < |first + second|
    requires AtOrUnder(w, (first + second)[i].ns, rootNS) && AtOrUnder(w, (first + second)[j].ns, INVIS_USER_NS)
    ensures i < |first| <= j
  {
    hide Ok, Ancestors, AtOrUnder;
    if j < |first| {
      NotBoth(w, first[j].ns, rootNS, INVIS_USER_NS);
    }
    if i >= |first| {
      assert (first + second)[i] == second[i - |first|];
      NotBoth(w, second[i - |first|].ns, rootNS, INVIS_USER_NS);
    }
  }

  lemma OneTree(w: World, list: NsList, top: NsId, types: set<int>, lines: seq<Line>)
    requires Ok(w) && Linked(w, list, {})
    requires lines == if top in list then DisplayTree(w, list, top, 0, types) else []
    ensures Headed(w, list, types, lines, top, false) && ChildrenInTurn(w, list, lines, top)
    ensures forall i :: 0 <= i < |lines| ==> AtOrUnder(w, lines[i].ns, top)
  {
    hide Ok, Linked, Ancestors, DisplayTree, AtOrUnder, Earlier;
    if top in list {
      TreeHeaded(w, list, top, 0, types);
      TreeInTurn(w, list, top, 0, types);
      TreeLines(w, list, top, 0, types);
      assert forall i :: 0 <= i < |lines| ==> lines[i] in lines;
    }
  }

  lemma CountEmpty(n: NsId)
    ensures Count([], n) == 0
  {
  }

  lemma TopDepth(w: World, n: NsId)
    requires Ok(w) && NamespaceForest.Known(w, n) && (n == INVIS_USER_NS || Owner(w, n).None?)
    ensures Depth(w, n) == 0
  {
  }

  lemma RootRecorded(w: World, list: NsList, rootNS: NsId)
    requires Ok(w) && Linked(w, list, {}) && RootOk(w, list, rootNS, {})
    ensures rootNS in list <==> list != map[]
    ensures rootNS in list ==> NamespaceForest.Known(w, rootNS) && (rootNS == INVIS_USER_NS || Owner(w, rootNS).None?)
  {
    if n :| n in list {
      var top := TopAbove(w, list, rootNS, n);
    }
  }

  lemma TopCounts(w: World, list: NsList, rootNS: NsId, types: set<int>, n: NsId)
    requires Ok(w) && Linked(w, list, {}) && RootOk(w, list, rootNS, {}) && n in list && rootNS in list
    ensures Count(DisplayTree(w, list, rootNS, 0, types), n) +
            (if INVIS_USER_NS in list then Count(DisplayTree(w, list, INVIS_USER_NS, 0, types), n) else 0)
            == if !Shown(list, n, types) then 0 else if rootNS != INVIS_USER_NS then 1 else 2
  {
    hide Ancestors, Shown, Count, DisplayTree, Depth;
    var top := TopAbove(w, list, rootNS, n);
    TreeCounts(w, list, rootNS, 0, types, n);
    if INVIS_USER_NS in list {
      TreeCounts(w, list, INVIS_USER_NS, 0, types, n);
    }
    if rootNS in Ancestors(w, n) {
      OneTopAbove(w, n, top, rootNS);
    }
    if INVIS_USER_NS in Ancestors(w, n) && INVIS_USER_NS in list {
      OneTopAbove(w, n, top, INVIS_USER_NS);
    }
  }

  /** With --subtree: the chosen namespace and its descendants, each once, at their depth below it. The
      namespace is looked up after the scan; one that the scan has not found makes the program crash. */
  lemma SubtreeExact(w: World, list: NsList, ns: NsId, types: set<int>)
    requires Ok(w) && Linked(w, list, {})
    ensures DisplaySubtree(w, list, ns, types).None? <==> ns !in list
    ensures ns in list ==> var lines := DisplaySubtree(w, list, ns, types).value;
      && (forall n :: n in list ==>
            Count(lines, n) ==
            if (list[n].nsType == CLONE_NEWUSER || list[n].nsType in types) && ns in Ancestors(w, n) then 1 else 0)
      && Headed(w, list, types, lines, ns, false) && ChildrenInTurn(w, list, lines, ns)
      && (forall x :: x in lines ==>
            && x.ns in list && NamespaceForest.Known(w, x.ns) && ns in Ancestors(w, x.ns)
            && x.level == Depth(w, x.ns) - Depth(w, ns))
  {
    hide Headed, ChildrenInTurn;
    if ns in list {
      TreeHeaded(w, list, ns, 0, types);
      TreeInTurn(w, list, ns, 0, types);
      forall n | n in list
        ensures Count(DisplayTree(w, list, ns, 0, types), n) ==
                if Shown(list, n, types) && ns in Ancestors(w, n) then 1 else 0
      {
        TreeCounts(w, list, ns, 0, types, n);
      }
      TreeLevels(w, list, ns, 0, types);
    }
  }

  // ---- when the display is right ----

  /** The parent of a user namespace is one. */
  ghost predicate UsersInUsers(w: World)
    requires Ok(w)
  {
    forall n :: n in w.up && w.up[n].Some? && w.nsType[n] == CLONE_NEWUSER ==> w.nsType[w.up[n].value] == CLONE_NEWUSER
  }

  /** The line of owners from a user namespace, or of parents in the PID hierarchy, has a visible top. */
  lemma {:induction false} VisibleTop(w: World, n: NsId) returns (top: NsId)
    requires Ok(w) && UsersInUsers(w) && n in w.up && (w.nsType[n] == CLONE_NEWUSER || w.showPidnsHierarchy)
    ensures top in w.up && Owner(w, top).None? && top in Ancestors(w, n)
    decreases Rank(w, n)
  {
    if w.up[n].None? {
      top := n;
    } else {
      InWorld(w, n);
      top := VisibleTop(w, w.up[n].value);
    }
  }

  /** A scan that finds the user namespace of a process, or is for the PID hierarchy and finds anything,
      displays every selected namespace once. */
  lemma ShownOnce(w: World, list: NsList, rootNS: NsId, calls: seq<Call>, types: set<int>, c: Call)
    requires Ok(w) && UsersInUsers(w) && Represents(w, list, rootNS, calls)
    requires c in calls && c.ns in w.up && (w.nsType[c.ns] == CLONE_NEWUSER || w.showPidnsHierarchy)
    ensures DisplayHierarchies(w, list, rootNS, types).Some?
    ensures forall n :: n in list ==>
              Count(DisplayHierarchies(w, list, rootNS, types).value, n) ==
              if list[n].nsType == CLONE_NEWUSER || list[n].nsType in types then 1 else 0
  {
    hide Owner, Ancestors, Linked, InvisOk, Count, DisplayHierarchies, Reached;
    var top := VisibleTop(w, c.ns);
    InWorld(w, c.ns);
    InWorld(w, top);
    ReachedByOne(w, calls, top);
    assert top in list;
    HierarchiesExact(w, list, rootNS, types);
  }

  /** A UTS namespace, say, whose owner is out of sight. */
  const LONELY := NsId(4, 1)

  function LonelyWorld(): World {
    World(map[LONELY := 1], map[LONELY := None], map[LONELY := 1], 2, false)
  }

  function LonelyList(): NsList {
    map[LONELY := Attribs(1, [7], []), INVIS_USER_NS := Attribs(CLONE_NEWUSER, [], [LONELY])]
  }

  lemma LonelyScan()
    ensures Ok(LonelyWorld()) && Linked(LonelyWorld(), LonelyList(), {})
    ensures RootOk(LonelyWorld(), LonelyList(), INVIS_USER_NS, {})
    ensures InvisOk(LonelyList())
  {
  }

  lemma LonelyReached()
    ensures Ok(LonelyWorld()) && Reached(LonelyWorld(), [Call(LONELY, 7)]) == {LONELY, INVIS_USER_NS}
  {
    LonelyScan();
    var w, calls := LonelyWorld(), [Call(LONELY, 7)];
    assert calls[..0] == [] && NamespaceForest.Known(w, LONELY);
    assert Owner(w, LONELY) == Some(INVIS_USER_NS);
    assert Ancestors(w, INVIS_USER_NS) == {INVIS_USER_NS};
  }

  /** A scan that finds it alone, as on a kernel without user namespaces, has everything twice in its
      display. */
  lemma ShownTwice()
    ensures Ok(LonelyWorld()) && Represents(LonelyWorld(), LonelyList(), INVIS_USER_NS, [Call(LONELY, 7)])
    ensures DisplayHierarchies(LonelyWorld(), LonelyList(), INVIS_USER_NS, {1}).Some?
    ensures Count(DisplayHierarchies(LonelyWorld(), LonelyList(), INVIS_USER_NS, {1}).value, LONELY) == 2
  {
    LonelyScan();
    LonelyReached();
    var calls := [Call(LONELY, 7)];
    forall n
      ensures PidsIn(LonelyList(), n) == Members(calls, n)
    {
      assert calls[..0] == [];
    }
    HierarchiesExact(LonelyWorld(), LonelyList(), INVIS_USER_NS, {1});
    assert Shown(LonelyList(), LONELY, {1});
  }
}
