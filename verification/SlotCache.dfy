/** The watch cache of inotify_dtree.c: an array of (watch descriptor, pathname) slots that is
    searched linearly and grows by ALLOC_INCR. The functions say what each operation makes of
    the array; the lemmas say what that means for the map from descriptor to pathname. */
module SlotCache {
  import opened Common
  import opened Paths

  const ALLOC_INCR := 200

  /** `wd` is -1 in an unused slot. */
  datatype Slot = Slot(wd: int, path: string)

  const UNUSED := Slot(-1, "")

  predicate Used(x: Slot) {
    x.wd >= 0
  }

  /** The first slot with descriptor `wd` (so the first unused one for -1), or |c|. */
  function FirstWith(c: seq<Slot>, wd: int): (j: nat)
    ensures j <= |c| && (j < |c| ==> c[j].wd == wd)
    ensures forall k :: 0 <= k < j ==> c[k].wd != wd
  {
    if c == [] || c[0].wd == wd then 0 else 1 + FirstWith(c[1..], wd)
  }

  function Grown(c: seq<Slot>): seq<Slot> {
    if FirstWith(c, -1) < |c| then c else c + seq(ALLOC_INCR, _ => UNUSED)
  }

  function Added(c: seq<Slot>, wd: int, path: string): seq<Slot> {
    Grown(c)[FirstWith(c, -1) := Slot(wd, path)]
  }

  predicate Hit(x: Slot, top: string) {
    Used(x) && AtOrBelow(x.path, top)
  }

  function Moved(p: string, oldTop: string, newTop: string): string {
    if AtOrBelow(p, oldTop) then Rebase(p, oldTop, newTop) else p
  }

  function Rewritten(c: seq<Slot>, oldTop: string, newTop: string): seq<Slot> {
    seq(|c|, j requires 0 <= j < |c| => Slot(c[j].wd, Moved(c[j].path, oldTop, newTop)))
  }

  function Zapped(c: seq<Slot>, top: string): seq<Slot> {
    seq(|c|, j requires 0 <= j < |c| => if Hit(c[j], top) then UNUSED else c[j])
  }

  /** The descriptors removed when `top` is zapped, in slot order. */
  function ZapList(c: seq<Slot>, top: string): seq<int> {
    if c == [] then []
    else
      var n := |c| - 1;
      ZapList(c[..n], top) + if Hit(c[n], top) then [c[n].wd] else []
  }

  // ---- the map that the slots stand for ----

  ghost predicate SlotsOk(c: seq<Slot>) {
    && (forall j :: 0 <= j < |c| ==> c[j].wd >= -1 && (c[j].wd == -1 ==> c[j].path == ""))
    && (forall i, j :: 0 <= i < j < |c| && Used(c[i]) && Used(c[j]) ==> c[i].wd != c[j].wd)
  }

  ghost function Wds(c: seq<Slot>): set<int> {
    set j | 0 <= j < |c| && Used(c[j]) :: c[j].wd
  }

  ghost function Entries(c: seq<Slot>): map<int, string> {
    map wd | wd in Wds(c) :: c[FirstWith(c, wd)].path
  }

  lemma SlotIsEntry(c: seq<Slot>, j: nat)
    requires SlotsOk(c) && j < |c| && Used(c[j])
    ensures c[j].wd in Entries(c) && Entries(c)[c[j].wd] == c[j].path && FirstWith(c, c[j].wd) == j
  {
    hide FirstWith;
    var k := FirstWith(c, c[j].wd);
    assert c[j].wd in Wds(c);
    assert k == j;
  }

  lemma EntryIsSlot(c: seq<Slot>, wd: int)
    ensures wd in Entries(c) <==> wd >= 0 && FirstWith(c, wd) < |c|
    ensures wd in Entries(c) ==> c[FirstWith(c, wd)] == Slot(wd, Entries(c)[wd])
  {
    hide FirstWith;
    var j := FirstWith(c, wd);
    if wd >= 0 && j < |c| {
      assert c[j].wd in Wds(c);
    }
  }

  /** Two slot arrays with the same used pairs stand for the same map. */
  lemma SameEntries(c: seq<Slot>, m: map<int, string>)
    requires SlotsOk(c)
    requires forall j :: 0 <= j < |c| && Used(c[j]) ==> c[j].wd in m && m[c[j].wd] == c[j].path
    requires forall wd :: wd in m ==> wd >= 0 && FirstWith(c, wd) < |c|
    ensures Entries(c) == m
  {
    hide FirstWith, Entries;
    forall wd | wd in Entries(c)
      ensures wd in m && m[wd] == Entries(c)[wd]
    {
      EntryIsSlot(c, wd);
    }
    forall wd | wd in m
      ensures wd in Entries(c)
    {
      EntryIsSlot(c, wd);
    }
  }

  lemma Find(c: seq<Slot>, wd: int, j: nat)
    requires j < |c| && c[j].wd == wd
    ensures FirstWith(c, wd) <= j
  {
  }

  /** Growth by ALLOC_INCR preserves every entry. */
  lemma GrowRefines(c: seq<Slot>)
    requires SlotsOk(c)
    ensures SlotsOk(Grown(c)) && c <= Grown(c) && Entries(Grown(c)) == Entries(c)
    ensures FirstWith(c, -1) < |Grown(c)| && Grown(c)[FirstWith(c, -1)] == UNUSED
    ensures |Grown(c)| == |c| + if exists j :: 0 <= j < |c| && c[j].wd == -1 then 0 else 200
  {
    hide FirstWith, Entries;
    var g := Grown(c);
    assert forall j :: |c| <= j < |g| ==> g[j] == UNUSED;
    forall j | 0 <= j < |g| && Used(g[j])
      ensures g[j].wd in Entries(c) && Entries(c)[g[j].wd] == g[j].path
    {
      SlotIsEntry(c, j);
    }
    forall x | x in Entries(c)
      ensures x >= 0 && FirstWith(g, x) < |g|
    {
      EntryIsSlot(c, x);
      Find(g, x, FirstWith(c, x));
    }
    SameEntries(g, Entries(c));
  }

  lemma FillRefines(c: seq<Slot>, k: nat, wd: int, path: string)
    requires SlotsOk(c) && k < |c| && c[k] == UNUSED && wd >= 0 && wd !in Entries(c)
    ensures SlotsOk(c[k := Slot(wd, path)])
    ensures Entries(c[k := Slot(wd, path)]) == Entries(c)[wd := path]
  {
    hide FirstWith;
    var d := c[k := Slot(wd, path)];
    forall j | 0 <= j < |c| && Used(c[j])
      ensures c[j].wd in Entries(c) && Entries(c)[c[j].wd] == c[j].path
    {
      SlotIsEntry(c, j);
    }
    forall x | x in Entries(c)[wd := path]
      ensures x >= 0 && FirstWith(d, x) < |d|
    {
      EntryIsSlot(c, x);
      Find(d, x, if x == wd then k else FirstWith(c, x));
    }
    SameEntries(d, Entries(c)[wd := path]);
  }

  /** Adding a pair, with or without growing the array, adds it to the map and loses nothing. */
  lemma AddRefines(c: seq<Slot>, wd: int, path: string)
    requires SlotsOk(c) && wd >= 0 && wd !in Entries(c)
    ensures SlotsOk(Added(c, wd, path))
    ensures Entries(Added(c, wd, path)) == Entries(c)[wd := path]
  {
    GrowRefines(c);
    FillRefines(Grown(c), FirstWith(c, -1), wd, path);
  }

  /** Marking a used slot unused removes exactly its pair. */
  lemma MarkRefines(c: seq<Slot>, j: nat)
    requires SlotsOk(c) && j < |c| && Used(c[j])
    ensures SlotsOk(c[j := UNUSED])
    ensures Entries(c[j := UNUSED]) == Entries(c) - {c[j].wd}
  {
    hide FirstWith, Entries;
    var d := c[j := UNUSED];
    forall i | 0 <= i < |d| && Used(d[i])
      ensures d[i].wd in Entries(c) - {c[j].wd} && Entries(c)[d[i].wd] == d[i].path
    {
      SlotIsEntry(c, i);
    }
    forall x | x in Entries(c) - {c[j].wd}
      ensures x >= 0 && FirstWith(d, x) < |d|
    {
      EntryIsSlot(c, x);
      Find(d, x, FirstWith(c, x));
    }
    SameEntries(d, Entries(c) - {c[j].wd});
  }

  /** The rewrite does not test the descriptor, but an unused slot never matches a non-empty
      prefix, and no descriptor changes. */
  lemma RewriteKeepsSlots(c: seq<Slot>, oldTop: string, newTop: string)
    requires SlotsOk(c) && oldTop != ""
    ensures SlotsOk(Rewritten(c, oldTop, newTop))
    ensures forall j :: 0 <= j < |c| && !Used(c[j]) ==> Rewritten(c, oldTop, newTop)[j] == c[j]
  {
    var d := Rewritten(c, oldTop, newTop);
    assert !AtOrBelow("", oldTop);
    forall j | 0 <= j < |c|
      ensures d[j].wd == c[j].wd && (c[j].wd == -1 ==> d[j] == c[j])
    {
    }
  }

  /** The rewrite moves every used pathname at or below `oldTop` and touches nothing else. */
  lemma RewriteRefines(c: seq<Slot>, oldTop: string, newTop: string)
    requires SlotsOk(c) && oldTop != ""
    ensures Entries(Rewritten(c, oldTop, newTop)) ==
            map wd | wd in Entries(c) :: Moved(Entries(c)[wd], oldTop, newTop)
  {
    hide FirstWith, AtOrBelow, Entries;
    var d := Rewritten(c, oldTop, newTop);
    var m := map wd | wd in Entries(c) :: Moved(Entries(c)[wd], oldTop, newTop);
    RewriteKeepsSlots(c, oldTop, newTop);
    forall j | 0 <= j < |d| && Used(d[j])
      ensures d[j].wd in m && m[d[j].wd] == d[j].path
    {
      SlotIsEntry(c, j);
    }
    forall x | x in m
      ensures x >= 0 && FirstWith(d, x) < |d|
    {
      EntryIsSlot(c, x);
      Find(d, x, FirstWith(c, x));
    }
    SameEntries(d, m);
  }

  /** Descriptors that name a pathname at or below `top`. */
  ghost function Hits(e: map<int, string>, top: string): set<int> {
    set wd | wd in e && AtOrBelow(e[wd], top)
  }

  /** Zapping removes exactly the pairs at or below `top`. */
  lemma ZapRefines(c: seq<Slot>, top: string)
    requires SlotsOk(c)
    ensures SlotsOk(Zapped(c, top))
    ensures Entries(Zapped(c, top)) == Entries(c) - Hits(Entries(c), top)
  {
    hide FirstWith, AtOrBelow, Entries;
    var d := Zapped(c, top);
    forall i | 0 <= i < |d| && Used(d[i])
      ensures d[i].wd in Entries(c) - Hits(Entries(c), top) && Entries(c)[d[i].wd] == d[i].path
    {
      SlotIsEntry(c, i);
    }
    forall x | x in Entries(c) - Hits(Entries(c), top)
      ensures x >= 0 && FirstWith(d, x) < |d|
    {
      EntryIsSlot(c, x);
      Find(d, x, FirstWith(c, x));
    }
    SameEntries(d, Entries(c) - Hits(Entries(c), top));
  }

  lemma {:induction false} ZapListFromSlots(c: seq<Slot>, top: string)
    ensures forall x :: x in ZapList(c, top) <==> exists j :: 0 <= j < |c| && Hit(c[j], top) && c[j].wd == x
  {
    hide Hit;
    if c != [] {
      var n := |c| - 1;
      ZapListFromSlots(c[..n], top);
      forall x | x in ZapList(c[..n], top)
        ensures exists j :: 0 <= j < n && Hit(c[j], top) && c[j].wd == x
      {
        var j :| 0 <= j < n && Hit(c[..n][j], top) && c[..n][j].wd == x;
        assert Hit(c[j], top);
      }
      forall j | 0 <= j < |c| && Hit(c[j], top)
        ensures c[j].wd in ZapList(c, top)
      {
        if j < n {
          assert Hit(c[..n][j], top);
        }
      }
    }
  }

  lemma {:induction false} ZapListNoDup(c: seq<Slot>, top: string)
    requires SlotsOk(c)
    ensures NoDup(ZapList(c, top))
  {
    hide AtOrBelow;
    if c != [] {
      var n := |c| - 1;
      ZapListNoDup(c[..n], top);
      ZapListFromSlots(c[..n], top);
      assert Hit(c[n], top) ==> c[n].wd !in ZapList(c[..n], top);
    }
  }

  lemma {:induction false} ZapListPrefix(c: seq<Slot>, top: string, j: nat)
    requires j <= |c|
    ensures ZapList(c[..j], top) <= ZapList(c, top)
  {
    if j < |c| {
      var n := |c| - 1;
      assert c[..n][..j] == c[..j];
      ZapListPrefix(c[..n], top, j);
    } else {
      assert c[..j] == c;
    }
  }

  /** What zapSubtree() counts: each removed descriptor once, and no other. */
  lemma ZapListExact(c: seq<Slot>, top: string)
    requires SlotsOk(c)
    ensures NoDup(ZapList(c, top))
    ensures forall x :: x in ZapList(c, top) <==> x in Hits(Entries(c), top)
  {
    ZapListFromSlots(c, top);
    ZapListNoDup(c, top);
    forall x | x in ZapList(c, top)
      ensures x in Hits(Entries(c), top)
    {
      var j :| 0 <= j < |c| && Hit(c[j], top) && c[j].wd == x;
      SlotIsEntry(c, j);
    }
    forall x | x in Hits(Entries(c), top)
      ensures x in ZapList(c, top)
    {
      EntryIsSlot(c, x);
      assert Hit(c[FirstWith(c, x)], top);
    }
  }
}
