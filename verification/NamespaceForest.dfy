/** The namespace hierarchy that namespaces_of.go discovers and displays. */
module NamespaceForest {
  import opened Common

  datatype NsId = NsId(device: nat, inode: nat)

  /** Stands for the user namespaces that are out of sight; no namespace file has this ID. */
  const INVIS_USER_NS := NsId(0, 0)

  const CLONE_NEWUSER := 0x10000000

  /** What the ioctl() operations tell: the type of each namespace, and its parent or owning
      namespace, None for EPERM. `rank` certifies that the relation has no cycle. */
  datatype World = World(nsType: map<NsId, int>, up: map<NsId, Option<NsId>>, rank: map<NsId, nat>,
                         bound: nat, showPidnsHierarchy: bool)

  /** The namespace under which `n` belongs: its parent or owner, or the special entry for a
      nonuser namespace whose owner is out of sight. None makes it a top of the display. */
  function Owner(w: World, n: NsId): Option<NsId>
    requires n != INVIS_USER_NS ==> n in w.up && n in w.nsType
  {
    if n == INVIS_USER_NS then None
    else if w.up[n].Some? then w.up[n]
    else if w.nsType[n] == CLONE_NEWUSER || w.showPidnsHierarchy then None
    else Some(INVIS_USER_NS)
  }

  predicate Known(w: World, n: NsId) {
    n == INVIS_USER_NS || (n in w.up && n in w.nsType && n in w.rank)
  }

  function Rank(w: World, n: NsId): nat
    requires Known(w, n)
  {
    if n == INVIS_USER_NS then 0 else w.rank[n]
  }

  ghost predicate Ok(w: World) {
    && INVIS_USER_NS !in w.up && (forall n :: n in w.up && w.up[n].Some? ==> w.up[n].value in w.up)
    && w.nsType.Keys == w.up.Keys && w.rank.Keys == w.up.Keys
    && (forall n :: n in w.up ==> 1 <= w.rank[n] < w.bound)
    && (forall n {:trigger Owner(w, n)} :: n in w.up && Owner(w, n).Some? ==>
          Known(w, Owner(w, n).value) && Rank(w, Owner(w, n).value) < w.rank[n])
    && (forall m, n :: m in w.up && n in w.up && Owner(w, m).None? && Owner(w, n).None? ==> m == n)
  }

  /** `n` and everything above it. */
  ghost function Ancestors(w: World, n: NsId): set<NsId>
    requires Ok(w) && Known(w, n)
    decreases Rank(w, n)
  {
    {n} + if Owner(w, n).None? then {} else Ancestors(w, Owner(w, n).value)
  }

  datatype Attribs = Attribs(nsType: int, pids: seq<int>, children: seq<NsId>)

  type NsList = map<NsId, Attribs>

  /** Every recorded namespace outside `hanging` has its owner recorded and is listed there, and
      every listed child is recorded, not hanging, and listed once, under its owner only. */
  ghost predicate Linked(w: World, list: NsList, hanging: set<NsId>)
    requires Ok(w)
  {
    && hanging <= list.Keys
    && (forall n :: n in list ==> Known(w, n))
    && (forall n :: n in list ==> list[n].nsType == if n == INVIS_USER_NS then CLONE_NEWUSER else w.nsType[n])
    && (forall n :: n in list && n !in hanging && Owner(w, n).Some? ==>
          Owner(w, n).value in list && n in list[Owner(w, n).value].children)
    && (forall p :: p in list ==> NoDup(list[p].children))
    && (forall p, c :: p in list && c in list[p].children ==> c in list && c !in hanging && Owner(w, c) == Some(p))
  }

  /** The special entry exists only for its children. */
  ghost predicate InvisOk(list: NsList) {
    INVIS_USER_NS in list ==> list[INVIS_USER_NS].children != []
  }

  /** `rootNS` is the recorded top of the hierarchy, or still its zero value. */
  ghost predicate RootOk(w: World, list: NsList, rootNS: NsId, hanging: set<NsId>)
    requires Ok(w)
  {
    && (forall n :: n in list ==> Known(w, n))
    && (forall n :: n in list && n !in hanging && n != INVIS_USER_NS && Owner(w, n).None? ==> rootNS == n)
    && (rootNS != INVIS_USER_NS ==> rootNS in list && Owner(w, rootNS).None?)
  }

  /** Children and members are added at the end. */
  ghost predicate Grows(list: NsList, list': NsList) {
    forall n :: n in list ==>
      n in list' && list[n].children <= list'[n].children && list[n].pids <= list'[n].pids
  }

  lemma GrowsByNew(list: NsList, n: NsId, entry: Attribs)
    requires n !in list
    ensures Grows(list, list[n := entry])
  {
  }

  lemma GrowsOn(a: NsList, b: NsList, c: NsList)
    requires Grows(a, b)
    ensures Grows(b, c) ==> Grows(a, c)
    ensures forall p, n :: p in b && c == WithChild(b, p, n) ==> Grows(a, c)
  {
  }

  function PidsIn(list: NsList, n: NsId): seq<int> {
    if n in list then list[n].pids else []
  }

  lemma {:induction false} AncestorsRecorded(w: World, list: NsList, hanging: set<NsId>, n: NsId)
    requires Ok(w) && Linked(w, list, hanging) && n in list
    requires forall h :: h in hanging ==> Rank(w, h) > Rank(w, n)
    ensures Ancestors(w, n) <= list.Keys
    decreases Rank(w, n)
  {
    if Owner(w, n).Some? {
      AncestorsRecorded(w, list, hanging, Owner(w, n).value);
    }
  }

  // ---- what the single updates of the map do to the invariant ----

  function WithPid(list: NsList, n: NsId, pid: int): NsList
    requires n in list
  {
    list[n := list[n].(pids := list[n].pids + [pid])]
  }

  function WithChild(list: NsList, p: NsId, c: NsId): NsList
    requires p in list
  {
    list[p := list[p].(children := list[p].children + [c])]
  }

  lemma AfterPid(w: World, list: NsList, rootNS: NsId, hanging: set<NsId>, n: NsId, pid: int)
    requires Ok(w) && Linked(w, list, hanging) && RootOk(w, list, rootNS, hanging) && InvisOk(list) && n in list
    ensures var list' := WithPid(list, n, pid);
      Linked(w, list', hanging) && RootOk(w, list', rootNS, hanging) && InvisOk(list')
  {
    hide Ok, Owner, Known, NoDup;
    var list' := WithPid(list, n, pid);
    assert forall m :: m in list ==> list'[m].children == list[m].children && list'[m].nsType == list[m].nsType;
  }

  /** A new entry breaks the closure: its owner need not be recorded yet. */
  lemma AfterNew(w: World, list: NsList, rootNS: NsId, hanging: set<NsId>, n: NsId, entry: Attribs)
    requires Ok(w) && Linked(w, list, hanging) && RootOk(w, list, rootNS, hanging) && n !in list && Known(w, n)
    requires entry == Attribs(if n == INVIS_USER_NS then CLONE_NEWUSER else w.nsType[n], [], [])
    ensures Linked(w, list[n := entry], hanging + {n}) && RootOk(w, list[n := entry], rootNS, hanging + {n})
  {
    hide Ok, Owner, NoDup;
    var list' := list[n := entry];
    assert forall m :: m in list ==> list'[m] == list[m];
    assert NoDup(list'[n].children) by { NoDupEmpty<NsId>(); }
  }

  lemma NoDupEmpty<T>()
    ensures NoDup<T>([])
  {
  }

  /** Tops need no place. */
  lemma AfterTop(w: World, list: NsList, rootNS: NsId, hanging: set<NsId>, n: NsId)
    requires Ok(w) && Linked(w, list, hanging + {n}) && RootOk(w, list, rootNS, hanging + {n})
    requires n in list && n !in hanging && Owner(w, n).None?
    ensures Linked(w, list, hanging) && RootOk(w, list, if n == INVIS_USER_NS then rootNS else n, hanging)
  {
    hide Ok, Owner, Known, NoDup;
    if n != INVIS_USER_NS {
      OneTop(w, n);
    }
  }

  lemma OneTop(w: World, n: NsId)
    requires Ok(w) && Known(w, n) && Owner(w, n).None? && n != INVIS_USER_NS
    ensures forall m :: Known(w, m) && m != INVIS_USER_NS && Owner(w, m).None? ==> m == n
  {
  }

  /** Listing the entry under its owner restores the closure. */
  lemma AfterChild(w: World, list: NsList, rootNS: NsId, hanging: set<NsId>, p: NsId, c: NsId)
    requires Ok(w) && Linked(w, list, hanging + {c}) && RootOk(w, list, rootNS, hanging + {c})
    requires p in list && c in list && c !in hanging && Owner(w, c) == Some(p)
    ensures Linked(w, WithChild(list, p, c), hanging) && RootOk(w, WithChild(list, p, c), rootNS, hanging)
  {
    hide Ok, Owner, Known;
    var list' := WithChild(list, p, c);
    assert forall m :: m in list && m != p ==> list'[m] == list[m];
    assert list'[p].children == list[p].children + [c];
    assert c !in list[p].children;
  }

  // ---- scanning ----

  /** A process and what opening its namespace files gave; None if it has gone meanwhile. */
  datatype Process = Process(pid: int, files: seq<Option<NsId>>)

  datatype Call = Call(ns: NsId, pid: int)

  ghost predicate ProcessOk(w: World, p: Process) {
    p.pid > 0 && forall i :: 0 <= i < |p.files| && p.files[i].Some? ==> p.files[i].value in w.up
  }

  lemma ProcessFiles(w: World, p: Process)
    requires ProcessOk(w, p)
    ensures p.pid > 0 && forall i :: 0 <= i < |p.files| && p.files[i].Some? ==> p.files[i].value in w.up
  {
  }

  function FileCalls(pid: int, files: seq<Option<NsId>>): seq<Call> {
    if files == [] then []
    else
      var n := |files| - 1;
      FileCalls(pid, files[..n]) + if files[n].Some? then [Call(files[n].value, pid)] else []
  }

  function Calls(procs: seq<Process>): seq<Call> {
    if procs == [] then []
    else
      var n := |procs| - 1;
      Calls(procs[..n]) + FileCalls(procs[n].pid, procs[n].files)
  }

  /** The members of `n` among the scanned processes, in the order of the scan. */
  function Members(calls: seq<Call>, n: NsId): seq<int> {
    if calls == [] then []
    else
      var k := |calls| - 1;
      Members(calls[..k], n) + if calls[k].ns == n then [calls[k].pid] else []
  }

  ghost function Reached(w: World, calls: seq<Call>): set<NsId>
    requires Ok(w)
  {
    if calls == [] then {}
    else
      var k := |calls| - 1;
      Reached(w, calls[..k]) + if Known(w, calls[k].ns) then Ancestors(w, calls[k].ns) else {}
  }

  /** The state after a scan: the recorded namespaces are those scanned and everything above them,
      each is listed once, under its owner, and the PID lists hold the scanned members. */
  ghost predicate Represents(w: World, list: NsList, rootNS: NsId, calls: seq<Call>)
    requires Ok(w)
  {
    && Linked(w, list, {}) && RootOk(w, list, rootNS, {}) && InvisOk(list)
    && list.Keys == Reached(w, calls)
    && (forall n :: PidsIn(list, n) == Members(calls, n))
  }

  lemma OneMore(w: World, list: NsList, list': NsList, calls: seq<Call>, ns: NsId, pid: int)
    requires Ok(w) && Known(w, ns) && pid > 0
    requires list.Keys == Reached(w, calls) && list'.Keys == list.Keys + Ancestors(w, ns)
    requires forall n :: PidsIn(list, n) == Members(calls, n)
    requires forall n :: PidsIn(list', n) == if n == ns && pid > 0 then PidsIn(list, n) + [pid] else PidsIn(list, n)
    ensures list'.Keys == Reached(w, calls + [Call(ns, pid)])
    ensures forall n :: PidsIn(list', n) == Members(calls + [Call(ns, pid)], n)
  {
    hide Ok, Ancestors;
    assert (calls + [Call(ns, pid)])[..|calls|] == calls;
  }

  class NamespaceInfo {
    var nsList: NsList
    var rootNS: NsId

    constructor ()
      ensures nsList == map[] && rootNS == INVIS_USER_NS
    {
      nsList, rootNS := map[], NsId(0, 0);
    }

    ghost predicate Valid(w: World, hanging: set<NsId>)
      reads this
    {
      Ok(w) && Linked(w, nsList, hanging) && RootOk(w, nsList, rootNS, hanging) && InvisOk(nsList)
    }

    /** Records `ns` and everything above it; a positive `pid` is noted as a member of `ns`. The
        namespaces in `hanging` are those further down that have an entry but no place yet. */
    method AddNamespace(w: World, ns: NsId, pid: int, ghost hanging: set<NsId>)
      requires Valid(w, hanging) && ns in w.up
      requires forall h :: h in hanging ==> Rank(w, h) > w.rank[ns]
      modifies this
      ensures Valid(w, hanging)
      ensures nsList.Keys == old(nsList).Keys + Ancestors(w, ns)
      ensures forall n :: PidsIn(nsList, n) ==
                          if n == ns && pid > 0 then PidsIn(old(nsList), n) + [pid] else PidsIn(old(nsList), n)
      ensures Grows(old(nsList), nsList)
      decreases w.rank[ns], 1
    {
      hide Ok, Linked, RootOk, InvisOk, Ancestors, Known;
      InWorld(w, ns);
      AncestorsStep(w, ns);
      if ns !in nsList {
        AddNamespaceToList(w, ns, hanging);
      } else {
        AncestorsRecorded(w, nsList, hanging, ns);
      }
      if pid > 0 {
        AfterPid(w, nsList, rootNS, hanging, ns, pid);
        nsList := nsList[ns := nsList[ns].(pids := nsList[ns].pids + [pid])];
      }
    }

    /** Creates the entry first, and only then finds it a place: meanwhile `ns` hangs. */
    method AddNamespaceToList(w: World, ns: NsId, ghost hanging: set<NsId>)
      requires Valid(w, hanging) && ns in w.up && ns !in nsList
      requires forall h :: h in hanging ==> Rank(w, h) > w.rank[ns]
      modifies this
      ensures Valid(w, hanging)
      ensures nsList.Keys == old(nsList).Keys + Ancestors(w, ns)
      ensures forall n :: PidsIn(nsList, n) == PidsIn(old(nsList), n)
      ensures Grows(old(nsList), nsList)
      decreases w.rank[ns], 0
    {
      hide Ok, Linked, RootOk, NoDup, Ancestors, Grows;
      ghost var start := nsList;
      InWorld(w, ns);
      AncestorsStep(w, ns);
      GrowsByNew(nsList, ns, Attribs(w.nsType[ns], [], []));
      AfterNew(w, nsList, rootNS, hanging, ns, Attribs(w.nsType[ns], [], []));
      nsList := nsList[ns := Attribs(w.nsType[ns], [], [])];
      assert forall n :: PidsIn(nsList, n) == PidsIn(old(nsList), n);
      assert ns !in hanging;
      if w.up[ns].None? {
        if w.nsType[ns] == CLONE_NEWUSER || w.showPidnsHierarchy {
          AfterTop(w, nsList, rootNS, hanging, ns);
          rootNS := ns;
        } else {
          if INVIS_USER_NS !in nsList {
            GrowsByNew(nsList, INVIS_USER_NS, Attribs(CLONE_NEWUSER, [], []));
            GrowsOn(start, nsList, nsList[INVIS_USER_NS := Attribs(CLONE_NEWUSER, [], [])]);
            AfterNew(w, nsList, rootNS, hanging + {ns}, INVIS_USER_NS, Attribs(CLONE_NEWUSER, [], []));
            nsList := nsList[INVIS_USER_NS := Attribs(CLONE_NEWUSER, [], [])];
            AfterTop(w, nsList, rootNS, hanging + {ns}, INVIS_USER_NS);
          }
          AfterChild(w, nsList, rootNS, hanging, INVIS_USER_NS, ns);
          GrowsOn(start, nsList, WithChild(nsList, INVIS_USER_NS, ns));
          AppendChild(INVIS_USER_NS, ns);
        }
      } else {
        var parent := w.up[ns].value;
        InWorld(w, parent);
        AncestorsStep(w, parent);
        ghost var before := nsList;
        AddNamespace(w, parent, -1, hanging + {ns});
        GrowsOn(start, before, nsList);
        GrowsOn(start, nsList, WithChild(nsList, parent, ns));
        assert forall n :: PidsIn(nsList, n) == PidsIn(old(nsList), n);
        AfterChild(w, nsList, rootNS, hanging, parent, ns);
        AppendChild(parent, ns);
      }
    }

    method AppendChild(p: NsId, c: NsId)
      requires p in nsList
      modifies this`nsList
      ensures nsList == WithChild(old(nsList), p, c)
      ensures forall n :: PidsIn(nsList, n) == PidsIn(old(nsList), n)
    {
      nsList := nsList[p := nsList[p].(children := nsList[p].children + [c])];
    }

    /** Scans the namespace files of one process; one that cannot be opened is passed over. */
    method AddProcess(w: World, pid: int, files: seq<Option<NsId>>, ghost calls: seq<Call>)
      requires Ok(w) && Represents(w, nsList, rootNS, calls) && pid > 0
      requires forall i :: 0 <= i < |files| && files[i].Some? ==> files[i].value in w.up
      modifies this
      ensures Represents(w, nsList, rootNS, calls + FileCalls(pid, files))
    {
      hide Linked, RootOk, InvisOk, Ancestors, Reached, Members;
      assert calls + [] == calls;
      for i := 0 to |files|
        invariant Represents(w, nsList, rootNS, calls + FileCalls(pid, files[..i]))
      {
        assert files[..i + 1][..i] == files[..i];
        if files[i].Some? {
          var ns := files[i].value;
          ghost var before := calls + FileCalls(pid, files[..i]);
          assert calls + FileCalls(pid, files[..i + 1]) == before + [Call(ns, pid)];
          ghost var was := nsList;
          AddNamespace(w, ns, pid, {});
          OneMore(w, was, nsList, before, ns, pid);
          assert Represents(w, nsList, rootNS, before + [Call(ns, pid)]);
        } else {
          assert FileCalls(pid, files[..i + 1]) == FileCalls(pid, files[..i]);
        }
      }
      assert files[..|files|] == files;
    }

    method AddNamespacesForAllProcesses(w: World, procs: seq<Process>)
      requires Ok(w) && nsList == map[] && rootNS == INVIS_USER_NS
      requires forall i :: 0 <= i < |procs| ==> ProcessOk(w, procs[i])
      modifies this
      ensures Represents(w, nsList, rootNS, Calls(procs))
      ensures forall n :: n in nsList <==> exists i, j :: NamesBelow(w, procs, i, j, n)
      ensures forall n, pid :: multiset(PidsIn(nsList, n))[pid] == |Places(procs, n, pid)|
    {
      hide Ok, ProcessOk, Represents, NamesBelow, Places, PidsIn;
      StartsEmpty(w);
      for i := 0 to |procs|
        invariant Represents(w, nsList, rootNS, Calls(procs[..i]))
      {
        assert procs[..i + 1][..i] == procs[..i];
        assert ProcessOk(w, procs[i]);
        ProcessFiles(w, procs[i]);
        AddProcess(w, procs[i].pid, procs[i].files, Calls(procs[..i]));
      }
      assert procs[..|procs|] == procs;
      ScanMeans(w, nsList, rootNS, procs);
    }
  }

  lemma StartsEmpty(w: World)
    requires Ok(w)
    ensures Represents(w, map[], INVIS_USER_NS, Calls([]))
  {
  }

  lemma InWorld(w: World, n: NsId)
    requires Ok(w) && n in w.up
    ensures Known(w, n) && n != INVIS_USER_NS && Rank(w, n) == w.rank[n] >= 1 && n in w.nsType
    ensures w.up[n].Some? ==> w.up[n].value in w.up && w.rank[w.up[n].value] < w.rank[n]
  {
    assert Owner(w, n) == Owner(w, n);
  }

  lemma AncestorsStep(w: World, n: NsId)
    requires Ok(w) && Known(w, n)
    ensures Ancestors(w, n) == {n} + if Owner(w, n).None? then {} else Ancestors(w, Owner(w, n).value)
    ensures Ancestors(w, INVIS_USER_NS) == {INVIS_USER_NS}
    ensures n != INVIS_USER_NS && Owner(w, n).Some? ==>
              Known(w, Owner(w, n).value) && Rank(w, Owner(w, n).value) < w.rank[n]
  {
  }

  // ---- what is scanned ----

  /** The namespace files of processes with the given PID that name `n`. */
  ghost function Places(procs: seq<Process>, n: NsId, pid: int): set<(int, int)> {
    set i, j | 0 <= i < |procs| && 0 <= j < |procs[i].files| && procs[i].pid == pid && procs[i].files[j] == Some(n) ::
      (i, j)
  }

  ghost function FilesNaming(files: seq<Option<NsId>>, n: NsId, i: int): set<(int, int)> {
    set j | 0 <= j < |files| && files[j] == Some(n) :: (i, j)
  }

  lemma FilesSplit(files: seq<Option<NsId>>, n: NsId, i: int)
    requires files != []
    ensures var k := |files| - 1;
      FilesNaming(files, n, i) == FilesNaming(files[..k], n, i) + (if files[k] == Some(n) then {(i, k)} else {})
    ensures (i, |files| - 1) !in FilesNaming(files[..|files| - 1], n, i)
  {
  }

  lemma {:induction false} FileCallsCount(pid: int, files: seq<Option<NsId>>, n: NsId, q: int, i: int)
    ensures multiset(FileCalls(pid, files))[Call(n, q)] == if q == pid then |FilesNaming(files, n, i)| else 0
  {
    if files != [] {
      var k := |files| - 1;
      FileCallsCount(pid, files[..k], n, q, i);
      FilesSplit(files, n, i);
      hide FilesNaming;
    }
  }

  lemma DisjointSize<T>(a: set<T>, b: set<T>)
    requires a !! b
    ensures |a + b| == |a| + |b|
  {
  }

  /** Each namespace file of each process is one call. */
  lemma {:induction false} CallsCount(procs: seq<Process>, n: NsId, pid: int)
    ensures multiset(Calls(procs))[Call(n, pid)] == |Places(procs, n, pid)|
  {
    if procs != [] {
      var k := |procs| - 1;
      var p := procs[k];
      CallsCount(procs[..k], n, pid);
      FileCallsCount(p.pid, p.files, n, pid, k);
      var last := if p.pid == pid then FilesNaming(p.files, n, k) else {};
      assert forall i :: 0 <= i < k ==> procs[..k][i] == procs[i];
      PlacesSplit(procs, n, pid);
      DisjointSize(Places(procs[..k], n, pid), last);
    }
  }

  lemma PlacesSplit(procs: seq<Process>, n: NsId, pid: int)
    requires procs != []
    ensures var k := |procs| - 1;
      var last := if procs[k].pid == pid then FilesNaming(procs[k].files, n, k) else {};
      Places(procs, n, pid) == Places(procs[..k], n, pid) + last && Places(procs[..k], n, pid) !! last
  {
    var k := |procs| - 1;
    assert forall i :: 0 <= i < k ==> procs[..k][i] == procs[i];
  }

  /** What the scan records, in terms of the processes and their files. */
  lemma ScanExact(w: World, list: NsList, rootNS: NsId, procs: seq<Process>, n: NsId, pid: int)
    requires Ok(w) && Represents(w, list, rootNS, Calls(procs))
    requires forall i :: 0 <= i < |procs| ==> ProcessOk(w, procs[i])
    ensures n in list <==> exists i, j :: NamesBelow(w, procs, i, j, n)
    ensures multiset(PidsIn(list, n))[pid] == |Places(procs, n, pid)|
  {
    hide Ok, Linked, RootOk, InvisOk, Reached, Ancestors, Calls, Members, Places, Known;
    var calls := Calls(procs);
    CallsCount(procs, n, pid);
    MembersCount(calls, n, pid);
    ReachedByOne(w, calls, n);
    forall c | c in calls && Known(w, c.ns) && n in Ancestors(w, c.ns)
      ensures exists i, j :: NamesBelow(w, procs, i, j, n)
    {
      var i, j := PlaceOfCall(procs, c);
      assert NamesBelow(w, procs, i, j, n);
    }
    forall i, j | NamesBelow(w, procs, i, j, n)
      ensures exists c :: c in calls && Known(w, c.ns) && n in Ancestors(w, c.ns)
    {
      CallOfPlace(procs, i, j);
    }
  }

  lemma ScanMeans(w: World, list: NsList, rootNS: NsId, procs: seq<Process>)
    requires Ok(w) && Represents(w, list, rootNS, Calls(procs))
    requires forall i :: 0 <= i < |procs| ==> ProcessOk(w, procs[i])
    ensures forall n :: n in list <==> exists i, j :: NamesBelow(w, procs, i, j, n)
    ensures forall n, pid :: multiset(PidsIn(list, n))[pid] == |Places(procs, n, pid)|
  {
    hide Ok, Represents, NamesBelow, Places, PidsIn, ProcessOk;
    forall n
      ensures n in list <==> exists i, j :: NamesBelow(w, procs, i, j, n)
    {
      ScanExact(w, list, rootNS, procs, n, 0);
    }
    forall n, pid
      ensures multiset(PidsIn(list, n))[pid] == |Places(procs, n, pid)|
    {
      ScanExact(w, list, rootNS, procs, n, pid);
    }
  }

  /** The `j`-th file of process `i` names a namespace at or below `n`. */
  ghost predicate NamesBelow(w: World, procs: seq<Process>, i: int, j: int, n: NsId)
    requires Ok(w)
  {
    && 0 <= i < |procs| && 0 <= j < |procs[i].files| && procs[i].files[j].Some?
    && Known(w, procs[i].files[j].value) && n in Ancestors(w, procs[i].files[j].value)
  }

  lemma PlaceOfCall(procs: seq<Process>, c: Call) returns (i: int, j: int)
    requires c in Calls(procs)
    ensures 0 <= i < |procs| && 0 <= j < |procs[i].files| && procs[i].files[j] == Some(c.ns)
  {
    hide Calls;
    assert multiset(Calls(procs))[c] > 0;
    CallsCount(procs, c.ns, c.pid);
    var place :| place in Places(procs, c.ns, c.pid);
    i, j := place.0, place.1;
  }

  lemma CallOfPlace(procs: seq<Process>, i: int, j: int)
    requires 0 <= i < |procs| && 0 <= j < |procs[i].files| && procs[i].files[j].Some?
    ensures Call(procs[i].files[j].value, procs[i].pid) in Calls(procs)
  {
    hide Calls;
    var n, pid := procs[i].files[j].value, procs[i].pid;
    CallsCount(procs, n, pid);
    assert (i, j) in Places(procs, n, pid);
    assert multiset(Calls(procs))[Call(n, pid)] > 0;
  }

  // ---- the order of the scan does not matter ----

  lemma {:induction false} ReachedByOne(w: World, calls: seq<Call>, n: NsId)
    requires Ok(w)
    ensures n in Reached(w, calls) <==> exists c :: c in calls && Known(w, c.ns) && n in Ancestors(w, c.ns)
  {
    if calls != [] {
      var k := |calls| - 1;
      ReachedByOne(w, calls[..k], n);
      assert calls == calls[..k] + [calls[k]];
      assert forall c :: c in calls <==> c in calls[..k] || c == calls[k];
    }
  }

  lemma {:induction false} MembersCount(calls: seq<Call>, n: NsId, pid: int)
    ensures multiset(Members(calls, n))[pid] == multiset(calls)[Call(n, pid)]
  {
    if calls != [] {
      var k := |calls| - 1;
      MembersCount(calls[..k], n, pid);
      assert calls == calls[..k] + [calls[k]];
    }
  }

  ghost function ElementsOf(s: seq<NsId>): set<NsId> {
    set c | c in s
  }

  /** Two scans of the same processes in different orders record the same namespaces with the same
      children and the same members. */
  lemma OrderIrrelevant(w: World, list1: NsList, root1: NsId, calls1: seq<Call>, list2: NsList, root2: NsId,
                        calls2: seq<Call>)
    requires Ok(w) && Represents(w, list1, root1, calls1) && Represents(w, list2, root2, calls2)
    requires multiset(calls1) == multiset(calls2)
    ensures list1.Keys == list2.Keys && root1 == root2
    ensures forall n :: n in list1 ==>
              && ElementsOf(list1[n].children) == ElementsOf(list2[n].children)
              && multiset(list1[n].pids) == multiset(list2[n].pids)
  {
    assert forall c :: c in calls1 <==> c in multiset(calls1);
    assert forall c :: c in calls2 <==> c in multiset(calls2);
    SameReach(w, calls1, calls2);
    forall n | n in list1
      ensures ElementsOf(list1[n].children) == ElementsOf(list2[n].children)
      ensures multiset(list1[n].pids) == multiset(list2[n].pids)
    {
      SameChildren(w, list1, list2, n);
      assert PidsIn(list1, n) == Members(calls1, n) && PidsIn(list2, n) == Members(calls2, n);
      SameMembers(calls1, calls2, n);
    }
  }

  lemma SameReach(w: World, calls1: seq<Call>, calls2: seq<Call>)
    requires Ok(w) && forall c :: c in calls1 <==> c in calls2
    ensures Reached(w, calls1) == Reached(w, calls2)
  {
    hide Ok, Known, Ancestors, Reached;
    forall n
      ensures n in Reached(w, calls1) <==> n in Reached(w, calls2)
    {
      ReachedByOne(w, calls1, n);
      ReachedByOne(w, calls2, n);
    }
  }

  lemma SameMembers(calls1: seq<Call>, calls2: seq<Call>, n: NsId)
    requires multiset(calls1) == multiset(calls2)
    ensures multiset(Members(calls1, n)) == multiset(Members(calls2, n))
  {
    forall pid
      ensures multiset(Members(calls1, n))[pid] == multiset(Members(calls2, n))[pid]
    {
      MembersCount(calls1, n, pid);
      MembersCount(calls2, n, pid);
    }
  }

  lemma ChildrenExact(w: World, list: NsList, p: NsId, c: NsId)
    requires Ok(w) && Linked(w, list, {}) && p in list
    ensures c in list[p].children <==> c in list && Owner(w, c) == Some(p)
  {
    hide Ok, Owner, NoDup;
  }

  lemma SameChildren(w: World, list1: NsList, list2: NsList, p: NsId)
    requires Ok(w) && Linked(w, list1, {}) && Linked(w, list2, {}) && list1.Keys == list2.Keys && p in list1
    ensures ElementsOf(list1[p].children) == ElementsOf(list2[p].children)
  {
    hide Ok, Owner;
    forall c
      ensures c in ElementsOf(list1[p].children) <==> c in ElementsOf(list2[p].children)
    {
      ChildrenExact(w, list1, p, c);
      ChildrenExact(w, list2, p, c);
    }
  }
}
