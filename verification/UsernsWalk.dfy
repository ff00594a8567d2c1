/** The walk through ancestor user namespaces in ns_capable.c, and the verdict based on it. */
module UsernsWalk {

  import opened Common

  type Ns = int

  /** The user namespaces: the parent of each but the initial one, the user ID of each one's creator,
      and a depth that shows the parents to form a tree. */
  datatype Userns = Userns(parent: map<Ns, Ns>, owner: map<Ns, int>, depth: map<Ns, nat>)

  predicate Tree(h: Userns) {
    && h.owner.Keys == h.depth.Keys
    && forall n :: n in h.parent ==> n in h.depth && h.parent[n] in h.depth && h.depth[h.parent[n]] < h.depth[n]
  }

  /** The namespace, its parent, and so on. */
  function Chain(h: Userns, n: Ns): (c: seq<Ns>)
    requires Tree(h) && n in h.depth
    ensures c != [] && c[0] == n && forall i :: 0 <= i < |c| ==> c[i] in h.depth
    decreases h.depth[n]
  {
    [n] + if n in h.parent then Chain(h, h.parent[n]) else []
  }

  lemma {:induction false} ChainLinks(h: Userns, n: Ns, i: nat)
    requires Tree(h) && n in h.depth && i < |Chain(h, n)|
    ensures var c := Chain(h, n);
      if i + 1 < |c| then c[i] in h.parent && h.parent[c[i]] == c[i + 1] else c[i] !in h.parent
    decreases h.depth[n]
  {
    if i > 0 {
      ChainLinks(h, h.parent[n], i - 1);
    }
  }

  /** No namespace is its own ancestor. */
  lemma {:induction false} ChainDescends(h: Userns, n: Ns, i: nat, j: nat)
    requires Tree(h) && n in h.depth && i < j < |Chain(h, n)|
    ensures h.depth[Chain(h, n)[j]] < h.depth[Chain(h, n)[i]]
    decreases j
  {
    var c := Chain(h, n);
    ChainLinks(h, n, j - 1);
    var below := c[j - 1];
    assert h.parent[below] == c[j] && h.depth[h.parent[below]] < h.depth[below];
    if i < j - 1 {
      ChainDescends(h, n, i, j - 1);
    }
  }

  /** `x` is a proper ancestor of `y`, and `c` is the one below it in the chain from `y`. */
  predicate ChildOnChain(h: Userns, x: Ns, y: Ns, c: Ns)
    requires Tree(h) && y in h.depth
  {
    exists i :: 0 < i < |Chain(h, y)| && Chain(h, y)[i] == x && Chain(h, y)[i - 1] == c
  }

  predicate ProperAncestor(h: Userns, x: Ns, y: Ns)
    requires Tree(h) && y in h.depth
  {
    x in Chain(h, y)[1..]
  }

  lemma AncestorHasChild(h: Userns, x: Ns, y: Ns)
    requires Tree(h) && y in h.depth
    ensures (exists c :: ChildOnChain(h, x, y, c)) <==> ProperAncestor(h, x, y)
  {
    hide Chain;
    var chain := Chain(h, y);
    forall c | ChildOnChain(h, x, y, c)
      ensures ProperAncestor(h, x, y)
    {
      var i :| 0 < i < |chain| && chain[i] == x && chain[i - 1] == c;
      assert chain[1..][i - 1] == x;
    }
    if ProperAncestor(h, x, y) {
      var i :| 0 <= i < |chain[1..]| && chain[1..][i] == x;
      assert chain[i + 1] == x;
      assert ChildOnChain(h, x, y, chain[i]);
    }
  }

  /** There is one such child if `x` is a proper ancestor of `y`, and else there is none. */
  lemma OneChild(h: Userns, x: Ns, y: Ns)
    requires Tree(h) && y in h.depth
    ensures (exists c :: ChildOnChain(h, x, y, c)) <==> ProperAncestor(h, x, y)
    ensures forall c, d :: ChildOnChain(h, x, y, c) && ChildOnChain(h, x, y, d) ==> c == d
    ensures forall c :: ChildOnChain(h, x, y, c) ==> c in h.parent && h.parent[c] == x
  {
    hide Chain;
    var chain := Chain(h, y);
    AncestorHasChild(h, x, y);
    forall c, d | ChildOnChain(h, x, y, c) && ChildOnChain(h, x, y, d)
      ensures c == d && c in h.parent && h.parent[c] == x
    {
      var i :| 0 < i < |chain| && chain[i] == x && chain[i - 1] == c;
      var j :| 0 < j < |chain| && chain[j] == x && chain[j - 1] == d;
      ChainLinks(h, y, i - 1);
      if i < j {
        ChainDescends(h, y, i, j);
      } else if j < i {
        ChainDescends(h, y, j, i);
      }
    }
  }

  // ---- the program ----

  /** is_ancestor_userns(). */
  method IsAncestorUserns(h: Userns, x: Ns, y: Ns) returns (r: Option<Ns>)
    requires Tree(h) && y in h.depth
    ensures r.Some? <==> ProperAncestor(h, x, y)
    ensures r.Some? ==> ChildOnChain(h, x, y, r.value)
  {
    ghost var chain := Chain(h, y);
    ghost var k := 0;
    var child := y;
    while true
      invariant 0 <= k < |chain| && chain[k] == child
      invariant forall i :: 0 < i <= k ==> chain[i] != x
      decreases |chain| - k
    {
      ChainLinks(h, y, k);
      if child !in h.parent {
        return None;
      }
      var parent := h.parent[child];
      k := k + 1;
      if parent == x {
        assert chain[1..][k - 1] == x;
        return Some(child);
      }
      child := parent;
    }
  }

  /** A target is a user namespace, or a namespace of another type with the user namespace owning it. */
  datatype Target = UserNs(n: Ns) | OtherNs(owningUserns: Ns)

  datatype Verdict = OwnSets | AllCapabilities | NoCapabilities

  function TargetUserns(t: Target): Ns {
    match t
    case UserNs(n) => n
    case OtherNs(n) => n
  }

  /** The rules of user_namespaces(7): a process has a capability in a user namespace if it is a member
      and has the capability in its sets; or if it has the capability in the parent; or if it is a
      member of the parent and its effective user ID is that of the namespace's creator. */
  predicate Has(h: Userns, member: Ns, euid: int, sets: set<int>, n: Ns, cap: int)
    requires Tree(h) && n in h.depth
    decreases h.depth[n]
  {
    || (n == member && cap in sets)
    || (n in h.parent && h.parent[n] == member && h.owner[n] == euid)
    || (n in h.parent && Has(h, member, euid, sets, h.parent[n], cap))
  }

  /** The verdict of main(). */
  method Judge(h: Userns, member: Ns, euid: int, target: Target) returns (v: Verdict)
    requires Tree(h) && TargetUserns(target) in h.depth
    ensures v == OwnSets ==>
              forall sets, cap :: cap in sets <==> Has(h, member, euid, sets, TargetUserns(target), cap)
    ensures v == AllCapabilities ==> forall sets, cap :: Has(h, member, euid, sets, TargetUserns(target), cap)
    ensures v == NoCapabilities ==> forall sets, cap :: !Has(h, member, euid, sets, TargetUserns(target), cap)
    ensures member == TargetUserns(target) ==> v == OwnSets
    ensures v == NoCapabilities <==> member !in Chain(h, TargetUserns(target))
    ensures v == AllCapabilities <==>
            exists c :: ChildOnChain(h, member, TargetUserns(target), c) && h.owner[c] == euid
  {
    var targetUserns := match target { case UserNs(n) => n case OtherNs(n) => n };
    if member == targetUserns {
      v := OwnSets;
    } else {
      var descUserns := IsAncestorUserns(h, member, targetUserns);
      if descUserns.None? {
        v := NoCapabilities;
      } else {
        OneChild(h, member, targetUserns);
        v := if h.owner[descUserns.value] == euid then AllCapabilities else OwnSets;
      }
    }
    InChain(h, member, targetUserns);
    OneChild(h, member, targetUserns);
    assert member == targetUserns ==> !exists c :: ChildOnChain(h, member, targetUserns, c);
    forall sets, cap
      ensures Has(h, member, euid, sets, targetUserns, cap) <==>
              || (member in Chain(h, targetUserns) && cap in sets)
              || exists c :: ChildOnChain(h, member, targetUserns, c) && h.owner[c] == euid
    {
      HasIff(h, member, euid, sets, targetUserns, cap);
    }
  }

  lemma InChain(h: Userns, x: Ns, y: Ns)
    requires Tree(h) && y in h.depth
    ensures x in Chain(h, y) <==> x == y || ProperAncestor(h, x, y)
    ensures !ProperAncestor(h, y, y)
  {
    var chain := Chain(h, y);
    assert chain == [y] + chain[1..];
    if ProperAncestor(h, y, y) {
      var i :| 0 <= i < |chain[1..]| && chain[1..][i] == y;
      ChainDescends(h, y, 0, i + 1);
    }
  }

  /** The rules in terms of the chain: nothing outside it; in the member namespace itself the sets; and
      below it everything for the creator of the child on the chain, or else the sets. */
  lemma {:induction false} HasIff(h: Userns, member: Ns, euid: int, sets: set<int>, n: Ns, cap: int)
    requires Tree(h) && n in h.depth
    ensures Has(h, member, euid, sets, n, cap) <==>
            || (member in Chain(h, n) && cap in sets)
            || (exists c :: ChildOnChain(h, member, n, c) && h.owner[c] == euid)
    decreases h.depth[n]
  {
    var chain := Chain(h, n);
    if n in h.parent {
      var p := h.parent[n];
      HasIff(h, member, euid, sets, p, cap);
      assert chain == [n] + Chain(h, p);
      forall c
        ensures ChildOnChain(h, member, n, c) <==> (member == p && c == n) || ChildOnChain(h, member, p, c)
      {
        ChildStep(h, member, n, c);
      }
    } else {
      assert chain == [n];
    }
  }

  lemma ChildStep(h: Userns, x: Ns, n: Ns, c: Ns)
    requires Tree(h) && n in h.parent
    ensures ChildOnChain(h, x, n, c) <==> (x == h.parent[n] && c == n) || ChildOnChain(h, x, h.parent[n], c)
  {
    var chain, rest := Chain(h, n), Chain(h, h.parent[n]);
    assert chain == [n] + rest;
    if x == h.parent[n] && c == n {
      assert chain[1] == x && chain[0] == c;
    }
    if ChildOnChain(h, x, h.parent[n], c) {
      var i :| 0 < i < |rest| && rest[i] == x && rest[i - 1] == c;
      assert chain[i + 1] == x && chain[i + 1 - 1] == c;
    }
    if ChildOnChain(h, x, n, c) {
      var i :| 0 < i < |chain| && chain[i] == x && chain[i - 1] == c;
      assert i > 1 ==> rest[i - 1] == x && rest[i - 1 - 1] == c;
    }
  }
}
