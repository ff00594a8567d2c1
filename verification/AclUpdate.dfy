/** How acl_update.c applies parsed entries to the access control list of a file. */
module AclUpdate {

  import opened Common
  import opened AclParse

  type Acl = seq<Entry>

  /** What entries are looked up by: the qualifier matters for named users and groups only. */
  datatype Key = Key(tag: Tag, qual: int)

  function KeyFor(tag: Tag, qual: int): Key {
    Key(tag, if Named(tag) then qual else 0)
  }

  function KeyOf(e: Entry): Key {
    KeyFor(e.tag, e.qual)
  }

  const MASK := Key(Mask, 0)

  predicate Matches(e: Entry, tag: Tag, qual: int) {
    e.tag == tag && (tag == User || tag == Group ==> e.qual == qual)
  }

  /** The index of the first entry with the key, or the number of entries. */
  function Find(acl: Acl, k: Key): (i: nat)
    ensures i <= |acl| && (forall j :: 0 <= j < i ==> KeyOf(acl[j]) != k) && (i < |acl| ==> KeyOf(acl[i]) == k)
  {
    if acl == [] || KeyOf(acl[0]) == k then 0 else 1 + Find(acl[1..], k)
  }

  /** The list as a partial map. */
  function PermsOf(acl: Acl, k: Key): Option<Perms> {
    if Find(acl, k) < |acl| then Some(acl[Find(acl, k)].perms) else None
  }

  predicate UniqueKeys(acl: Acl) {
    forall i, j :: 0 <= i < j < |acl| ==> KeyOf(acl[i]) != KeyOf(acl[j])
  }

  predicate Present(acl: Acl, k: Key) {
    PermsOf(acl, k).Some?
  }

  // ---- one entry ----

  function Set(acl: Acl, e: Entry): Acl {
    var i := Find(acl, KeyOf(e));
    if i < |acl| then acl[i := acl[i].(perms := e.perms)]
    else acl + [Entry(e.tag, KeyOf(e).qual, e.perms)]
  }

  function Deleted(acl: Acl, k: Key): Acl {
    var i := Find(acl, k);
    if i < |acl| then acl[..i] + acl[i + 1..] else acl
  }

  predicate GroupClass(tag: Tag) {
    tag == User || tag == GroupObj || tag == Group
  }

  function Union(p: Perms, q: Perms): Perms {
    Perms(p.read || q.read, p.write || q.write, p.execute || q.execute)
  }

  /** The union of the permissions of all entries in the group class. */
  function ClassPerms(acl: Acl): Perms {
    if acl == [] then Perms(false, false, false)
    else if GroupClass(acl[0].tag) then Union(acl[0].perms, ClassPerms(acl[1..]))
    else ClassPerms(acl[1..])
  }

  /** acl_calc_mask() of POSIX.1e draft 17: the mask entry becomes that union, and is made if missing. */
  function CalcMask(acl: Acl): Acl {
    Set(acl, Entry(Mask, 0, ClassPerms(acl)))
  }

  /** acl_valid() of POSIX.1e draft 17: the three base entries, no key twice, and a mask entry if there
      is a named user or group. */
  predicate Valid(acl: Acl) {
    && UniqueKeys(acl)
    && Present(acl, Key(UserObj, 0)) && Present(acl, Key(GroupObj, 0)) && Present(acl, Key(Other, 0))
    && ((exists i :: 0 <= i < |acl| && Named(acl[i].tag)) ==> Present(acl, MASK))
  }

  /** What one entry of the specification does to the list. */
  function Step(acl: Acl, e: Entry, remove: bool, recalc: bool): Acl {
    var acl' := if remove then Deleted(acl, KeyOf(e)) else Set(acl, e);
    if recalc then CalcMask(acl') else acl'
  }

  function Steps(acl: Acl, entries: seq<Entry>, remove: bool, recalc: bool): Acl {
    if entries == [] then acl
    else Step(Steps(acl, entries[..|entries| - 1], remove, recalc), entries[|entries| - 1], remove, recalc)
  }

  // ---- the program ----

  /** The list in memory and the list of the file. */
  class FileAcl {
    var acl: Acl
    var file: Acl

    /** findEntry(). */
    method FindEntry(tag: Tag, qual: int) returns (entry: Option<nat>)
      ensures entry == var i := Find(acl, KeyFor(tag, qual)); if i < |acl| then Some(i) else None
      ensures entry.Some? ==> entry.value < |acl| && Matches(acl[entry.value], tag, qual)
      ensures forall j :: 0 <= j < (if entry.Some? then entry.value else |acl|) ==> !Matches(acl[j], tag, qual)
    {
      var ent := 0;
      while ent < |acl|
        invariant 0 <= ent <= |acl| && forall j :: 0 <= j < ent ==> KeyOf(acl[j]) != KeyFor(tag, qual)
      {
        if tag == acl[ent].tag {
          if tag == User || tag == Group {
            if qual == acl[ent].qual {
              return Some(ent);
            }
          } else {
            return Some(ent);
          }
        }
        ent := ent + 1;
      }
      return None;
    }

    /** setPerms(). */
    method SetPerms(entry: nat, perms: Perms)
      requires entry < |acl|
      modifies this`acl
      ensures acl == old(acl)[entry := old(acl)[entry].(perms := perms)]
    {
      var permset := Perms(false, false, false);
      if perms.read {
        permset := permset.(read := true);
      }
      if perms.write {
        permset := permset.(write := true);
      }
      if perms.execute {
        permset := permset.(execute := true);
      }
      acl := acl[entry := acl[entry].(perms := permset)];
    }

    /** acl_calc_mask() of the library. */
    method Recalculate()
      modifies this`acl
      ensures acl == CalcMask(old(acl))
    {
      acl := CalcMask(acl);
    }

    /** One round of the loop, up to the check. */
    method ApplyEntry(e: Entry, removeACL: bool, recalcMask: bool)
      modifies this`acl
      ensures acl == Step(old(acl), e, removeACL, recalcMask)
    {
      hide ClassPerms, CalcMask;
      var entry := FindEntry(e.tag, e.qual);
      if removeACL {
        if entry.Some? {
          acl := acl[..entry.value] + acl[entry.value + 1..];
        }
      } else {
        if entry.None? {
          acl := acl + [Entry(e.tag, if Named(e.tag) then e.qual else 0, Perms(false, false, false))];
          entry := Some(|acl| - 1);
        }
        SetPerms(entry.value, e.perms);
      }
      assert acl == if removeACL then Deleted(old(acl), KeyOf(e)) else Set(old(acl), e);
      if recalcMask {
        Recalculate();
      }
    }

    /** The loop over the specification for one file. An invalid list ends the program; what was stored
        before stays stored, so that the file has the effect of the longest run of entries that left the
        list valid. */
    method Update(aclist: array<Entry>, numEntries: nat, removeACL: bool, recalcMask: bool)
        returns (ok: bool, ghost applied: nat)
      requires numEntries <= aclist.Length
      modifies this
      ensures applied <= numEntries && (ok <==> applied == numEntries)
      ensures file == Steps(old(file), aclist[..applied], removeACL, recalcMask)
      ensures forall k :: 1 <= k <= applied ==> Valid(Steps(old(file), aclist[..k], removeACL, recalcMask))
      ensures !ok ==> !Valid(Steps(old(file), aclist[..applied + 1], removeACL, recalcMask))
    {
      hide Step, Valid;
      acl := file;
      var en := 0;
      applied := 0;
      assert aclist[..0] == [];
      while en < numEntries
        invariant en == applied <= numEntries
        invariant acl == file == Steps(old(file), aclist[..en], removeACL, recalcMask)
        invariant forall k :: 1 <= k <= en ==> Valid(Steps(old(file), aclist[..k], removeACL, recalcMask))
      {
        ApplyEntry(aclist[en], removeACL, recalcMask);
        assert aclist[..en + 1][..en] == aclist[..en];
        if !Valid(acl) {
          return false, applied;
        }
        file := acl;
        en, applied := en + 1, applied + 1;
      }
      ok := true;
    }
  }

  // ---- the list as a map ----

  lemma FindFirst(acl: Acl, k: Key, i: nat)
    requires i < |acl| && KeyOf(acl[i]) == k && UniqueKeys(acl)
    ensures Find(acl, k) == i && PermsOf(acl, k) == Some(acl[i].perms)
  {
    var j := Find(acl, k);
  }

  lemma FindNone(acl: Acl, k: Key)
    ensures PermsOf(acl, k).None? <==> forall i :: 0 <= i < |acl| ==> KeyOf(acl[i]) != k
  {
    var j := Find(acl, k);
  }

  /** Only the given key is overridden, keys stay unique, and old entries keep their places. */
  lemma SetMeans(acl: Acl, e: Entry, k: Key)
    requires UniqueKeys(acl)
    ensures UniqueKeys(Set(acl, e)) && |acl| <= |Set(acl, e)| <= |acl| + 1
    ensures forall j :: 0 <= j < |acl| ==>
              KeyOf(Set(acl, e)[j]) == KeyOf(acl[j]) && (KeyOf(acl[j]) != KeyOf(e) ==> Set(acl, e)[j] == acl[j])
    ensures PermsOf(Set(acl, e), k) == if k == KeyOf(e) then Some(e.perms) else PermsOf(acl, k)
  {
    var acl', i := Set(acl, e), Find(acl, KeyOf(e));
    assert forall j :: 0 <= j < |acl| ==> KeyOf(acl'[j]) == KeyOf(acl[j]);
    if k == KeyOf(e) {
      FindFirst(acl', k, i);
    } else {
      var j := Find(acl, k);
      if j < |acl| {
        FindFirst(acl', k, j);
      } else {
        FindNone(acl', k);
      }
    }
  }

  lemma DeletedMeans(acl: Acl, d: Key, k: Key)
    requires UniqueKeys(acl)
    ensures UniqueKeys(Deleted(acl, d))
    ensures Deleted(acl, d) == acl || exists i :: 0 <= i < |acl| && Deleted(acl, d) == acl[..i] + acl[i + 1..]
    ensures PermsOf(Deleted(acl, d), k) == if k == d then None else PermsOf(acl, k)
  {
    var acl', i := Deleted(acl, d), Find(acl, d);
    assert forall j :: 0 <= j < |acl'| ==> acl'[j] == acl[if j < i then j else j + 1];
    var j := Find(acl, k);
    if k == d || j == |acl| {
      FindNone(acl', k);
    } else {
      assert acl'[if j < i then j else j - 1] == acl[j];
      FindFirst(acl', k, if j < i then j else j - 1);
    }
  }

  /** The permissions of the last entry with the key. */
  function LastFor(entries: seq<Entry>, k: Key): Option<Perms> {
    if entries == [] then None
    else if KeyOf(entries[|entries| - 1]) == k then Some(entries[|entries| - 1].perms)
    else LastFor(entries[..|entries| - 1], k)
  }

  /** What a specification should do: with -m the last entry for a key decides, with -x every key that
      it names goes, and all else stays as it was. */
  function Expected(acl: Acl, entries: seq<Entry>, remove: bool, k: Key): Option<Perms> {
    if LastFor(entries, k).None? then PermsOf(acl, k)
    else if remove then None
    else LastFor(entries, k)
  }

  lemma StepMeans(acl: Acl, e: Entry, remove: bool, recalc: bool, k: Key)
    requires UniqueKeys(acl)
    ensures UniqueKeys(Step(acl, e, remove, recalc))
    ensures !(recalc && k == MASK) ==>
              PermsOf(Step(acl, e, remove, recalc), k) ==
              if k != KeyOf(e) then PermsOf(acl, k) else if remove then None else Some(e.perms)
    ensures recalc ==> exists acl' :: Step(acl, e, remove, recalc) == CalcMask(acl') && UniqueKeys(acl')
  {
    hide Set, Deleted, PermsOf, UniqueKeys, ClassPerms;
    SetMeans(acl, e, k);
    DeletedMeans(acl, KeyOf(e), k);
    var acl' := if remove then Deleted(acl, KeyOf(e)) else Set(acl, e);
    SetMeans(acl', Entry(Mask, 0, ClassPerms(acl')), k);
  }

  // ---- the mask ----

  lemma {:induction false} ClassPermsConcat(a: Acl, b: Acl)
    ensures ClassPerms(a + b) == Union(ClassPerms(a), ClassPerms(b))
  {
    if a == [] {
      assert a + b == b;
    } else {
      assert (a + b)[1..] == a[1..] + b;
      ClassPermsConcat(a[1..], b);
    }
  }

  /** The mask entry does not count towards the mask. */
  lemma MaskIsNoMember(acl: Acl, p: Perms)
    ensures ClassPerms(Set(acl, Entry(Mask, 0, p))) == ClassPerms(acl)
  {
    var i := Find(acl, MASK);
    var e := Entry(Mask, 0, p);
    if i < |acl| {
      assert acl == acl[..i] + [acl[i]] + acl[i + 1..] && Set(acl, e) == acl[..i] + [Set(acl, e)[i]] + acl[i + 1..];
      ClassPermsConcat(acl[..i], [acl[i]]);
      ClassPermsConcat(acl[..i], [Set(acl, e)[i]]);
      ClassPermsConcat(acl[..i] + [acl[i]], acl[i + 1..]);
      ClassPermsConcat(acl[..i] + [Set(acl, e)[i]], acl[i + 1..]);
    } else {
      ClassPermsConcat(acl, [e]);
    }
  }

  /** Each permission is in the union if it is in some entry of the group class. */
  lemma {:induction false} ClassPermsExact(acl: Acl)
    ensures ClassPerms(acl).read <==> exists i :: 0 <= i < |acl| && GroupClass(acl[i].tag) && acl[i].perms.read
    ensures ClassPerms(acl).write <==> exists i :: 0 <= i < |acl| && GroupClass(acl[i].tag) && acl[i].perms.write
    ensures ClassPerms(acl).execute <==> exists i :: 0 <= i < |acl| && GroupClass(acl[i].tag) && acl[i].perms.execute
  {
    if acl != [] {
      ClassPermsExact(acl[1..]);
      assert acl == [acl[0]] + acl[1..];
      assert forall i :: 1 <= i < |acl| ==> acl[i] == acl[1..][i - 1];
      assert forall i :: 0 <= i < |acl[1..]| ==> acl[1..][i] == acl[i + 1];
    }
  }

  // ---- whole specifications ----

  /** For any list with unique keys and any specification: keys stay unique; every key has what the
      specification says it should; and with recalculation the mask is the union of the permissions of
      the group class. */
  lemma {:induction false} StepsMean(acl: Acl, entries: seq<Entry>, remove: bool, recalc: bool, k: Key)
    requires UniqueKeys(acl)
    ensures var acl' := Steps(acl, entries, remove, recalc);
      && UniqueKeys(acl')
      && (!(recalc && k == MASK) ==> PermsOf(acl', k) == Expected(acl, entries, remove, k))
      && (recalc && entries != [] ==> PermsOf(acl', MASK) == Some(ClassPerms(acl')))
  {
    hide Set, Deleted, PermsOf, UniqueKeys, ClassPerms, Step;
    if entries != [] {
      var n := |entries| - 1;
      var before := Steps(acl, entries[..n], remove, recalc);
      StepsMean(acl, entries[..n], remove, recalc, k);
      StepMeans(before, entries[n], remove, recalc, k);
      if recalc {
        var a :| Step(before, entries[n], remove, recalc) == CalcMask(a) && UniqueKeys(a);
        MaskIsNoMember(a, ClassPerms(a));
        SetMeans(a, Entry(Mask, 0, ClassPerms(a)), MASK);
      }
    }
  }

  // ---- the same, entry by entry ----

  lemma MatchesIff(a: Entry, b: Entry)
    ensures Matches(a, b.tag, b.qual) <==> KeyOf(a) == KeyOf(b)
  {
  }

  ghost predicate NoTwoMatch(acl: Acl) {
    forall i, j :: 0 <= i < j < |acl| ==> !Matches(acl[i], acl[j].tag, acl[j].qual)
  }

  lemma NoTwoIff(acl: Acl)
    ensures NoTwoMatch(acl) <==> UniqueKeys(acl)
  {
    forall i, j | 0 <= i < j < |acl|
      ensures Matches(acl[i], acl[j].tag, acl[j].qual) <==> KeyOf(acl[i]) == KeyOf(acl[j])
    {
      MatchesIff(acl[i], acl[j]);
    }
  }

  /** The specification's last word on the entry. */
  predicate LastWord(entries: seq<Entry>, i: int, e: Entry) {
    && 0 <= i < |entries| && Matches(entries[i], e.tag, e.qual)
    && forall j :: i < j < |entries| ==> !Matches(entries[j], e.tag, e.qual)
  }

  lemma {:induction false} LastForMeans(entries: seq<Entry>, e: Entry)
    ensures LastFor(entries, KeyOf(e)).Some? ==>
              exists i :: LastWord(entries, i, e) && LastFor(entries, KeyOf(e)) == Some(entries[i].perms)
    ensures LastFor(entries, KeyOf(e)).None? ==>
              forall i :: 0 <= i < |entries| ==> !Matches(entries[i], e.tag, e.qual)
  {
    if entries != [] {
      var n := |entries| - 1;
      MatchesIff(entries[n], e);
      if KeyOf(entries[n]) == KeyOf(e) {
        assert LastWord(entries, n, e);
      } else {
        LastForMeans(entries[..n], e);
        assert forall i :: 0 <= i < n ==> entries[..n][i] == entries[i];
        if LastFor(entries[..n], KeyOf(e)).Some? {
          var i :| LastWord(entries[..n], i, e) && LastFor(entries[..n], KeyOf(e)) == Some(entries[..n][i].perms);
          assert LastWord(entries, i, e);
        }
      }
    }
  }

  lemma EntryOf(acl: Acl, e: Entry) returns (i: nat)
    requires PermsOf(acl, KeyOf(e)).Some?
    ensures i < |acl| && Matches(acl[i], e.tag, e.qual) && PermsOf(acl, KeyOf(e)) == Some(acl[i].perms)
  {
    i := Find(acl, KeyOf(e));
    MatchesIff(acl[i], e);
  }

  /** Where an entry of the outcome, other than a recalculated mask, has its permissions from. */
  lemma EntriesAfter(acl: Acl, entries: seq<Entry>, remove: bool, recalc: bool, i: nat)
    requires NoTwoMatch(acl) && i < |Steps(acl, entries, remove, recalc)|
    requires var e := Steps(acl, entries, remove, recalc)[i]; !(recalc && e.tag == Mask)
    ensures var e := Steps(acl, entries, remove, recalc)[i];
      || (!remove && exists j :: LastWord(entries, j, e) && entries[j].perms == e.perms)
      || ((forall j :: 0 <= j < |entries| ==> !Matches(entries[j], e.tag, e.qual)) &&
          exists j :: 0 <= j < |acl| && Matches(acl[j], e.tag, e.qual) && acl[j].perms == e.perms)
  {
    hide Steps, PermsOf, LastFor, Matches;
    var acl' := Steps(acl, entries, remove, recalc);
    var e := acl'[i];
    NoTwoIff(acl);
    StepsMean(acl, entries, remove, recalc, KeyOf(e));
    FindFirst(acl', KeyOf(e), i);
    LastForMeans(entries, e);
    if LastFor(entries, KeyOf(e)).None? {
      var j := EntryOf(acl, e);
    }
  }

  /** Every entry of the list that the specification does not name is in the outcome, and with -m every
      entry that it names. */
  lemma EntryStays(acl: Acl, entries: seq<Entry>, remove: bool, recalc: bool, e: Entry)
    requires NoTwoMatch(acl)
    requires if exists j :: 0 <= j < |entries| && Matches(entries[j], e.tag, e.qual) then !remove else e in acl
    ensures exists i :: 0 <= i < |Steps(acl, entries, remove, recalc)| &&
                        Matches(Steps(acl, entries, remove, recalc)[i], e.tag, e.qual)
  {
    hide Steps, LastFor, Matches;
    var k := KeyOf(e);
    NoTwoIff(acl);
    PresentAfter(acl, entries, remove, recalc, k);
    if j :| 0 <= j < |entries| && Matches(entries[j], e.tag, e.qual) {
      MatchesIff(entries[j], e);
    } else {
      forall j | 0 <= j < |entries|
        ensures KeyOf(entries[j]) != k
      {
        MatchesIff(entries[j], e);
      }
      FindNone(acl, k);
    }
    var i := EntryOf(Steps(acl, entries, remove, recalc), e);
  }

  /** The entries of the group class are all but the owner's, the others', and the mask itself. */
  predicate GroupHas(acl: Acl, i: int) {
    0 <= i < |acl| && acl[i].tag != UserObj && acl[i].tag != Mask && acl[i].tag != Other
  }

  /** After a recalculation there is one mask entry, and it has a permission if and only if some entry has
      it that is not the owner's, the others' or the mask. */
  lemma MaskExact(acl: Acl, entries: seq<Entry>, remove: bool)
    requires NoTwoMatch(acl) && entries != []
    ensures var acl' := Steps(acl, entries, remove, true);
      && NoTwoMatch(acl')
      && (exists i :: 0 <= i < |acl'| && acl'[i].tag == Mask)
      && forall i :: 0 <= i < |acl'| && acl'[i].tag == Mask ==>
           && (acl'[i].perms.read <==> exists j :: GroupHas(acl', j) && acl'[j].perms.read)
           && (acl'[i].perms.write <==> exists j :: GroupHas(acl', j) && acl'[j].perms.write)
           && (acl'[i].perms.execute <==> exists j :: GroupHas(acl', j) && acl'[j].perms.execute)
  {
    var acl' := Steps(acl, entries, remove, true);
    hide Steps, ClassPerms, Union;
    NoTwoIff(acl);
    StepsMean(acl, entries, remove, true, MASK);
    NoTwoIff(acl');
    ClassPermsExact(acl');
    assert forall i :: 0 <= i < |acl'| ==> (GroupClass(acl'[i].tag) <==> GroupHas(acl', i));
    FindNone(acl', MASK);
    forall i | 0 <= i < |acl'| && acl'[i].tag == Mask
      ensures acl'[i].perms == ClassPerms(acl')
    {
      FindFirst(acl', MASK, i);
    }
  }

  // ---- when the program succeeds ----

  /** The list stays valid after each entry. */
  ghost predicate Succeeds(acl: Acl, entries: seq<Entry>, remove: bool, recalc: bool) {
    forall k :: 1 <= k <= |entries| ==> Valid(Steps(acl, entries[..k], remove, recalc))
  }

  predicate HasKey(entries: seq<Entry>, k: Key) {
    exists i :: 0 <= i < |entries| && KeyOf(entries[i]) == k
  }

  lemma {:induction false} LastForIff(entries: seq<Entry>, k: Key)
    ensures LastFor(entries, k).Some? <==> HasKey(entries, k)
  {
    if entries != [] {
      var n := |entries| - 1;
      LastForIff(entries[..n], k);
      assert forall i :: 0 <= i < n ==> entries[..n][i] == entries[i];
    }
  }

  ghost predicate SomeNamed(acl: Acl) {
    exists k: Key :: Named(k.tag) && Present(acl, k)
  }

  predicate HasBase(acl: Acl) {
    Present(acl, Key(UserObj, 0)) && Present(acl, Key(GroupObj, 0)) && Present(acl, Key(Other, 0))
  }

  lemma ValidIff(acl: Acl)
    ensures Valid(acl) <==> UniqueKeys(acl) && HasBase(acl) && (SomeNamed(acl) ==> Present(acl, MASK))
  {
    hide Find;
    forall i | 0 <= i < |acl| && Named(acl[i].tag)
      ensures SomeNamed(acl)
    {
      FindNone(acl, KeyOf(acl[i]));
      assert Present(acl, KeyOf(acl[i]));
    }
    forall k: Key | Named(k.tag) && Present(acl, k)
      ensures exists i :: 0 <= i < |acl| && Named(acl[i].tag)
    {
      FindNone(acl, k);
    }
  }

  predicate HasTag(acl: Acl, tag: Tag) {
    exists i :: 0 <= i < |acl| && acl[i].tag == tag
  }

  /** What is valid, entry by entry. */
  lemma ValidExact(acl: Acl)
    ensures Valid(acl) <==>
            && NoTwoMatch(acl) && HasTag(acl, UserObj) && HasTag(acl, GroupObj) && HasTag(acl, Other)
            && (HasTag(acl, User) || HasTag(acl, Group) ==> HasTag(acl, Mask))
  {
    hide Find, NoTwoMatch, UniqueKeys;
    NoTwoIff(acl);
    TagPresent(acl, UserObj);
    TagPresent(acl, GroupObj);
    TagPresent(acl, Other);
    TagPresent(acl, Mask);
  }

  lemma TagPresent(acl: Acl, tag: Tag)
    requires tag != User && tag != Group
    ensures HasTag(acl, tag) <==> Present(acl, Key(tag, 0))
  {
    FindNone(acl, Key(tag, 0));
  }

  /** Which keys a specification leaves in the list. */
  lemma PresentAfter(acl: Acl, entries: seq<Entry>, remove: bool, recalc: bool, k: Key)
    requires UniqueKeys(acl)
    ensures var acl' := Steps(acl, entries, remove, recalc);
      Present(acl', k) <==>
      if recalc && k == MASK && entries != [] then true
      else if remove then Present(acl, k) && !HasKey(entries, k)
      else Present(acl, k) || HasKey(entries, k)
  {
    hide Find, UniqueKeys, Step, HasKey;
    StepsMean(acl, entries, remove, recalc, k);
    LastForIff(entries, k);
  }

  lemma PrefixKeys(entries: seq<Entry>, n: nat, k: Key)
    requires n <= |entries|
    ensures HasKey(entries[..n], k) <==> exists i :: 0 <= i < n && KeyOf(entries[i]) == k
  {
    assert forall i :: 0 <= i < n ==> entries[..n][i] == entries[i];
  }

  /** A mask entry comes before the `n`-th entry. */
  predicate MaskBefore(entries: seq<Entry>, n: nat)
    requires n <= |entries|
  {
    HasKey(entries[..n], MASK)
  }

  /** The mask is recalculated, or exists, or comes before every named user and group. */
  predicate MaskInTime(acl: Acl, entries: seq<Entry>, recalc: bool) {
    || recalc || Present(acl, MASK)
    || (forall n :: 0 <= n < |entries| && Named(entries[n].tag) ==> MaskBefore(entries, n))
  }

  /** Starting from a valid list, -m leaves it valid throughout exactly when the mask is recalculated,
      or exists, or comes before every named user and group of the specification. */
  lemma ModifySucceedsIff(acl: Acl, entries: seq<Entry>, recalc: bool)
    requires Valid(acl)
    ensures Succeeds(acl, entries, false, recalc) <==> MaskInTime(acl, entries, recalc)
  {
    hide Valid, Find, Present, Steps, HasKey, UniqueKeys;
    ValidIff(acl);
    if MaskInTime(acl, entries, recalc) {
      forall k | 1 <= k <= |entries|
        ensures Valid(Steps(acl, entries[..k], false, recalc))
      {
        ModifyStaysValid(acl, entries, recalc, k);
      }
    } else {
      var n :| 0 <= n < |entries| && Named(entries[n].tag) && !MaskBefore(entries, n);
      ModifyNeedsMask(acl, entries, n);
      assert !Valid(Steps(acl, entries[..n + 1], false, recalc));
    }
  }

  lemma ModifyStaysValid(acl: Acl, entries: seq<Entry>, recalc: bool, k: nat)
    requires Valid(acl) && 1 <= k <= |entries|
    requires MaskInTime(acl, entries, recalc)
    ensures Valid(Steps(acl, entries[..k], false, recalc))
  {
    hide Valid, Find, PermsOf, Steps, HasKey, UniqueKeys;
    var acl' := Steps(acl, entries[..k], false, recalc);
    ValidIff(acl);
    ValidIff(acl');
    forall q
      ensures Present(acl', q) <==> (recalc && q == MASK) || Present(acl, q) || HasKey(entries[..k], q)
    {
      PresentAfter(acl, entries[..k], false, recalc, q);
    }
    StepsMean(acl, entries[..k], false, recalc, MASK);
    if SomeNamed(acl') && !recalc && !Present(acl, MASK) {
      var q: Key :| Named(q.tag) && Present(acl', q);
      PrefixKeys(entries, k, q);
      var i :| 0 <= i < k && KeyOf(entries[i]) == q;
      assert MaskBefore(entries, i);
      PrefixKeys(entries, i, MASK);
      PrefixKeys(entries, k, MASK);
    }
  }

  lemma ModifyNeedsMask(acl: Acl, entries: seq<Entry>, n: nat)
    requires Valid(acl) && n < |entries| && Named(entries[n].tag) && !MaskBefore(entries, n) && !Present(acl, MASK)
    ensures !Valid(Steps(acl, entries[..n + 1], false, false))
  {
    hide Valid, Find, PermsOf, Steps, HasKey, UniqueKeys;
    var acl' := Steps(acl, entries[..n + 1], false, false);
    var q := KeyOf(entries[n]);
    ValidIff(acl);
    ValidIff(acl');
    PresentAfter(acl, entries[..n + 1], false, false, q);
    PresentAfter(acl, entries[..n + 1], false, false, MASK);
    PrefixKeys(entries, n + 1, q);
    PrefixKeys(entries, n + 1, MASK);
    PrefixKeys(entries, n, MASK);
    assert Named(q.tag) && Present(acl', q);
  }

  predicate BaseTag(tag: Tag) {
    tag == UserObj || tag == GroupObj || tag == Other
  }

  /** A named user or group of the list is not among the first `n` entries. */
  ghost predicate NamedLeft(acl: Acl, entries: seq<Entry>, n: nat)
    requires n <= |entries|
  {
    exists k: Key :: Named(k.tag) && Present(acl, k) && !HasKey(entries[..n], k)
  }

  /** Starting from a valid list, -x leaves it valid throughout exactly when it names no base entry and,
      unless the mask is recalculated, removes an existing mask only after all named users and groups. */
  lemma RemoveSucceedsIff(acl: Acl, entries: seq<Entry>, recalc: bool)
    requires Valid(acl)
    ensures Succeeds(acl, entries, true, recalc) <==>
            forall n :: 0 <= n < |entries| ==> !RemovalFails(acl, entries, n, recalc)
  {
    hide Valid, Find, Steps, HasKey, UniqueKeys, RemovalFails;
    if n :| 0 <= n < |entries| && RemovalFails(acl, entries, n, recalc) {
      RemovalBreaks(acl, entries, n, recalc);
    } else {
      forall k | 1 <= k <= |entries|
        ensures Valid(Steps(acl, entries[..k], true, recalc))
      {
        RemoveStaysValid(acl, entries, recalc, k);
      }
    }
  }

  /** Removing entry `n` of the specification takes a base entry, or the mask from under named entries. */
  ghost predicate RemovalFails(acl: Acl, entries: seq<Entry>, n: nat, recalc: bool)
    requires n < |entries|
  {
    || BaseTag(entries[n].tag)
    || (!recalc && entries[n].tag == Mask && NamedLeft(acl, entries, n))
  }

  lemma RemovalBreaks(acl: Acl, entries: seq<Entry>, n: nat, recalc: bool)
    requires Valid(acl) && n < |entries| && RemovalFails(acl, entries, n, recalc)
    ensures !Valid(Steps(acl, entries[..n + 1], true, recalc))
  {
    hide Valid, Find, PermsOf, Steps, HasKey, UniqueKeys;
    var acl' := Steps(acl, entries[..n + 1], true, recalc);
    var q := KeyOf(entries[n]);
    ValidIff(acl);
    ValidIff(acl');
    PresentAfter(acl, entries[..n + 1], true, recalc, q);
    PrefixKeys(entries, n + 1, q);
    if !BaseTag(entries[n].tag) {
      var k: Key :| Named(k.tag) && Present(acl, k) && !HasKey(entries[..n], k);
      PresentAfter(acl, entries[..n + 1], true, recalc, k);
      PrefixKeys(entries, n, k);
      PrefixKeys(entries, n + 1, k);
      assert Present(acl', k);
    }
  }

  lemma RemoveStaysValid(acl: Acl, entries: seq<Entry>, recalc: bool, k: nat)
    requires Valid(acl) && 1 <= k <= |entries|
    requires forall n :: 0 <= n < |entries| ==> !RemovalFails(acl, entries, n, recalc)
    ensures Valid(Steps(acl, entries[..k], true, recalc))
  {
    hide Valid, Find, PermsOf, Steps, HasKey, UniqueKeys;
    var acl' := Steps(acl, entries[..k], true, recalc);
    ValidIff(acl);
    ValidIff(acl');
    StepsMean(acl, entries[..k], true, recalc, MASK);
    forall q
      ensures Present(acl', q) <==> (recalc && q == MASK) || (Present(acl, q) && !HasKey(entries[..k], q))
    {
      PresentAfter(acl, entries[..k], true, recalc, q);
    }
    forall q: Key | BaseTag(q.tag)
      ensures !HasKey(entries[..k], q)
    {
      PrefixKeys(entries, k, q);
      forall i | 0 <= i < k
        ensures KeyOf(entries[i]) != q
      {
        assert !RemovalFails(acl, entries, i, recalc);
      }
    }
    if SomeNamed(acl') && !recalc && HasKey(entries[..k], MASK) {
      var q: Key :| Named(q.tag) && Present(acl', q);
      PrefixKeys(entries, k, MASK);
      var i :| 0 <= i < k && KeyOf(entries[i]) == MASK;
      PrefixKeys(entries, i, q);
      PrefixKeys(entries, k, q);
      UncoversNamed(acl, entries, i, q);
    }
  }

  lemma UncoversNamed(acl: Acl, entries: seq<Entry>, n: nat, q: Key)
    requires n < |entries| && entries[n].tag == Mask && Named(q.tag) && Present(acl, q) && !HasKey(entries[..n], q)
    ensures RemovalFails(acl, entries, n, false)
  {
    assert NamedLeft(acl, entries, n);
  }

  /** A directory without a default list: as the list is checked after every entry, and one entry cannot
      make it valid, no specification creates one. */
  lemma EmptyStaysEmpty(entries: seq<Entry>, remove: bool, recalc: bool)
    requires entries != []
    ensures !Valid(Steps([], entries[..1], remove, recalc)) && !Succeeds([], entries, remove, recalc)
  {
    hide Valid, Steps;
    var acl' := Steps([], entries[..1], remove, recalc);
    ValidIff(acl');
    PresentAfter([], entries[..1], remove, recalc, Key(UserObj, 0));
    PresentAfter([], entries[..1], remove, recalc, Key(GroupObj, 0));
    PrefixKeys(entries, 1, Key(UserObj, 0));
    PrefixKeys(entries, 1, Key(GroupObj, 0));
  }
}
