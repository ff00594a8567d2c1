/** The parser of acl_update.c, which cuts the text of an access control list in place. */
module AclParse {

  import opened Common

  datatype Tag = UserObj | User | GroupObj | Group | Mask | Other

  /** Only these have a qualifier. */
  predicate Named(tag: Tag) {
    tag == User || tag == Group
  }

  datatype Perms = Perms(read: bool, write: bool, execute: bool)

  datatype Entry = Entry(tag: Tag, qual: int, perms: Perms)

  /** userIdFromName() and groupIdFromName(): -1 stands for an unknown name. */
  datatype Names = Names(user: string -> int, group: string -> int)

  /** The size of the array of entries. */
  const MAX_ENTRIES := 10000

  // ---- what the texts mean ----

  function IndexOf(s: string, c: char): (i: nat)
    ensures i <= |s| && c !in s[..i] && (i < |s| ==> s[i] == c)
  {
    if s == "" || s[0] == c then 0 else 1 + IndexOf(s[1..], c)
  }

  function Before(s: string, c: char): string {
    s[..IndexOf(s, c)]
  }

  function Behind(s: string, c: char): string {
    if c in s then s[IndexOf(s, c) + 1..] else ""
  }

  function PermsOfText(s: string): Option<Perms> {
    if exists i :: 0 <= i < |s| && s[i] !in "rwx-" then None else Some(Perms('r' in s, 'w' in s, 'x' in s))
  }

  function TagOf(s: string, qualified: bool): Option<Tag> {
    if s == "u" || s == "user" then Some(if qualified then User else UserObj)
    else if s == "g" || s == "group" then Some(if qualified then Group else GroupObj)
    else if s == "o" || s == "other" then Some(Other)
    else if s == "m" || s == "mask" then Some(Mask)
    else None
  }

  function QualOf(tag: Tag, s: string, names: Names): int {
    match tag
    case User => names.user(s)
    case Group => names.group(s)
    case _ => 0
  }

  /** tag:[qualifier][:[perms]], with permissions exactly when they are required. */
  function ParsedEntry(s: string, permsReqd: bool, names: Names): Option<(Tag, int, Option<Perms>)> {
    var qual, perms := Before(Behind(s, ':'), ':'), Behind(Behind(s, ':'), ':');
    var tag := TagOf(Before(s, ':'), qual != "");
    if ':' !in s || permsReqd != (perms != "") || tag.None? then None
    else if QualOf(tag.value, qual, names) == -1 then None
    else if permsReqd && PermsOfText(perms).None? then None
    else Some((tag.value, QualOf(tag.value, qual, names), if permsReqd then PermsOfText(perms) else None))
  }

  /** The pieces between commas: one more than there are commas. */
  function Pieces(s: string): (p: seq<string>)
    ensures p != []
    decreases |s|
  {
    if ',' in s then [Before(s, ',')] + Pieces(Behind(s, ',')) else [s]
  }

  // ---- strings in a buffer ----

  /** At `at` in the buffer there is the null-terminated string `s`. */
  predicate Holds(b: seq<char>, at: nat, s: string) {
    at + |s| < |b| && b[at..at + |s|] == s && '\0' !in s && b[at + |s|] == '\0'
  }

  /** A null character that takes the place of `c` cuts the string in two. */
  lemma CutInTwo(b: seq<char>, at: nat, s: string, c: char)
    requires Holds(b, at, s) && c in s
    ensures var i := IndexOf(s, c);
      Holds(b[at + i := '\0'], at, Before(s, c)) && Holds(b[at + i := '\0'], at + i + 1, Behind(s, c))
  {
    hide IndexOf;
    var i := IndexOf(s, c);
    var b' := b[at + i := '\0'];
    assert b'[at..at + i] == b[at..at + |s|][..i];
    assert b'[at + i + 1..at + |s|] == b[at..at + |s|][i + 1..];
  }

  lemma CharacterAt(b: seq<char>, at: nat, s: string, i: nat)
    requires Holds(b, at, s) && i <= |s|
    ensures at + i < |b|
    ensures b[at + i] == (if i < |s| then s[i] else '\0') && (b[at + i] == '\0' <==> i == |s|)
  {
    assert i < |s| ==> b[at..at + |s|][i] == s[i];
  }

  lemma FirstIndex(s: string, c: char, i: nat)
    requires i < |s| && s[i] == c && c !in s[..i]
    ensures IndexOf(s, c) == i
  {
    if i > 0 {
      assert c !in s[1..][..i - 1] by {
        assert forall k :: 0 <= k < i - 1 ==> s[1..][k] == s[..i][k + 1];
      }
      assert s[0] == s[..i][0];
      FirstIndex(s[1..], c, i - 1);
    }
  }

  /** strchr(). */
  method StrChr(buf: array<char>, at: nat, c: char, ghost s: string) returns (p: Option<nat>)
    requires Holds(buf[..], at, s) && c != '\0'
    ensures p == if c in s then Some(at + IndexOf(s, c)) else None
  {
    var i := 0;
    CharacterAt(buf[..], at, s, 0);
    while buf[at + i] != '\0'
      invariant 0 <= i <= |s| && c !in s[..i]
      invariant buf[at + i] == (if i < |s| then s[i] else '\0') && (buf[at + i] == '\0' <==> i == |s|)
      decreases |s| - i
    {
      if buf[at + i] == c {
        FirstIndex(s, c, i);
        return Some(at + i);
      }
      i := i + 1;
      CharacterAt(buf[..], at, s, i);
    }
    assert s[..|s|] == s;
    return None;
  }

  /** The characters up to the null character. */
  method Text(buf: array<char>, at: nat, ghost s: string) returns (t: string)
    requires Holds(buf[..], at, s)
    ensures t == s
  {
    var i := 0;
    t := "";
    CharacterAt(buf[..], at, s, 0);
    while buf[at + i] != '\0'
      invariant 0 <= i <= |s| && t == s[..i]
      invariant buf[at + i] == (if i < |s| then s[i] else '\0') && (buf[at + i] == '\0' <==> i == |s|)
      decreases |s| - i
    {
      t := t + [buf[at + i]];
      i := i + 1;
      CharacterAt(buf[..], at, s, i);
    }
    assert s[..|s|] == s;
  }

  /** A null character for the first `c` of the string. */
  method Cut(buf: array<char>, at: nat, c: char, p: nat, ghost s: string)
    requires Holds(buf[..], at, s) && c in s && p == at + IndexOf(s, c)
    modifies buf
    ensures Holds(buf[..], at, Before(s, c)) && Holds(buf[..], p + 1, Behind(s, c))
    ensures forall k :: 0 <= k < buf.Length && k != p ==> buf[k] == old(buf[k])
  {
    hide IndexOf, Before, Behind;
    CutInTwo(buf[..], at, s, c);
    ghost var b := buf[..];
    buf[p] := '\0';
    assert buf[..] == b[p := '\0'];
  }

  // ---- the parser ----

  /** The loop over the permissions. */
  method ParsePerms(buf: array<char>, at: nat, ghost s: string) returns (perms: Option<Perms>)
    requires Holds(buf[..], at, s)
    ensures perms == PermsOfText(s)
  {
    var p := Perms(false, false, false);
    var i := 0;
    CharacterAt(buf[..], at, s, 0);
    while buf[at + i] != '\0'
      invariant 0 <= i <= |s|
      invariant p == Perms('r' in s[..i], 'w' in s[..i], 'x' in s[..i])
      invariant forall k :: 0 <= k < i ==> s[k] in "rwx-"
      invariant buf[at + i] == (if i < |s| then s[i] else '\0') && (buf[at + i] == '\0' <==> i == |s|)
      decreases |s| - i
    {
      assert s[..i + 1] == s[..i] + [s[i]];
      var c := buf[at + i];
      if c == 'r' {
        p := p.(read := true);
      } else if c == 'w' {
        p := p.(write := true);
      } else if c == 'x' {
        p := p.(execute := true);
      } else if c != '-' {
        return None;
      }
      i := i + 1;
      CharacterAt(buf[..], at, s, i);
    }
    assert s[..|s|] == s;
    return Some(p);
  }

  /** Whether the character at the place is an end or a colon says whether a qualifier is there. */
  lemma HasQual(b: seq<char>, at: nat, rest: string)
    requires Holds(b, at, rest)
    ensures at < |b|
    ensures b[at] != '\0' && b[at] != ':' <==> Before(rest, ':') != ""
  {
    CharacterAt(b, at, rest, 0);
  }

  lemma HasPerms(b: seq<char>, at: nat, rest: string)
    requires Holds(b, at, rest)
    ensures ':' !in rest ==> Behind(rest, ':') == "" && Before(rest, ':') == rest
    ensures ':' in rest ==> at + IndexOf(rest, ':') + 1 < |b|
    ensures ':' in rest ==> (b[at + IndexOf(rest, ':') + 1] != '\0' <==> Behind(rest, ':') != "")
  {
    hide Holds, IndexOf;
    CharacterAt(b, at, rest, |rest|);
    if ':' in rest {
      CharacterAt(b, at, rest, IndexOf(rest, ':') + 1);
    }
  }

  /** Cuts off the tag, and finds out what follows it. */
  method CutTag(buf: array<char>, at: nat, colon1: nat, ghost s: string)
      returns (hasQual: bool, colon2: Option<nat>, hasPerms: bool)
    requires Holds(buf[..], at, s) && ':' in s && colon1 == at + IndexOf(s, ':')
    modifies buf
    ensures Holds(buf[..], at, Before(s, ':')) && Holds(buf[..], colon1 + 1, Behind(s, ':'))
    ensures var rest := Behind(s, ':');
      && (hasQual <==> Before(rest, ':') != "") && (hasPerms <==> Behind(rest, ':') != "")
      && colon2 == (if ':' in rest then Some(colon1 + 1 + IndexOf(rest, ':')) else None)
      && (colon2.None? ==> Before(rest, ':') == rest)
      && colon1 + 1 + |rest| == at + |s|
    ensures forall k :: 0 <= k < buf.Length && k != colon1 ==> buf[k] == old(buf[k])
  {
    hide Holds, IndexOf, Before, Behind;
    ghost var rest := Behind(s, ':');
    BehindLength(s, ':');
    Cut(buf, at, ':', colon1, s);
    HasQual(buf[..], colon1 + 1, rest);
    hasQual := buf[colon1 + 1] != '\0' && buf[colon1 + 1] != ':';
    colon2 := StrChr(buf, colon1 + 1, ':', rest);
    HasPerms(buf[..], colon1 + 1, rest);
    hasPerms := colon2.Some? && buf[colon2.value + 1] != '\0';
  }

  /** The qualifier, for the tags that have one. */
  method SetQual(buf: array<char>, second: nat, ghost qualText: string, aclist: array<Entry>, n: nat, names: Names)
      returns (ok: bool)
    requires Holds(buf[..], second, qualText) && n < aclist.Length
    modifies aclist
    ensures aclist[n] == old(aclist[n]).(qual := QualOf(old(aclist[n].tag), qualText, names))
    ensures ok == (aclist[n].qual != -1)
    ensures forall k :: 0 <= k < aclist.Length && k != n ==> aclist[k] == old(aclist[k])
  {
    aclist[n] := aclist[n].(qual := 0);
    if aclist[n].tag == User {
      var name := Text(buf, second, qualText);
      aclist[n] := aclist[n].(qual := names.user(name));
    } else if aclist[n].tag == Group {
      var name := Text(buf, second, qualText);
      aclist[n] := aclist[n].(qual := names.group(name));
    }
    return aclist[n].qual != -1;
  }

  /** The permissions, if there are any. */
  method SetPerms(buf: array<char>, third: nat, ghost permsText: string, aclist: array<Entry>, n: nat)
      returns (ok: bool)
    requires Holds(buf[..], third, permsText) && n < aclist.Length
    modifies aclist
    ensures ok == PermsOfText(permsText).Some?
    ensures ok ==> aclist[n] == old(aclist[n]).(perms := PermsOfText(permsText).value)
    ensures forall k :: 0 <= k < aclist.Length && k != n ==> aclist[k] == old(aclist[k])
  {
    var perms := ParsePerms(buf, third, permsText);
    if perms.None? {
      return false;
    }
    aclist[n] := aclist[n].(perms := perms.value);
    return true;
  }

  /** What the parser does after it has cut off the tag. */
  method FillEntry(buf: array<char>, at: nat, second: nat, colon2: Option<nat>, hasQual: bool, hasPerms: bool,
                   ghost tagText: string, ghost rest: string, aclist: array<Entry>, n: nat, names: Names)
      returns (ok: bool)
    requires Holds(buf[..], at, tagText) && Holds(buf[..], second, rest) && at + |tagText| < second
    requires n < aclist.Length && (hasQual <==> Before(rest, ':') != "") && (hasPerms <==> Behind(rest, ':') != "")
    requires colon2 == (if ':' in rest then Some(second + IndexOf(rest, ':')) else None)
    requires colon2.None? ==> Before(rest, ':') == rest
    modifies buf, aclist
    ensures var tag, perms := TagOf(tagText, hasQual), PermsOfText(Behind(rest, ':'));
      && ok == (tag.Some? && QualOf(tag.value, Before(rest, ':'), names) != -1 && (hasPerms ==> perms.Some?))
      && (ok ==> aclist[n] == Entry(tag.value, QualOf(tag.value, Before(rest, ':'), names),
                                    if hasPerms then perms.value else old(aclist[n].perms)))
    ensures forall k :: 0 <= k < aclist.Length && k != n ==> aclist[k] == old(aclist[k])
    ensures forall k :: 0 <= k < buf.Length && !(second <= k < second + |rest|) ==> buf[k] == old(buf[k])
  {
    hide TagOf, QualOf, PermsOfText, Holds, Before, Behind;
    var t := Text(buf, at, tagText);
    var tag := TagOf(t, hasQual);
    if tag.None? {
      return false;
    }
    aclist[n] := aclist[n].(tag := tag.value);
    if colon2.Some? {
      Cut(buf, second, ':', colon2.value, rest);
    }
    ok := SetQual(buf, second, Before(rest, ':'), aclist, n, names);
    if ok && hasPerms {
      NoColonNoPerms(rest);
      ok := SetPerms(buf, colon2.value + 1, Behind(rest, ':'), aclist, n);
    }
  }

  lemma BehindLength(s: string, c: char)
    requires c in s
    ensures |Behind(s, c)| == |s| - IndexOf(s, c) - 1
  {
  }

  lemma NoColonNoPerms(rest: string)
    ensures Behind(rest, ':') != "" ==> ':' in rest
  {
  }

  /** parseEntrySpec(): fills entry `n`, and leaves its permissions alone if none are required. Only the
      string itself is cut. */
  method ParseEntrySpec(buf: array<char>, at: nat, ghost s: string, aclist: array<Entry>, n: nat, permsReqd: bool,
                        names: Names) returns (ok: bool)
    requires Holds(buf[..], at, s) && n < aclist.Length
    modifies buf, aclist
    ensures ok == ParsedEntry(s, permsReqd, names).Some?
    ensures ok ==> var p := ParsedEntry(s, permsReqd, names).value;
              aclist[n] == Entry(p.0, p.1, if permsReqd then p.2.value else old(aclist[n].perms))
    ensures ok ==> Denotes(s, permsReqd, names,
                           (aclist[n].tag, aclist[n].qual, if permsReqd then Some(aclist[n].perms) else None))
    ensures !ok ==> forall e :: !Denotes(s, permsReqd, names, e)
    ensures forall k :: 0 <= k < aclist.Length && k != n ==> aclist[k] == old(aclist[k])
    ensures forall k :: 0 <= k < buf.Length && !(at <= k < at + |s|) ==> buf[k] == old(buf[k])
  {
    hide TagOf, QualOf, PermsOfText, Holds, Behind, Denotes;
    forall e
      ensures ParsedEntry(s, permsReqd, names) == Some(e) <==> Denotes(s, permsReqd, names, e)
    {
      GrammarExact(s, permsReqd, names, e);
    }
    var colon1 := StrChr(buf, at, ':', s);
    if colon1.None? {
      return false;
    }
    var hasQual, colon2, hasPerms := CutTag(buf, at, colon1.value, s);
    if hasPerms != permsReqd {
      return false;
    }
    ok := FillEntry(buf, at, colon1.value + 1, colon2, hasQual, hasPerms, Before(s, ':'), Behind(s, ':'),
      aclist, n, names);
  }

  lemma HoldsStill(b: seq<char>, b': seq<char>, at: nat, s: string)
    requires Holds(b, at, s) && |b'| == |b| && forall k :: at <= k < |b| ==> b'[k] == b[k]
    ensures Holds(b', at, s)
  {
    assert b'[at..at + |s|] == b[at..at + |s|];
  }

  /** An entry of the array after its piece was parsed; `was` is what the entry was before. */
  predicate Filled(e: Entry, was: Entry, piece: string, permsReqd: bool, names: Names) {
    && ParsedEntry(piece, permsReqd, names).Some?
    && var p := ParsedEntry(piece, permsReqd, names).value;
       e == Entry(p.0, p.1, if permsReqd then p.2.value else was.perms)
  }

  predicate AllParse(pieces: seq<string>, permsReqd: bool, names: Names) {
    forall i :: 0 <= i < |pieces| ==> ParsedEntry(pieces[i], permsReqd, names).Some?
  }

  /** One entry: cut off at the comma if there is one. */
  method ParsePiece(buf: array<char>, at: nat, ghost rest: string, aclist: array<Entry>, n: nat, permsReqd: bool,
                    names: Names) returns (ok: bool, comma: Option<nat>)
    requires Holds(buf[..], at, rest) && n < aclist.Length
    modifies buf, aclist
    ensures ok == ParsedEntry(Pieces(rest)[0], permsReqd, names).Some?
    ensures ok ==> Filled(aclist[n], old(aclist[n]), Pieces(rest)[0], permsReqd, names)
    ensures comma == if ',' in rest then Some(at + IndexOf(rest, ',')) else None
    ensures comma.Some? ==> Holds(buf[..], comma.value + 1, Behind(rest, ','))
    ensures forall k :: 0 <= k < aclist.Length && k != n ==> aclist[k] == old(aclist[k])
  {
    hide ParsedEntry, Holds, Behind;
    comma := StrChr(buf, at, ',', rest);
    if comma.Some? {
      Cut(buf, at, ',', comma.value, rest);
      ghost var b := buf[..];
      ok := ParseEntrySpec(buf, at, Before(rest, ','), aclist, n, permsReqd, names);
      HoldsStill(b, buf[..], comma.value + 1, Behind(rest, ','));
    } else {
      ok := ParseEntrySpec(buf, at, rest, aclist, n, permsReqd, names);
    }
  }

  lemma PiecesStep(s: string)
    ensures ',' in s ==> Pieces(s) == [Pieces(s)[0]] + Pieces(Behind(s, ','))
    ensures ',' !in s ==> Pieces(s) == [s]
  {
  }

  /** parseACL(): the number of entries, or -1 if one of them is bad or there are too many. */
  method ParseAcl(buf: array<char>, ghost s: string, aclist: array<Entry>, permsReqd: bool, names: Names)
      returns (count: int)
    requires Holds(buf[..], 0, s) && aclist.Length == MAX_ENTRIES
    modifies buf, aclist
    ensures var p := Pieces(s);
      count == if AllParse(p, permsReqd, names) && |p| <= MAX_ENTRIES then |p| else -1
    ensures count != -1 ==>
              forall k :: 0 <= k < count ==> Filled(aclist[k], old(aclist[k]), Pieces(s)[k], permsReqd, names)
  {
    hide ParsedEntry, Holds, Behind, Before, IndexOf, Filled, Pieces;
    var n, at := 0, 0;
    ghost var all, rest := Pieces(s), s;
    while true
      invariant n <= MAX_ENTRIES && n < |all| && all[n..] == Pieces(rest) && Holds(buf[..], at, rest)
      invariant forall k :: 0 <= k < n ==> Filled(aclist[k], old(aclist[k]), all[k], permsReqd, names)
      invariant forall k :: n <= k < aclist.Length ==> aclist[k] == old(aclist[k])
      decreases |rest|
    {
      if n >= MAX_ENTRIES {
        return -1;
      }
      PiecesStep(rest);
      assert all[n] == Pieces(rest)[0];
      var ok, comma := ParsePiece(buf, at, rest, aclist, n, permsReqd, names);
      if !ok {
        return -1;
      }
      n := n + 1;
      if comma.None? {
        FilledParse(aclist[..n], old(aclist[..]), all, permsReqd, names);
        return n;
      }
      BehindLength(rest, ',');
      assert all[n..] == Pieces(rest)[1..];
      at, rest := comma.value + 1, Behind(rest, ',');
    }
  }

  lemma FilledParse(entries: seq<Entry>, was: seq<Entry>, pieces: seq<string>, permsReqd: bool, names: Names)
    requires |entries| == |pieces| <= |was|
    requires forall k :: 0 <= k < |entries| ==> Filled(entries[k], was[k], pieces[k], permsReqd, names)
    ensures AllParse(pieces, permsReqd, names)
  {
    hide ParsedEntry;
    forall k | 0 <= k < |pieces|
      ensures ParsedEntry(pieces[k], permsReqd, names).Some?
    {
      assert Filled(entries[k], was[k], pieces[k], permsReqd, names);
    }
  }

  // ---- writing an entry and reading it back ----

  function TagText(tag: Tag, long: bool): string {
    match tag
    case UserObj => if long then "user" else "u"
    case User => if long then "user" else "u"
    case GroupObj => if long then "group" else "g"
    case Group => if long then "group" else "g"
    case Mask => if long then "mask" else "m"
    case Other => if long then "other" else "o"
  }

  function PermsText(p: Perms): string {
    (if p.read then "r" else "-") + (if p.write then "w" else "-") + (if p.execute then "x" else "-")
  }

  function EntryText(tag: Tag, long: bool, qual: string, perms: Perms): string {
    TagText(tag, long) + ":" + qual + ":" + PermsText(perms)
  }

  /** A qualifier that suits the tag: a known name where one is needed, and none for the owner. */
  predicate Suits(tag: Tag, qual: string, names: Names) {
    && ':' !in qual
    && match tag
       case User => qual != "" && names.user(qual) != -1
       case Group => qual != "" && names.group(qual) != -1
       case UserObj => qual == ""
       case GroupObj => qual == ""
       case _ => true
  }

  lemma SplitAt(a: string, c: char, b: string)
    requires c !in a
    ensures c in a + [c] + b && Before(a + [c] + b, c) == a && Behind(a + [c] + b, c) == b
  {
    var s := a + [c] + b;
    assert s[|a|] == c && s[..|a|] == a;
    FirstIndex(s, c, |a|);
  }

  lemma PermsRoundTrip(p: Perms)
    ensures PermsText(p) != "" && PermsOfText(PermsText(p)) == Some(p)
  {
    var t := PermsText(p);
    assert t == [if p.read then 'r' else '-', if p.write then 'w' else '-', if p.execute then 'x' else '-'];
  }

  lemma TagRoundTrip(tag: Tag, long: bool, qualified: bool)
    requires Named(tag) ==> qualified
    requires tag == UserObj || tag == GroupObj ==> !qualified
    ensures TagOf(TagText(tag, long), qualified) == Some(tag) && ':' !in TagText(tag, long)
  {
  }

  /** An entry that is written out is read back. */
  lemma EntryRoundTrip(tag: Tag, long: bool, qual: string, perms: Perms, names: Names)
    requires Suits(tag, qual, names)
    ensures var id := match tag { case User => names.user(qual) case Group => names.group(qual) case _ => 0 };
      ParsedEntry(EntryText(tag, long, qual, perms), true, names) == Some((tag, id, Some(perms)))
  {
    hide IndexOf, Before, Behind, TagOf, TagText, PermsText, PermsOfText;
    var tail := qual + ":" + PermsText(perms);
    assert EntryText(tag, long, qual, perms) == TagText(tag, long) + [':'] + tail;
    TagRoundTrip(tag, long, qual != "");
    PermsRoundTrip(perms);
    SplitAt(TagText(tag, long), ':', tail);
    SplitAt(qual, ':', PermsText(perms));
  }

  /** So is one without permissions, with or without the colon before them. */
  lemma BareRoundTrip(tag: Tag, long: bool, qual: string, colon: bool, names: Names)
    requires Suits(tag, qual, names)
    ensures var id := match tag { case User => names.user(qual) case Group => names.group(qual) case _ => 0 };
      ParsedEntry(TagText(tag, long) + ":" + qual + if colon then ":" else "", false, names) == Some((tag, id, None))
  {
    hide IndexOf, TagOf, TagText, Before, Behind;
    var tail := qual + if colon then ":" else "";
    assert TagText(tag, long) + ":" + qual + (if colon then ":" else "") == TagText(tag, long) + [':'] + tail;
    TagRoundTrip(tag, long, qual != "");
    SplitAt(TagText(tag, long), ':', tail);
    if colon {
      assert tail == qual + [':'] + "";
      SplitAt(qual, ':', "");
    } else {
      assert tail == qual;
      NoSplit(qual, ':');
    }
  }

  // ---- exactly which texts are entries ----

  /** A tag, a qualifier and permissions; the second colon may be missing if there are no permissions. */
  predicate Parts(s: string, t: string, q: string, p: string) {
    ':' !in t && ':' !in q && (s == t + ":" + q + ":" + p || (p == "" && s == t + ":" + q))
  }

  predicate NamesTag(t: string, q: string, tag: Tag) {
    match tag
    case UserObj => (t == "u" || t == "user") && q == ""
    case User => (t == "u" || t == "user") && q != ""
    case GroupObj => (t == "g" || t == "group") && q == ""
    case Group => (t == "g" || t == "group") && q != ""
    case Mask => t == "m" || t == "mask"
    case Other => t == "o" || t == "other"
  }

  predicate NamesQual(tag: Tag, q: string, id: int, names: Names) {
    match tag
    case User => id == names.user(q) && id != -1
    case Group => id == names.group(q) && id != -1
    case _ => id == 0
  }

  /** Any letters in any order, and as often as one likes. */
  predicate NamesPerms(p: string, perms: Perms) {
    && (forall i :: 0 <= i < |p| ==> p[i] == 'r' || p[i] == 'w' || p[i] == 'x' || p[i] == '-')
    && (perms.read <==> 'r' in p) && (perms.write <==> 'w' in p) && (perms.execute <==> 'x' in p)
  }

  ghost predicate Denotes(s: string, permsReqd: bool, names: Names, e: (Tag, int, Option<Perms>)) {
    exists t, q, p ::
      && Parts(s, t, q, p) && NamesTag(t, q, e.0) && NamesQual(e.0, q, e.1, names)
      && (permsReqd <==> p != "")
      && (if permsReqd then e.2.Some? && NamesPerms(p, e.2.value) else e.2.None?)
  }

  lemma NoSplit(s: string, c: char)
    requires c !in s
    ensures Before(s, c) == s && Behind(s, c) == ""
  {
    assert IndexOf(s, c) == |s|;
  }

  lemma Rejoined(s: string, c: char)
    requires c in s
    ensures s == Before(s, c) + [c] + Behind(s, c) && c !in Before(s, c)
  {
    assert IndexOf(s, c) < |s|;
  }

  /** The parts are what the parser finds by cutting at the first colons. */
  lemma PartsCut(s: string, t: string, q: string, p: string)
    requires Parts(s, t, q, p)
    ensures ':' in s && Before(s, ':') == t && Before(Behind(s, ':'), ':') == q && Behind(Behind(s, ':'), ':') == p
  {
    hide Before, Behind;
    var tail := if s == t + ":" + q + ":" + p then q + ":" + p else q;
    assert s == t + [':'] + tail;
    SplitAt(t, ':', tail);
    if s == t + ":" + q + ":" + p {
      assert tail == q + [':'] + p;
      SplitAt(q, ':', p);
    } else {
      NoSplit(q, ':');
    }
  }

  lemma CutParts(s: string)
    requires ':' in s
    ensures Parts(s, Before(s, ':'), Before(Behind(s, ':'), ':'), Behind(Behind(s, ':'), ':'))
  {
    hide Before, Behind;
    var t, rest := Before(s, ':'), Behind(s, ':');
    Rejoined(s, ':');
    if ':' in rest {
      Rejoined(rest, ':');
      assert s == t + ":" + Before(rest, ':') + ":" + Behind(rest, ':');
    } else {
      NoSplit(rest, ':');
      assert s == t + ":" + rest;
    }
  }

  lemma PermsExact(p: string, perms: Perms)
    ensures PermsOfText(p) == Some(perms) <==> NamesPerms(p, perms)
  {
  }

  /** A text is read as an entry if and only if it has the form of one, and as the entry that it names. */
  lemma GrammarExact(s: string, permsReqd: bool, names: Names, e: (Tag, int, Option<Perms>))
    ensures ParsedEntry(s, permsReqd, names) == Some(e) <==> Denotes(s, permsReqd, names, e)
  {
    hide Before, Behind, PermsOfText, NamesPerms, Parts;
    if ParsedEntry(s, permsReqd, names) == Some(e) {
      CutParts(s);
      if permsReqd {
        PermsExact(Behind(Behind(s, ':'), ':'), e.2.value);
      }
    }
    if Denotes(s, permsReqd, names, e) {
      var t, q, p :| Parts(s, t, q, p) && NamesTag(t, q, e.0) && NamesQual(e.0, q, e.1, names)
                     && (permsReqd <==> p != "")
                     && (if permsReqd then e.2.Some? && NamesPerms(p, e.2.value) else e.2.None?);
      PartsCut(s, t, q, p);
      if permsReqd {
        PermsExact(p, e.2.value);
      }
    }
  }

  function Joined(pieces: seq<string>): string
    requires pieces != []
  {
    if |pieces| == 1 then pieces[0] else pieces[0] + "," + Joined(pieces[1..])
  }

  lemma {:induction false} PiecesOfJoined(pieces: seq<string>)
    requires pieces != [] && forall i :: 0 <= i < |pieces| ==> ',' !in pieces[i]
    ensures Pieces(Joined(pieces)) == pieces
  {
    hide Before, Behind, IndexOf;
    if |pieces| > 1 {
      var tail := Joined(pieces[1..]);
      assert Joined(pieces) == pieces[0] + [','] + tail;
      SplitAt(pieces[0], ',', tail);
      PiecesOfJoined(pieces[1..]);
    }
  }

  /** Every text is its pieces joined again, and no piece has a comma in it. */
  lemma {:induction false} JoinedPieces(s: string)
    ensures Joined(Pieces(s)) == s && forall i :: 0 <= i < |Pieces(s)| ==> ',' !in Pieces(s)[i]
    decreases |s|
  {
    hide Before, Behind, IndexOf;
    if ',' in s {
      Rejoined(s, ',');
      BehindLength(s, ',');
      JoinedPieces(Behind(s, ','));
      assert Pieces(s)[1..] == Pieces(Behind(s, ','));
    }
  }
}
