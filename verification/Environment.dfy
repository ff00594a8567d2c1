/** The implementation of setenv() and unsetenv() in setenv.c. */
module Environment {

  import opened Common

  /** The entry has the form name=value for the given name. */
  predicate Defines(entry: string, name: string) {
    |entry| > |name| && entry[..|name|] == name && entry[|name|] == '='
  }

  function Definition(name: string, value: string): string {
    name + "=" + value
  }

  // ---- environment lists ----

  /** The strings before the first null pointer. */
  function Listed(cells: seq<Option<string>>): seq<string> {
    if cells == [] || cells[0].None? then [] else [cells[0].value] + Listed(cells[1..])
  }

  lemma {:induction false} ListedEnds(cells: seq<Option<string>>, n: nat)
    requires n < |cells| && cells[n].None? && forall k :: 0 <= k < n ==> cells[k].Some?
    ensures |Listed(cells)| == n && forall k :: 0 <= k < n ==> Listed(cells)[k] == cells[k].value
  {
    if n > 0 {
      ListedEnds(cells[1..], n - 1);
      forall k | 0 <= k < n
        ensures Listed(cells)[k] == cells[k].value
      {
        assert k > 0 ==> cells[1..][k - 1] == cells[k];
      }
    }
  }

  lemma {:induction false} ListedCells(cells: seq<Option<string>>)
    requires None in cells
    ensures var n := |Listed(cells)|;
      n < |cells| && cells[n].None? && forall k :: 0 <= k < n ==> cells[k] == Some(Listed(cells)[k])
  {
    if cells[0].Some? {
      assert None in cells[1..];
      ListedCells(cells[1..]);
      var n := |Listed(cells)|;
      assert cells[1..][n - 1] == cells[n];
      forall k | 0 <= k < n
        ensures cells[k] == Some(Listed(cells)[k])
      {
        assert k > 0 ==> cells[1..][k - 1] == cells[k];
      }
    }
  }

  /** The entries that do not define `name`, in their order. */
  function Without(list: seq<string>, name: string): seq<string> {
    if list == [] then []
    else (if Defines(list[0], name) then [] else [list[0]]) + Without(list[1..], name)
  }

  /** The value of the first definition of `name`: getenv(). */
  function Lookup(list: seq<string>, name: string): Option<string> {
    if list == [] then None
    else if Defines(list[0], name) then Some(list[0][|name| + 1..])
    else Lookup(list[1..], name)
  }

  /** putenv() with a definition of `name`: it takes the place of the first one, or comes last. */
  function Put(list: seq<string>, name: string, entry: string): seq<string> {
    if list == [] then [entry]
    else if Defines(list[0], name) then [entry] + list[1..]
    else [list[0]] + Put(list[1..], name, entry)
  }

  lemma {:induction false} WithoutConcat(a: seq<string>, b: seq<string>, name: string)
    ensures Without(a + b, name) == Without(a, name) + Without(b, name)
  {
    if a == [] {
      assert a + b == b;
    } else {
      assert (a + b)[1..] == a[1..] + b;
      WithoutConcat(a[1..], b, name);
    }
  }

  lemma {:induction false} WithoutNothing(list: seq<string>, name: string)
    ensures Without(list, name) == list <==> forall k :: 0 <= k < |list| ==> !Defines(list[k], name)
    ensures |Without(list, name)| <= |list|
    ensures Lookup(list, name) == None <==> forall k :: 0 <= k < |list| ==> !Defines(list[k], name)
  {
    if list != [] {
      WithoutNothing(list[1..], name);
      assert forall k :: 1 <= k < |list| ==> list[k] == list[1..][k - 1];
      assert Without(list, name) == list ==> Without(list, name)[0] == list[0] && Without(list, name)[1..] == list[1..];
    }
  }

  lemma WithoutOne(list: seq<string>, k: nat, name: string)
    requires k < |list| && Defines(list[k], name)
    ensures Without(list[..k] + list[k + 1..], name) == Without(list, name)
  {
    assert list == list[..k] + ([list[k]] + list[k + 1..]);
    WithoutConcat(list[..k], [list[k]] + list[k + 1..], name);
    WithoutConcat(list[..k], list[k + 1..], name);
    assert ([list[k]] + list[k + 1..])[1..] == list[k + 1..];
  }

  lemma {:induction false} PutNew(list: seq<string>, name: string, entry: string)
    requires Lookup(list, name) == None
    ensures Put(list, name, entry) == list + [entry]
  {
    if list != [] {
      PutNew(list[1..], name, entry);
    }
  }

  // ---- the program ----

  /** The variable environ. */
  class Environ {
    var cells: array<Option<string>>

    predicate Valid()
      reads this, cells
    {
      None in cells[..]
    }

    function List(): seq<string>
      reads this, cells
    {
      Listed(cells[..])
    }

    /** getenv() of the C library. */
    method GetEnv(name: string) returns (value: Option<string>)
      requires Valid()
      ensures value == Lookup(List(), name)
    {
      value := Lookup(Listed(cells[..]), name);
    }

    /** putenv() of the C library with name=value; without memory it fails and changes nothing. */
    method PutEnv(name: string, entry: string, memory: bool) returns (rc: int)
      requires Valid()
      modifies this, cells
      ensures Valid()
      ensures if memory then rc == 0 && List() == Put(old(List()), name, entry)
              else rc == -1 && List() == old(List())
    {
      if !memory {
        return -1;
      }
      var list := Put(Listed(cells[..]), name, entry);
      var grown := new Option<string>[|list| + 1](i => if 0 <= i < |list| then Some(list[i]) else None);
      cells := grown;
      ListedEnds(cells[..], |list|);
      assert cells[..][|list|] == None;
      assert Listed(cells[..]) == list;
      return 0;
    }

    /** The inner loop of unsetenv(): all entries after `ep` move back by one. */
    method ShiftBack(ep: nat)
      requires Valid() && ep < |List()|
      modifies cells
      ensures Valid() && List() == old(List())[..ep] + old(List())[ep + 1..]
    {
      hide Listed;
      ghost var n := |List()|;
      ListedCells(cells[..]);
      var sp := ep;
      while cells[sp].Some?
        invariant ep <= sp <= n < cells.Length
        invariant forall k :: 0 <= k < ep || sp <= k < cells.Length ==> cells[k] == old(cells[k])
        invariant forall k :: ep <= k < sp ==> cells[k] == old(cells[k + 1])
        decreases n - sp
      {
        cells[sp] := cells[sp + 1];
        sp := sp + 1;
      }
      assert cells[..][n - 1] == None;
      ListedEnds(cells[..], n - 1);
    }

    /** Exactly the entries that define `name` go, and the others keep their order. */
    method UnsetEnv(name: Option<string>) returns (rc: int)
      requires Valid()
      modifies cells
      ensures Valid()
      ensures rc == 0 <==> name.Some? && name.value != "" && '=' !in name.value
      ensures rc != 0 ==> rc == -1 && cells[..] == old(cells[..])
      ensures rc == 0 ==> List() == Without(old(List()), name.value)
    {
      hide Without, Listed, Lookup;
      if name.None? || |name.value| == 0 || '=' in name.value {
        return -1;
      }
      var ep := 0;
      ListedCells(cells[..]);
      while cells[ep].Some?
        invariant Valid() && 0 <= ep <= |List()| < cells.Length
        invariant forall k :: 0 <= k <= |List()| ==> cells[k] == if k < |List()| then Some(List()[k]) else None
        invariant forall k :: 0 <= k < ep ==> !Defines(List()[k], name.value)
        invariant Without(List(), name.value) == Without(old(List()), name.value)
        decreases |List()| - ep
      {
        if Defines(cells[ep].value, name.value) {
          WithoutOne(List(), ep, name.value);
          ShiftBack(ep);
          ListedCells(cells[..]);
        } else {
          ep := ep + 1;
        }
      }
      WithoutNothing(List(), name.value);
      return 0;
    }

    /** `room` and `memory` say whether malloc() and putenv() find memory. When one of them does not,
        the old definitions are gone already. */
    method SetEnv(name: Option<string>, value: Option<string>, overwrite: int, room: bool, memory: bool)
        returns (rc: int)
      requires Valid()
      modifies this, cells
      ensures Valid()
      ensures name.None? || name.value == "" || '=' in name.value || value.None? ==> rc == -1 && List() == old(List())
      ensures name.Some? && name.value != "" && '=' !in name.value && value.Some? ==>
                var list := old(List());
                if Lookup(list, name.value).Some? && overwrite == 0 then rc == 0 && List() == list
                else if room && memory then
                  rc == 0 && List() == Without(list, name.value) + [Definition(name.value, value.value)]
                else rc == -1 && List() == Without(list, name.value)
    {
      if name.None? || |name.value| == 0 || '=' in name.value || value.None? {
        return -1;
      }
      var present := GetEnv(name.value);
      if present.Some? && overwrite == 0 {
        return 0;
      }
      var _ := UnsetEnv(name);
      if !room {
        return -1;
      }
      WithoutTwice(old(List()), name.value);
      PutNew(List(), name.value, Definition(name.value, value.value));
      rc := PutEnv(name.value, Definition(name.value, value.value), memory);
    }
  }

  // ---- what the lists mean ----

  lemma {:induction false} WithoutTwice(list: seq<string>, name: string)
    ensures Without(Without(list, name), name) == Without(list, name) && Lookup(Without(list, name), name) == None
  {
    if list != [] {
      WithoutTwice(list[1..], name);
      var rest := Without(list[1..], name);
      assert ([list[0]] + rest)[1..] == rest;
      assert [] + rest == rest;
    }
  }

  /** No entry is lost or made up: those that define `name` occur no more, and every other as often as
      before. */
  lemma {:induction false} WithoutExact(list: seq<string>, name: string, entry: string)
    ensures multiset(Without(list, name))[entry] == if Defines(entry, name) then 0 else multiset(list)[entry]
  {
    if list != [] {
      WithoutExact(list[1..], name, entry);
      assert list == [list[0]] + list[1..];
    }
  }

  lemma SignInside(entry: string, a: string, b: string)
    requires Defines(entry, a) && Defines(entry, b) && |a| < |b|
    ensures '=' in b
  {
    assert b[|a|] == entry[|a|];
  }

  /** An entry defines one name at most. */
  lemma OneName(entry: string, a: string, b: string)
    requires Defines(entry, a) && Defines(entry, b) && '=' !in a && '=' !in b
    ensures a == b
  {
    if |a| < |b| {
      SignInside(entry, a, b);
    } else if |b| < |a| {
      SignInside(entry, b, a);
    }
  }

  lemma {:induction false} LookupWithout(list: seq<string>, name: string, other: string)
    requires '=' !in name && '=' !in other && name != other
    ensures Lookup(Without(list, name), other) == Lookup(list, other)
  {
    if list != [] {
      LookupWithout(list[1..], name, other);
      var rest := Without(list[1..], name);
      assert ([list[0]] + rest)[1..] == rest;
      assert [] + rest == rest;
      if Defines(list[0], name) && Defines(list[0], other) {
        OneName(list[0], name, other);
      }
    }
  }

  lemma {:induction false} LookupAppend(list: seq<string>, entry: string, name: string)
    ensures Lookup(list + [entry], name) ==
            if Lookup(list, name).Some? then Lookup(list, name)
            else if Defines(entry, name) then Some(entry[|name| + 1..]) else None
  {
    if list == [] {
      assert list + [entry] == [entry];
    } else {
      assert (list + [entry])[1..] == list[1..] + [entry];
      LookupAppend(list[1..], entry, name);
    }
  }

  /** A setenv() that writes: the name has the new value and one definition, all other names have the
      values they had, a second setenv() undoes the first, and unsetenv() undoes both. */
  lemma SetMeans(list: seq<string>, name: string, value: string, later: string, other: string)
    requires '=' !in name && '=' !in other && other != name
    ensures var set' := Without(list, name) + [Definition(name, value)];
      && Lookup(set', name) == Some(value)
      && Lookup(set', other) == Lookup(list, other)
      && Without(set', name) == Without(list, name)
      && Without(set', name) + [Definition(name, later)] == Without(list, name) + [Definition(name, later)]
  {
    var entry := Definition(name, value);
    assert Defines(entry, name) && entry[|name| + 1..] == value by {
      assert entry[..|name|] == name;
    }
    WithoutTwice(list, name);
    LookupAppend(Without(list, name), entry, name);
    LookupAppend(Without(list, name), entry, other);
    LookupWithout(list, name, other);
    if Defines(entry, other) {
      OneName(entry, name, other);
    }
    WithoutConcat(Without(list, name), [entry], name);
  }
}
