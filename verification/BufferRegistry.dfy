/** The registry of buffers: names, and buffers that share the text of another. */
module BufferRegistry {
  import opened Lists
  import opened BufferNames

  datatype Error = EmptyName | NameInUse | NoSuchBuffer | BaseKilled | CannotKill(buffer: nat)

  datatype Result<T> = Ok(value: T) | Err(error: Error)

  /** How killing a buffer ends. */
  datatype Killing = Killed | Refused | Failed(error: Error)

  datatype BufferOrName = ById(buffer: nat) | ByName(name: string)

  /** The entries of a buffer; how many live buffers share the text of b. */
  ghost predicate Listed(alist: seq<Entry>, b: nat) { exists i :: 0 <= i < |alist| && alist[i].buffer == b }

  ghost function Sharing(alist: seq<Entry>, base: map<nat, Option<nat>>, b: nat): nat {
    if alist == [] then 0
    else Sharing(alist[..|alist| - 1], base, b) +
         if alist[|alist| - 1].buffer in base && base[alist[|alist| - 1].buffer] == Some(b) then 1 else 0
  }

  /** Buffers and names occur once each. */
  ghost predicate OnceEach(alist: seq<Entry>) {
    forall i, j :: 0 <= i < j < |alist| ==> alist[i].buffer != alist[j].buffer && alist[i].name != alist[j].name
  }

  function Without(alist: seq<Entry>, b: nat): (r: seq<Entry>)
    ensures |r| <= |alist|
  {
    if alist == [] then []
    else if alist[0].buffer == b then alist[1..]
    else [alist[0]] + Without(alist[1..], b)
  }

  lemma {:induction false} WithoutIs(alist: seq<Entry>, b: nat, k: nat)
    requires OnceEach(alist) && k < |alist| && alist[k].buffer == b
    ensures Without(alist, b) == alist[..k] + alist[k + 1..]
  {
    if k > 0 {
      assert alist[1..][k - 1] == alist[k];
      WithoutIs(alist[1..], b, k - 1);
      assert alist[1..][..k - 1] == alist[1..k] && alist[1..][k..] == alist[k + 1..];
    }
  }

  lemma {:induction false} SharingCut(alist: seq<Entry>, base: map<nat, Option<nat>>, b: nat, k: nat)
    requires k < |alist|
    ensures Sharing(alist, base, b) == Sharing(alist[..k] + alist[k + 1..], base, b) +
      if alist[k].buffer in base && base[alist[k].buffer] == Some(b) then 1 else 0
  {
    var n := |alist| - 1;
    if k == n {
      assert alist[..k] + alist[k + 1..] == alist[..n];
    } else {
      var rest := alist[..k] + alist[k + 1..];
      assert rest[..|rest| - 1] == alist[..n][..k] + alist[..n][k + 1..];
      SharingCut(alist[..n], base, b, k);
    }
  }

  /** Only the buffers in the list, and what they share, count. */
  lemma {:induction false} SharingSame(s: seq<Entry>, t: seq<Entry>, base: map<nat, Option<nat>>,
                                       base': map<nat, Option<nat>>, b: nat)
    requires |s| == |t| && forall i :: 0 <= i < |s| ==> s[i].buffer == t[i].buffer
    requires forall e :: e in s ==> e.buffer in base && e.buffer in base' && base'[e.buffer] == base[e.buffer]
    ensures Sharing(t, base', b) == Sharing(s, base, b)
  {
    if s != [] {
      assert s[|s| - 1] in s;
      SharingSame(s[..|s| - 1], t[..|t| - 1], base, base', b);
    }
  }

  /** A buffer whose text is shared has a live buffer sharing it, and one that is not, none. */
  lemma {:induction false} SharingSome(alist: seq<Entry>, base: map<nat, Option<nat>>, b: nat)
    ensures Sharing(alist, base, b) > 0 <==>
      exists i :: 0 <= i < |alist| && alist[i].buffer in base && base[alist[i].buffer] == Some(b)
  {
    if alist != [] {
      var n := |alist| - 1;
      SharingSome(alist[..n], base, b);
      if Sharing(alist[..n], base, b) > 0 {
        var i :| 0 <= i < n && alist[..n][i].buffer in base && base[alist[..n][i].buffer] == Some(b);
        assert alist[i].buffer in base;
      }
      forall i | 0 <= i < n && alist[i].buffer in base && base[alist[i].buffer] == Some(b)
        ensures Sharing(alist, base, b) > 0
      {
        assert alist[..n][i].buffer in base;
      }
    }
  }

  /** No buffer shares the text of one that itself shares another's. */
  ghost predicate Flat(base: map<nat, Option<nat>>) {
    forall b :: b in base && base[b].Some? ==> base[b].value in base && base[base[b].value].None?
  }

  /** Buffers of `gone` may have been killed, and the others have their names still. */
  ghost predicate OnlyGone(name0: map<nat, Option<string>>, name: map<nat, Option<string>>, gone: set<nat>) {
    && (forall x :: x in name <==> x in name0)
    && (forall x :: x in name ==> name[x] == name0[x] || (x in gone && name[x] == None))
  }

  class Registry {
    var alist: seq<Entry>
    var name: map<nat, Option<string>>        // none once the buffer is dead
    var base: map<nat, Option<nat>>           // the buffer whose text it shares
    var indirections: map<nat, int>           // how many share its text; -1 if it shares another's
    var count: nat

    predicate Live(b: nat)
      reads this`name
    {
      b in name && name[b].Some?
    }

    /** Names in the list and in the buffers agree, and occur once. */
    ghost predicate Named()
      reads this`alist, this`name, this`count
    {
      && OnceEach(alist) && (forall b: nat :: b in name <==> b < count)
      && (forall e :: e in alist ==> e.name != [] && e.buffer < count && name[e.buffer] == Some(e.name))
      && (forall b :: Live(b) ==> Listed(alist, b))
    }

    /** A live buffer that shares a text shares that of a live buffer that has its own, which counts it. */
    ghost predicate Based()
      reads this`alist, this`name, this`base, this`indirections, this`count
    {
      && (forall b: nat :: b in base <==> b < count)
      && (forall b: nat :: b in indirections <==> b < count)
      && Flat(base)
      && (forall b :: Live(b) && b in base && base[b].Some? ==> Live(base[b].value) && indirections[b] == -1)
      && (forall b :: Live(b) && b in base && base[b].None? ==> indirections[b] == Sharing(alist, base, b))
    }

    ghost predicate Valid()
      reads this
    {
      Named() && Based()
    }

    constructor ()
      ensures Valid() && alist == [] && count == 0
    {
      alist, name, base, indirections, count := [], map[], map[], map[], 0;
    }

    function GetBuffer(n: string): (b: Option<nat>)
      reads this`alist
      ensures b.Some? <==> Used(alist, n)
    {
      var i := Find(alist, n);
      if i < 0 then None else Some(alist[i].buffer)
    }

    /** A new live buffer at the end of the list. */
    ghost predicate Grown(alist0: seq<Entry>, name0: map<nat, Option<string>>, n: string, b: nat)
      reads this`alist, this`name, this`count
    {
      && b + 1 == count && alist == alist0 + [Entry(n, b)] && name == name0[b := Some(n)]
    }

    lemma NamedGrown(alist0: seq<Entry>, name0: map<nat, Option<string>>, n: string, b: nat)
      requires Grown(alist0, name0, n, b) && n != [] && !Used(alist0, n) && OnceEach(alist0)
      requires forall x: nat :: x in name0 <==> x < b
      requires forall e :: e in alist0 ==> e.name != [] && e.buffer < b && name0[e.buffer] == Some(e.name)
      requires forall x :: x in name0 && name0[x].Some? ==> Listed(alist0, x)
      ensures Named()
    {
      hide Used;
      UsedIs(alist0, n);
      forall i | 0 <= i < |alist0|
        ensures alist0[i].name != n && alist0[i].buffer != b
      {
        assert alist0[i] in alist0;
      }
      forall x | Live(x)
        ensures Listed(alist, x)
      {
        if x == b {
          assert alist[|alist0|].buffer == b;
        } else {
          var i :| 0 <= i < |alist0| && alist0[i].buffer == x;
          assert alist[i].buffer == x;
        }
      }
    }

    /** A new buffer, which shares the text of `of` or has its own. */
    method Add(n: string, of: Option<nat>) returns (b: nat)
      requires Valid() && n != [] && !Used(alist, n)
      requires of.Some? ==> Live(of.value) && of.value in base && base[of.value].None? && of.value in indirections
      modifies this
      ensures Valid() && b == old(count) && count == b + 1 && Grown(old(alist), old(name), n, b)
      ensures base == old(base)[b := of]
    {
      hide *;
      Facts();
      if of.Some? { LiveIs(of.value); }
      ghost var alist0, name0, base0, inds0 := alist, name, base, indirections;
      b := count;
      count := count + 1;
      base := base[b := of];
      indirections := indirections[b := if of.None? then 0 else -1];
      if of.Some? {
        indirections := indirections[of.value := indirections[of.value] + 1];
      }
      name := name[b := Some(n)];
      alist := alist + [Entry(n, b)];
      IsGrown(alist0, name0, n, b);
      NamedGrown(alist0, name0, n, b);
      BasedGrown(alist0, name0, base0, inds0, n, b, of);
      Whole();
    }

    lemma Facts()
      requires Valid()
      ensures OnceEach(alist) && (forall x: nat :: x in name <==> x < count)
      ensures forall x: nat :: x in base <==> x < count
      ensures forall x: nat :: x in indirections <==> x < count
      ensures forall e :: e in alist ==> e.name != [] && e.buffer < count && name[e.buffer] == Some(e.name)
      ensures forall x :: x in name && name[x].Some? ==> Listed(alist, x)
      ensures Flat(base) && forall x :: x in name && name[x].Some? && base[x].Some? ==>
        base[x].value in name && name[base[x].value].Some? && indirections[x] == -1
      ensures forall x :: x in name && name[x].Some? && base[x].None? ==> indirections[x] == Sharing(alist, base, x)
    {
    }

    lemma LiveIs(b: nat)
      ensures Live(b) <==> b in name && name[b].Some?
    {
    }

    lemma IsGrown(alist0: seq<Entry>, name0: map<nat, Option<string>>, n: string, b: nat)
      requires b + 1 == count && alist == alist0 + [Entry(n, b)] && name == name0[b := Some(n)]
      ensures Grown(alist0, name0, n, b)
    {
    }

    lemma Whole()
      requires Named() && Based()
      ensures Valid()
    {
    }

    lemma BasedGrown(alist0: seq<Entry>, name0: map<nat, Option<string>>, base0: map<nat, Option<nat>>,
                     inds0: map<nat, int>, n: string, b: nat, of: Option<nat>)
      requires Grown(alist0, name0, n, b) && base == base0[b := of]
      requires (forall x: nat :: x in name0 <==> x < b) && forall x: nat :: x in base0 <==> x < b
      requires forall x: nat :: x in inds0 <==> x < b
      requires forall e :: e in alist0 ==> e.buffer < b && name0[e.buffer].Some?
      requires of.Some? ==> of.value < b && name0[of.value].Some? && base0[of.value].None?
      requires indirections == if of.None? then inds0[b := 0] else inds0[b := -1][of.value := inds0[of.value] + 1]
      requires Flat(base0)
      requires forall x :: x in name0 && name0[x].Some? && base0[x].Some? ==> (
        base0[x].value in name0 && name0[base0[x].value].Some? && inds0[x] == -1)
      requires forall x :: x in name0 && name0[x].Some? && base0[x].None? ==> inds0[x] == Sharing(alist0, base0, x)
      ensures Based()
    {
      hide *;
      GrownIs(alist0, name0, n, b);
      forall x: nat | x <= b
        ensures Sharing(alist, base, x) == Counted(alist0, base0, b, of, x)
      {
        GrownCount(alist0, name0, base0, n, b, of, x);
      }
      GrownFlat(base0, b, of);
      GrownBased(alist0, name0, base0, inds0, n, b, of);
    }

    /** The count for x once b, which shares the text of `of`, is there. */
    ghost function Counted(alist0: seq<Entry>, base0: map<nat, Option<nat>>, b: nat, of: Option<nat>, x: nat): nat {
      (if x == b then 0 else Sharing(alist0, base0, x)) + if of == Some(x) then 1 else 0
    }

    lemma GrownIs(alist0: seq<Entry>, name0: map<nat, Option<string>>, n: string, b: nat)
      requires Grown(alist0, name0, n, b)
      ensures b + 1 == count && alist == alist0 + [Entry(n, b)] && name == name0[b := Some(n)]
    {
    }

    lemma GrownFlat(base0: map<nat, Option<nat>>, b: nat, of: Option<nat>)
      requires Flat(base0) && base == base0[b := of] && (forall x: nat :: x in base0 <==> x < b)
      requires of.Some? ==> of.value < b && base0[of.value].None?
      ensures Flat(base)
    {
    }

    lemma GrownBased(alist0: seq<Entry>, name0: map<nat, Option<string>>, base0: map<nat, Option<nat>>,
                     inds0: map<nat, int>, n: string, b: nat, of: Option<nat>)
      requires b + 1 == count && name == name0[b := Some(n)] && base == base0[b := of] && Flat(base)
      requires (forall x: nat :: x in name0 <==> x < b) && forall x: nat :: x in base0 <==> x < b
      requires forall x: nat :: x in inds0 <==> x < b
      requires of.Some? ==> of.value < b && name0[of.value].Some? && base0[of.value].None?
      requires indirections == if of.None? then inds0[b := 0] else inds0[b := -1][of.value := inds0[of.value] + 1]
      requires forall x :: x in name0 && name0[x].Some? && base0[x].Some? ==> (
        base0[x].value in name0 && name0[base0[x].value].Some? && inds0[x] == -1)
      requires forall x :: x in name0 && name0[x].Some? && base0[x].None? ==> inds0[x] == Sharing(alist0, base0, x)
      requires forall x: nat :: x <= b ==> Sharing(alist, base, x) == Counted(alist0, base0, b, of, x)
      ensures Based()
    {
      hide Sharing, Flat;
    }

    lemma GrownCount(alist0: seq<Entry>, name0: map<nat, Option<string>>, base0: map<nat, Option<nat>>,
                     n: string, b: nat, of: Option<nat>, x: nat)
      requires alist == alist0 + [Entry(n, b)] && base == base0[b := of] && x <= b
      requires forall y :: y in base0 ==> y < b
      requires forall e :: e in alist0 ==>
        e.buffer < b && e.buffer in base0 && e.buffer in name0 && name0[e.buffer].Some?
      requires forall y :: y in name0 && name0[y].Some? && y in base0 && base0[y].Some? ==> base0[y].value < b
      ensures Sharing(alist, base, x) == Counted(alist0, base0, b, of, x)
    {
      hide Sharing;
      SharingSame(alist0, alist0, base0, base, x);
      SharingMore(alist0, base, n, b, x);
      if x == b { NoneShares(alist0, base0, b); }
    }

    lemma SharingMore(alist0: seq<Entry>, base: map<nat, Option<nat>>, n: string, b: nat, x: nat)
      requires b in base
      ensures Sharing(alist0 + [Entry(n, b)], base, x) == Sharing(alist0, base, x) + if base[b] == Some(x) then 1 else 0
    {
      assert (alist0 + [Entry(n, b)])[..|alist0|] == alist0;
    }

    // ---------- Making buffers ----------

    /** The buffer of that name, made if there is none. */
    method GetBufferCreate(n: string) returns (r: Result<nat>)
      requires Valid()
      modifies this
      ensures Valid()
      ensures old(Used(alist, n)) ==> r == Ok(old(GetBuffer(n).value)) && unchanged(this)
      ensures !old(Used(alist, n)) && n == [] ==> r == Err(EmptyName) && unchanged(this)
      ensures !old(Used(alist, n)) && n != [] ==>
        r == Ok(old(count)) && Grown(old(alist), old(name), n, old(count)) && base == old(base)[old(count) := None]
    {
      hide Registry.Valid, Registry.Grown;
      var found := GetBuffer(n);
      if found.Some? {
        return Ok(found.value);
      }
      if n == [] {
        return Err(EmptyName);
      }
      var b := Add(n, None);
      r := Ok(b);
    }

    /** The live buffer whose text a new indirect buffer gets: never that of an indirect buffer. */
    ghost function Root(b: nat): nat
      requires b in base
      reads this`base
    {
      if base[b].Some? then base[b].value else b
    }

    /** A new buffer that shares the text of another. */
    method MakeIndirectBuffer(of: BufferOrName, n: string) returns (r: Result<nat>)
      requires Valid() && (of.ById? ==> of.buffer < count)
      modifies this
      ensures Valid()
      ensures r.Err? ==> unchanged(this)
      ensures r.Err? <==> old(Used(alist, n)) || n == [] || old(Target(of)).None? || !old(Live(Target(of).value))
      ensures r.Err? ==>
        r.error == if old(Used(alist, n)) then NameInUse else if old(Target(of)).None? then NoSuchBuffer
                   else if old(Live(Target(of).value)) then EmptyName else BaseKilled
      ensures r.Ok? ==> (
        && old(Target(of)).Some? && old(Target(of)).value in old(base)
        && r.value == old(count) && Grown(old(alist), old(name), n, r.value)
        && base == old(base)[r.value := Some(old(Root(Target(of).value)))] && base[base[r.value].value].None?
        && base[r.value] == old(if base[Target(of).value].Some? then base[Target(of).value] else Target(of)))
    {
      hide *;
      Facts();
      Finding(n);
      TargetFacts(of);
      var found := GetBuffer(n);
      if found.Some? {
        return Err(NameInUse);
      }
      var target := if of.ById? then Some(of.buffer) else GetBuffer(of.name);
      if target.None? {
        return Err(NoSuchBuffer);
      }
      if !Live(target.value) {
        return Err(BaseKilled);
      }
      if n == [] {
        return Err(EmptyName);
      }
      RootFacts(target.value);
      var root := if base[target.value].Some? then base[target.value].value else target.value;
      var b := Add(n, Some(root));
      r := Ok(b);
    }

    function Target(of: BufferOrName): Option<nat>
      reads this`alist
    {
      if of.ById? then Some(of.buffer) else GetBuffer(of.name)
    }

    lemma Finding(n: string)
      ensures GetBuffer(n).Some? <==> Used(alist, n)
    {
    }

    lemma TargetFacts(of: BufferOrName)
      requires Valid() && (of.ById? ==> of.buffer < count)
      ensures Target(of) == if of.ById? then Some(of.buffer) else GetBuffer(of.name)
      ensures Target(of).Some? ==> Target(of).value in base
    {
      if of.ByName? && GetBuffer(of.name).Some? { assert alist[Find(alist, of.name)] in alist; }
    }

    lemma RootFacts(b: nat)
      requires Valid() && Live(b) && b in base
      ensures Root(b) == if base[b].Some? then base[b].value else b
      ensures Live(Root(b)) && Root(b) in base && base[Root(b)].None? && Root(b) in indirections && Root(b) < count
    {
    }

    // ---------- Renaming ----------

    ghost function OwnName(b: nat): Option<string>
      reads this`name
    {
      if b in name then name[b] else None
    }

    /** Gives a live buffer another name, which no other buffer has. */
    method RenameBuffer(current: nat, newName: string, unique: bool, random: nat) returns (r: Result<string>)
      requires Valid() && Live(current)
      modifies this`alist, this`name
      ensures Valid() && Live(current)
      ensures r.Err? ==> alist == old(alist) && name == old(name)
      ensures r.Err? <==>
        newName == [] || (!unique && old(GetBuffer(newName)).Some? && old(GetBuffer(newName)).value != current)
      ensures r.Err? ==> r.error == if newName == [] then EmptyName else NameInUse
      ensures r.Ok? ==> name == old(name)[current := Some(r.value)]
      ensures r.Ok? && !unique ==> r.value == newName
      ensures r.Ok? && unique ==> Generated(old(alist), old(OwnName(current)), newName, random, r.value)
      ensures |alist| == |old(alist)| && forall i :: 0 <= i < |alist| ==> alist[i].buffer == old(alist)[i].buffer
    {
      hide *;
      Facts();
      LiveIs(current);
      Finding(newName);
      SameName(current, newName);
      if newName == [] {
        return Err(EmptyName);
      }
      var found := GetBuffer(newName);
      var given := newName;
      if found.Some? {
        if !unique && found.value == current {
          return Ok(name[current].value);
        }
        if !unique {
          return Err(NameInUse);
        }
        given := Generate(alist, newName, name[current], random);
      }
      FreeName(current, given);
      SetName(current, given);
      r := Ok(given);
    }

    /** A name found to be the buffer's own leaves everything as it is. */
    lemma SameName(current: nat, n: string)
      requires Valid() && Live(current)
      ensures current in name && name[current].Some? && name[current := name[current]] == name
      ensures GetBuffer(n) == Some(current) ==> name[current] == Some(n)
      ensures GetBuffer(n).None? ==> forall random :: Generated(alist, name[current], n, random, n)
      ensures OwnName(current) == name[current]
    {
      if GetBuffer(n).Some? { assert alist[Find(alist, n)] in alist; }
    }

    lemma FreeName(current: nat, given: string)
      requires Valid() && Live(current) && Free(alist, name[current], given)
      ensures forall e :: e in alist && e.name == given ==> e.buffer == current
    {
      forall e | e in alist && e.name == given
        ensures e.buffer == current
      {
        UsedIs(alist, given);
        var k :| 0 <= k < |alist| && alist[k].buffer == current;
        assert alist[k] in alist;
        var j :| 0 <= j < |alist| && alist[j] == e;
      }
    }

    method SetName(b: nat, n: string)
      requires Valid() && Live(b) && n != [] && forall e :: e in alist && e.name == n ==> e.buffer == b
      modifies this`alist, this`name
      ensures Valid() && Live(b) && name == old(name)[b := Some(n)] && |alist| == |old(alist)|
      ensures forall i :: 0 <= i < |alist| ==> alist[i].buffer == old(alist)[i].buffer
    {
      hide *;
      Facts();
      var k := EntryOf(b);
      ghost var alist0, name0 := alist, name;
      name := name[b := Some(n)];
      alist := alist[k := Entry(n, b)];
      Renamed(alist0, name0, b, n, k);
    }

    /** The list is searched for the buffer's entry. */
    method EntryOf(b: nat) returns (k: nat)
      requires Valid() && Live(b)
      ensures k < |alist| && alist[k].buffer == b
    {
      ghost var i :| 0 <= i < |alist| && alist[i].buffer == b;
      k := 0;
      while alist[k].buffer != b
        invariant 0 <= k <= i
        decreases i - k
      {
        k := k + 1;
      }
    }

    lemma Renamed(alist0: seq<Entry>, name0: map<nat, Option<string>>, b: nat, n: string, k: nat)
      requires k < |alist0| && alist0[k].buffer == b && alist == alist0[k := Entry(n, b)] && name == name0[b := Some(n)]
      requires OnceEach(alist0) && n != [] && forall e :: e in alist0 && e.name == n ==> e.buffer == b
      requires forall x: nat :: x in name0 <==> x < count
      requires forall e :: e in alist0 ==> e.name != [] && e.buffer < count && name0[e.buffer] == Some(e.name)
      requires forall x :: x in name0 && name0[x].Some? ==> Listed(alist0, x)
      requires (forall x: nat :: x in base <==> x < count) && forall x: nat :: x in indirections <==> x < count
      requires Flat(base)
      requires forall x :: x in name0 && name0[x].Some? && base[x].Some? ==> (
        base[x].value in name0 && name0[base[x].value].Some? && indirections[x] == -1)
      requires forall x :: x in name0 && name0[x].Some? && base[x].None? ==> indirections[x] == Sharing(alist0, base, x)
      ensures Valid() && Live(b)
    {
      hide *;
      RenamedNames(alist0, name0, b, n, k);
      assert alist0[k] in alist0;
      forall x: nat
        ensures Sharing(alist, base, x) == Sharing(alist0, base, x)
      {
        SharingSame(alist0, alist, base, base, x);
      }
      LiveIs(b);
      RenamedBased(alist0, name0, b, n);
      Whole();
    }

    lemma RenamedBased(alist0: seq<Entry>, name0: map<nat, Option<string>>, b: nat, n: string)
      requires name == name0[b := Some(n)] && b in name0 && name0[b].Some?
      requires forall x: nat :: x in name0 <==> x < count
      requires (forall x: nat :: x in base <==> x < count) && forall x: nat :: x in indirections <==> x < count
      requires Flat(base)
      requires forall x :: x in name0 && name0[x].Some? && base[x].Some? ==> (
        base[x].value in name0 && name0[base[x].value].Some? && indirections[x] == -1)
      requires forall x :: x in name0 && name0[x].Some? && base[x].None? ==> indirections[x] == Sharing(alist0, base, x)
      requires forall x: nat :: Sharing(alist, base, x) == Sharing(alist0, base, x)
      ensures Based()
    {
      hide Sharing;
    }

    lemma RenamedNames(alist0: seq<Entry>, name0: map<nat, Option<string>>, b: nat, n: string, k: nat)
      requires k < |alist0| && alist0[k].buffer == b && alist == alist0[k := Entry(n, b)] && name == name0[b := Some(n)]
      requires OnceEach(alist0) && n != [] && forall e :: e in alist0 && e.name == n ==> e.buffer == b
      requires forall x: nat :: x in name0 <==> x < count
      requires forall e :: e in alist0 ==> e.name != [] && e.buffer < count && name0[e.buffer] == Some(e.name)
      requires forall x :: x in name0 && name0[x].Some? ==> Listed(alist0, x)
      ensures Named()
    {
      forall i | 0 <= i < |alist0| && i != k
        ensures alist0[i].buffer != b && alist0[i].name != n
      {
        assert alist0[i] in alist0;
      }
      assert alist0[k] in alist0;
      forall x | Live(x)
        ensures Listed(alist, x)
      {
        var i :| 0 <= i < |alist0| && alist0[i].buffer == x;
        assert alist[i].buffer == x;
      }
    }

    // ---------- Killing ----------

    /** Kills a live buffer whose text no live buffer shares. */
    method Commit(b: nat)
      requires Valid() && Live(b) && b in base && (base[b].None? ==> Sharing(alist, base, b) == 0)
      modifies this`alist, this`name, this`indirections
      ensures Valid() && !Live(b) && name == old(name)[b := None] && alist == Without(old(alist), b)
    {
      hide *;
      Facts();
      LiveIs(b);
      var k := EntryOf(b);
      ghost var alist0, name0, inds0 := alist, name, indirections;
      WithoutIs(alist, b, k);
      RootFacts(b);
      alist := Without(alist, b);
      name := name[b := None];
      if base[b].Some? {
        indirections := indirections[base[b].value := indirections[base[b].value] - 1];
      }
      KilledNames(alist0, name0, b, k);
      KilledBased(alist0, name0, inds0, b, k);
      LiveIs(b);
      Whole();
    }

    lemma KilledNames(alist0: seq<Entry>, name0: map<nat, Option<string>>, b: nat, k: nat)
      requires k < |alist0| && alist0[k].buffer == b && alist == alist0[..k] + alist0[k + 1..]
      requires name == name0[b := None]
      requires OnceEach(alist0) && b in name0 && forall x: nat :: x in name0 <==> x < count
      requires forall e :: e in alist0 ==> e.name != [] && e.buffer < count && name0[e.buffer] == Some(e.name)
      requires forall x :: x in name0 && name0[x].Some? ==> Listed(alist0, x)
      ensures Named()
    {
      hide *;
      CutEntries(alist0, b, k);
      forall x: nat | x != b && Listed(alist0, x)
        ensures Listed(alist, x)
      {
        CutListed(alist0, b, k, x);
      }
      NamedLess(alist0, name0, b);
    }

    /** Names still agree when exactly the entry of b is gone. */
    lemma NamedLess(alist0: seq<Entry>, name0: map<nat, Option<string>>, b: nat)
      requires name == name0[b := None] && b in name0 && forall x: nat :: x in name0 <==> x < count
      requires forall e :: e in alist0 ==> e.name != [] && e.buffer < count && name0[e.buffer] == Some(e.name)
      requires forall x :: x in name0 && name0[x].Some? ==> Listed(alist0, x)
      requires OnceEach(alist) && forall e :: e in alist ==> e in alist0 && e.buffer != b
      requires forall x: nat :: x != b && Listed(alist0, x) ==> Listed(alist, x)
      ensures Named()
    {
      hide OnceEach, Listed;
    }

    lemma CutListed(alist0: seq<Entry>, b: nat, k: nat, x: nat)
      requires k < |alist0| && alist0[k].buffer == b && alist == alist0[..k] + alist0[k + 1..]
      requires Listed(alist0, x) && x != b
      ensures Listed(alist, x)
    {
      var i :| 0 <= i < |alist0| && alist0[i].buffer == x;
      assert alist[if i < k then i else i - 1].buffer == x;
    }

    lemma CutEntries(alist0: seq<Entry>, b: nat, k: nat)
      requires k < |alist0| && alist0[k].buffer == b && alist == alist0[..k] + alist0[k + 1..] && OnceEach(alist0)
      ensures OnceEach(alist) && forall e :: e in alist ==> e in alist0 && e.buffer != b
    {
      forall i | 0 <= i < |alist|
        ensures alist[i] == alist0[if i < k then i else i + 1] && alist[i].buffer != b
      {
      }
    }

    lemma KilledBased(alist0: seq<Entry>, name0: map<nat, Option<string>>, inds0: map<nat, int>, b: nat, k: nat)
      requires k < |alist0| && alist0[k].buffer == b && alist == alist0[..k] + alist0[k + 1..]
      requires name == name0[b := None]
      requires b in name0 && name0[b].Some? && b in base && (base[b].None? ==> Sharing(alist0, base, b) == 0)
      requires forall x: nat :: x in name0 <==> x < count
      requires (forall x: nat :: x in base <==> x < count) && forall x: nat :: x in inds0 <==> x < count
      requires forall x :: x in name0 && name0[x].Some? ==> Listed(alist0, x)
      requires Flat(base)
      requires forall x :: x in name0 && name0[x].Some? && base[x].Some? ==> (
        base[x].value in name0 && name0[base[x].value].Some? && inds0[x] == -1)
      requires forall x :: x in name0 && name0[x].Some? && base[x].None? ==> inds0[x] == Sharing(alist0, base, x)
      requires indirections == if base[b].None? then inds0 else inds0[base[b].value := inds0[base[b].value] - 1]
      ensures Based()
    {
      hide Sharing, Listed;
      forall x: nat
        ensures Sharing(alist0, base, x) == Sharing(alist, base, x) + if base[b] == Some(x) then 1 else 0
      {
        SharingCut(alist0, base, x, k);
      }
      forall x | x in name0 && name0[x].Some? && base[x].Some?
        ensures base[x].value != b
      {
        if base[b].None? { NotShared(alist0, name0, b, x); }
      }
    }

    lemma NotShared(alist0: seq<Entry>, name0: map<nat, Option<string>>, b: nat, x: nat)
      requires Sharing(alist0, base, b) == 0 && x in base && Listed(alist0, x)
      ensures base[x] != Some(b)
    {
      SharingSome(alist0, base, b);
    }

    ghost function Sharers(b: nat): set<nat>
      reads this`base
    {
      set x | x in base && base[x] == Some(b)
    }

    /** Kills a buffer and, before it, those that share its text.  Killing one of `veto` is refused
        at once, and one of `late` after the buffers that share its text are gone. */
    method KillBuffer(b: nat, veto: set<nat>, late: set<nat>) returns (r: Killing)
      requires Valid() && b < count
      modifies this`alist, this`name, this`indirections
      ensures Valid() && OnlyGone(old(name), name, Sharers(b) + {b})
      ensures !old(Live(b)) || b in veto ==> r == Refused && alist == old(alist) && name == old(name)
      ensures r.Killed? <==> old(Live(b)) && !Live(b)
      ensures forall x :: x in veto + late && old(Live(x)) ==> Live(x)
      ensures old(Live(b)) && b !in veto ==>
        (r.Failed? <==> exists x :: x in Sharers(b) && x in veto + late && old(Live(x)))
      ensures r.Failed? ==> r.error.CannotKill? && r.error.buffer in Sharers(b) && Live(r.error.buffer)
      ensures old(Live(b)) && b !in veto && !r.Failed? ==>
        r == (if b in late then Refused else Killed) && forall x :: x in Sharers(b) ==> !Live(x)
      decreases if b in base && base[b].None? then 1 else 0, 2
    {
      hide *;
      Facts();
      SameNames(b);
      if !Live(b) || b in veto {
        return Refused;
      }
      LiveIs(b);
      if base[b].None? && indirections[b] > 0 {
        var failed := KillSharers(b, veto, late);
        if failed.Some? {
          return Failed(CannotKill(failed.value));
        }
      } else {
        NobodyShares(b);
      }
      if b in late {
        return Refused;
      }
      NoneLeft(b);
      AllLive();
      ghost var name1 := name;
      Commit(b);
      AlsoGone(old(name), name1, b);
      AllLive();
      r := Killed;
    }

    /** Kills the buffers that share the text of b, one by one along the list, unless one cannot be. */
    method KillSharers(b: nat, veto: set<nat>, late: set<nat>) returns (failed: Option<nat>)
      requires Valid() && Live(b) && b in base && base[b].None?
      modifies this`alist, this`name, this`indirections
      ensures Valid() && OnlyGone(old(name), name, Sharers(b)) && OnlyGone(old(name), name, Sharers(b) + {b}) && Live(b)
      ensures failed.None? ==> forall x :: x in Sharers(b) ==> !Live(x)
      ensures failed.Some? ==> failed.value in Sharers(b) && failed.value in veto + late && Live(failed.value)
      ensures forall y :: Live(y) ==> old(Live(y))
      ensures forall y :: y in veto + late && old(Live(y)) ==> Live(y)
      decreases 1, 1
    {
      hide *;
      Facts();
      var all := alist;
      SameNames(b);
      for i := 0 to |all|
        invariant Valid() && Live(b)
        invariant OnlyGone(old(name), name, Sharers(b)) && OnlyGone(old(name), name, Sharers(b) + {b})
        invariant forall j :: 0 <= j < i && all[j].buffer in Sharers(b) ==> !Live(all[j].buffer)
        invariant forall e :: e in all ==> e.buffer < count
        invariant forall y :: Live(y) ==> old(Live(y))
        invariant forall y :: y in veto + late && old(Live(y)) ==> Live(y)
      {
        assert all[i] in all;
        var gone := KillSharer(b, all[i].buffer, veto, late, old(name));
        if !gone {
          return Some(all[i].buffer);
        }
      }
      NoSharers(old(name), b, all);
      failed := None;
    }

    /** One entry of the list: nothing happens unless the buffer shares the text of b. */
    method KillSharer(b: nat, x: nat, veto: set<nat>, late: set<nat>, ghost name0: map<nat, Option<string>>)
        returns (gone: bool)
      requires Valid() && Live(b) && b in base && base[b].None? && x < count
      requires OnlyGone(name0, name, Sharers(b)) && OnlyGone(name0, name, Sharers(b) + {b})
      modifies this`alist, this`name, this`indirections
      ensures Valid() && Live(b) && OnlyGone(name0, name, Sharers(b)) && OnlyGone(name0, name, Sharers(b) + {b})
      ensures gone && x in Sharers(b) ==> !Live(x)
      ensures !gone ==> x in Sharers(b) && x in veto + late && Live(x)
      ensures forall y :: Live(y) ==> old(Live(y))
      ensures forall y :: y in veto + late && old(Live(y)) ==> Live(y)
      decreases 1, 0
    {
      hide *;
      Facts();
      SharerIs(b, x);
      gone := true;
      if base[x] == Some(b) {
        AllLive();
        ghost var name1 := name;
        var _ := KillBuffer(x, veto, late);
        StillGone(name0, name1, b, x);
        gone := !Live(x);
      }
    }

    lemma AllLive()
      requires Valid()
      ensures forall x :: Live(x) <==> x in name && name[x].Some?
    {
    }

    lemma SameNames(b: nat)
      requires Valid()
      ensures OnlyGone(name, name, Sharers(b)) && OnlyGone(name, name, Sharers(b) + {b})
      ensures b in base && base[b].Some? ==> Sharers(b) == {}
    {
    }

    lemma SharerIs(b: nat, x: nat)
      requires Valid() && b in base && base[b].None?
      ensures x in Sharers(b) <==> x in base && base[x] == Some(b)
      ensures x in Sharers(b) ==> Sharers(x) == {} && x != b
    {
    }

    /** A buffer that no buffer is counted for is shared by no live one. */
    lemma NobodyShares(b: nat)
      requires Valid() && Live(b) && b in base && !(base[b].None? && indirections[b] > 0)
      ensures forall x :: x in Sharers(b) ==> !Live(x)
    {
      hide Sharing;
      if base[b].None? {
        forall x | x in Sharers(b)
          ensures !Live(x)
        {
          if Live(x) { NotShared(alist, name, b, x); }
        }
      }
    }

    lemma NoneLeft(b: nat)
      requires Valid() && b in base && forall x :: x in Sharers(b) ==> !Live(x)
      ensures base[b].None? ==> Sharing(alist, base, b) == 0
    {
      hide Sharing;
      forall e | e in alist && e.buffer in base && base[e.buffer].Some?
        ensures base[e.buffer].value != b
      {
        assert Live(e.buffer);
      }
      NoneShares(alist, base, b);
    }

    lemma AlsoGone(name0: map<nat, Option<string>>, name1: map<nat, Option<string>>, b: nat)
      requires OnlyGone(name0, name1, Sharers(b) + {b}) && b in name1 && name == name1[b := None]
      requires forall x :: x in Sharers(b) ==> !(x in name1 && name1[x].Some?)
      ensures OnlyGone(name0, name, Sharers(b) + {b})
      ensures forall x :: x in Sharers(b) ==> !Live(x)
    {
    }

    lemma StillGone(name0: map<nat, Option<string>>, name1: map<nat, Option<string>>, b: nat, x: nat)
      requires OnlyGone(name0, name1, Sharers(b)) && OnlyGone(name1, name, Sharers(x) + {x})
      requires x in Sharers(b) && Sharers(x) == {} && x != b
      ensures OnlyGone(name0, name, Sharers(b)) && OnlyGone(name0, name, Sharers(b) + {b})
      ensures forall y :: Live(y) ==> y in name1 && name1[y].Some?
      ensures b in name1 && name1[b].Some? ==> Live(b)
    {
    }

    lemma NoSharers(name0: map<nat, Option<string>>, b: nat, all: seq<Entry>)
      requires OnlyGone(name0, name, Sharers(b))
      requires forall x :: x in name0 && name0[x].Some? ==> Listed(all, x)
      requires forall j :: 0 <= j < |all| && all[j].buffer in Sharers(b) ==> !Live(all[j].buffer)
      ensures forall x :: x in Sharers(b) ==> !Live(x)
    {
      forall x | x in Sharers(b) && x in name0 && name0[x].Some?
        ensures !Live(x)
      {
        assert Listed(all, x);
      }
    }
  }

  /** Nobody shares the text of a buffer that is not there yet. */
  lemma NoneShares(alist: seq<Entry>, base: map<nat, Option<nat>>, b: nat)
    requires forall e :: e in alist && e.buffer in base && base[e.buffer].Some? ==> base[e.buffer].value != b
    ensures Sharing(alist, base, b) == 0
  {
    SharingSome(alist, base, b);
  }
}
