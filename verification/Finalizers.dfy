/** Finalizers: two circular doubly linked lists, of the finalizers that are alive and of those
    whose functions are to be run; and callbacks that may themselves collect. */
module Finalizers {
  import opened Lists

  type Map = map<nat, Option<nat>>

  /** The heads of the two lists. */
  const LIVE: nat := 0
  const DOOMED: nat := 1

  function Circle(head: nat, s: seq<nat>): seq<nat> { [head] + s + [head] }

  /** The links run through the list and back to its head, both ways. */
  ghost predicate Ring(next: Map, prev: Map, head: nat, s: seq<nat>) {
    && Distinct(s) && head !in s
    && forall i: nat :: i <= |s| ==> Link(next, prev, Circle(head, s)[i], Circle(head, s)[i + 1])
  }

  ghost predicate Link(next: Map, prev: Map, x: nat, y: nat) {
    x in next && next[x] == Some(y) && y in prev && prev[y] == Some(x)
  }

  /** A ring whose members' links stay is the same ring. */
  lemma RingFrame(next: Map, prev: Map, next': Map, prev': Map, head: nat, s: seq<nat>)
    requires Ring(next, prev, head, s)
    requires forall x :: x == head || x in s ==> (
      x in next' && x in prev' && (x in next ==> next'[x] == next[x]) && (x in prev ==> prev'[x] == prev[x]))
    ensures Ring(next', prev', head, s)
  {
    hide Distinct;
    var c := Circle(head, s);
    forall i: nat | i <= |s|
      ensures Link(next', prev', c[i], c[i + 1])
    {
      assert Link(next, prev, c[i], c[i + 1]);
      InCircle(head, s, i);
      InCircle(head, s, i + 1);
    }
  }

  lemma InCircle(head: nat, s: seq<nat>, i: nat)
    requires i <= |s| + 1
    ensures Circle(head, s)[i] == head || Circle(head, s)[i] in s
    ensures Circle(head, s)[i] == if 0 < i <= |s| then s[i - 1] else head
  {
  }

  /** A finalizer is put before the head, which is the end of the list. */
  lemma RingInsert(next: Map, prev: Map, head: nat, s: seq<nat>, x: nat, next': Map, prev': Map)
    requires Ring(next, prev, head, s) && x != head && x !in s && head in prev && prev[head].Some?
    requires next' == next[x := Some(head)][prev[head].value := Some(x)]
    requires prev' == prev[x := prev[head]][head := Some(x)]
    ensures Ring(next', prev', head, s + [x])
  {
    var c, c' := Circle(head, s), Circle(head, s + [x]);
    assert Link(next, prev, c[|s|], c[|s| + 1]);
    InCircle(head, s, |s|);
    forall i: nat | i <= |s| + 1
      ensures Link(next', prev', c'[i], c'[i + 1])
    {
      if i < |s| {
        assert Link(next, prev, c[i], c[i + 1]);
        InCircle(head, s, i);
        InCircle(head, s, i + 1);
      }
    }
  }

  /** The k-th finalizer is taken out. */
  lemma RingRemove(next: Map, prev: Map, head: nat, s: seq<nat>, k: nat, next': Map, prev': Map)
    requires Ring(next, prev, head, s) && k < |s|
    requires s[k] in next && s[k] in prev && next[s[k]].Some? && prev[s[k]].Some?
    requires next' == next[prev[s[k]].value := next[s[k]]][s[k] := None]
    requires prev' == prev[next[s[k]].value := prev[s[k]]][s[k] := None]
    ensures Ring(next', prev', head, s[..k] + s[k + 1..])
  {
    var t := s[..k] + s[k + 1..];
    var c, c' := Circle(head, s), Circle(head, t);
    NotTwice(s, k);
    assert Link(next, prev, c[k], c[k + 1]) && Link(next, prev, c[k + 1], c[k + 2]);
    forall i: nat | i <= |t|
      ensures Link(next', prev', c'[i], c'[i + 1])
    {
      var j := if i < k then i else i + 1;
      assert Link(next, prev, c[j], c[j + 1]);
      RemovedLink(head, s, k, i);
    }
  }

  lemma RemovedLink(head: nat, s: seq<nat>, k: nat, i: nat)
    requires Distinct(s) && head !in s && k < |s| && i < |s|
    ensures var c, c' := Circle(head, s), Circle(head, s[..k] + s[k + 1..]);
      && c'[i] == c[if i <= k then i else i + 1] && c'[i + 1] == c[if i < k then i + 1 else i + 2]
      && c[k + 1] == s[k] && c'[i] != s[k] && c'[i + 1] != s[k]
  {
  }

  // ---------- The two lists ----------

  ghost predicate TwoRings(next: Map, prev: Map, h: nat, s: seq<nat>, o: nat, t: seq<nat>) {
    && Ring(next, prev, h, s) && Ring(next, prev, o, t)
    && h != o && h !in t && o !in s && forall x :: x in s ==> x !in t
  }

  lemma Swapped(next: Map, prev: Map, h: nat, s: seq<nat>, o: nat, t: seq<nat>)
    requires TwoRings(next, prev, h, s, o, t)
    ensures TwoRings(next, prev, o, t, h, s)
  {
    hide Ring;
  }

  lemma InsertTwo(next: Map, prev: Map, h: nat, s: seq<nat>, o: nat, t: seq<nat>, x: nat, next': Map, prev': Map)
    requires TwoRings(next, prev, h, s, o, t) && x != h && x != o && x !in s && x !in t
    requires h in prev && prev[h].Some? && next' == next[x := Some(h)][prev[h].value := Some(x)]
    requires prev' == prev[x := prev[h]][h := Some(x)]
    ensures TwoRings(next', prev', h, s + [x], o, t)
  {
    RingInsert(next, prev, h, s, x, next', prev');
    LinkedHead(next, prev, h, s);
    RingKeys(next, prev, o, t);
    hide Ring;
    RingFrame(next, prev, next', prev', o, t);
  }

  lemma RemoveTwo(next: Map, prev: Map, h: nat, s: seq<nat>, o: nat, t: seq<nat>, k: nat, next': Map, prev': Map)
    requires TwoRings(next, prev, h, s, o, t) && k < |s|
    requires s[k] in next && s[k] in prev && next[s[k]].Some? && prev[s[k]].Some?
    requires next' == next[prev[s[k]].value := next[s[k]]][s[k] := None]
    requires prev' == prev[next[s[k]].value := prev[s[k]]][s[k] := None]
    ensures TwoRings(next', prev', h, s[..k] + s[k + 1..], o, t)
  {
    RingRemove(next, prev, h, s, k, next', prev');
    LinkedMember(next, prev, h, s, k);
    RingKeys(next, prev, o, t);
    hide Ring;
    assert s[k] in s;
    RingFrame(next, prev, next', prev', o, t);
  }

  lemma RingKeys(next: Map, prev: Map, h: nat, s: seq<nat>)
    requires Ring(next, prev, h, s)
    ensures forall x :: x == h || x in s ==> x in next && x in prev
  {
    forall x | x == h || x in s
      ensures x in next && x in prev
    {
      if x == h {
        LinkedHead(next, prev, h, s);
      } else {
        var k: nat :| k < |s| && s[k] == x;
        LinkedMember(next, prev, h, s, k);
      }
    }
  }

  lemma LinkedHead(next: Map, prev: Map, h: nat, s: seq<nat>)
    requires Ring(next, prev, h, s)
    ensures h in prev && prev[h] == Some(if s == [] then h else s[|s| - 1])
    ensures h in next && next[h] == Some(if s == [] then h else s[0])
  {
    var c := Circle(h, s);
    assert Link(next, prev, c[|s|], c[|s| + 1]) && Link(next, prev, c[0], c[1]);
    InCircle(h, s, |s|);
    InCircle(h, s, 1);
  }

  lemma LinkedMember(next: Map, prev: Map, h: nat, s: seq<nat>, k: nat)
    requires Ring(next, prev, h, s) && k < |s|
    ensures s[k] in next && s[k] in prev
    ensures next[s[k]] == Some(if k + 1 < |s| then s[k + 1] else h)
    ensures prev[s[k]] == Some(if k > 0 then s[k - 1] else h)
  {
    var c := Circle(h, s);
    assert Link(next, prev, c[k], c[k + 1]) && Link(next, prev, c[k + 1], c[k + 2]);
    InCircle(h, s, k);
    InCircle(h, s, k + 1);
    InCircle(h, s, k + 2);
  }

  /** What a callback does: makes a finalizer, collects while the given finalizers are reachable,
      or returns. */
  datatype Event = Make(callee: nat) | Collect(reachable: set<nat>) | Return

  /** The members of s that are reachable, or not. */
  function Reachable(s: seq<nat>, m: set<nat>): seq<nat> {
    if s == [] then [] else Reachable(s[..|s| - 1], m) + if s[|s| - 1] in m then [s[|s| - 1]] else []
  }

  function Unreachable(s: seq<nat>, m: set<nat>): seq<nat> {
    if s == [] then [] else Unreachable(s[..|s| - 1], m) + if s[|s| - 1] in m then [] else [s[|s| - 1]]
  }

  lemma {:induction false} Parted(s: seq<nat>, m: set<nat>, x: nat)
    ensures x in Reachable(s, m) <==> x in s && x in m
    ensures x in Unreachable(s, m) <==> x in s && x !in m
    ensures |Reachable(s, m)| + |Unreachable(s, m)| == |s|
  {
    if s != [] {
      assert s == s[..|s| - 1] + [s[|s| - 1]];
      Parted(s[..|s| - 1], m, x);
    }
  }

  /** Each side keeps the order of the list. */
  lemma {:induction false} PartedInOrder(s: seq<nat>, m: set<nat>, i: nat, j: nat)
    ensures i < j < |Reachable(s, m)| ==>
      exists a, b :: 0 <= a < b < |s| && s[a] == Reachable(s, m)[i] && s[b] == Reachable(s, m)[j]
    ensures i < j < |Unreachable(s, m)| ==>
      exists a, b :: 0 <= a < b < |s| && s[a] == Unreachable(s, m)[i] && s[b] == Unreachable(s, m)[j]
  {
    if s != [] {
      var n := |s| - 1;
      var r, u := Reachable(s, m), Unreachable(s, m);
      PartedInOrder(s[..n], m, i, j);
      if i < j == |r| - 1 && s[n] in m { InFront(s, m, true, i); }
      if i < j == |u| - 1 && s[n] !in m { InFront(s, m, false, i); }
    }
  }

  lemma InFront(s: seq<nat>, m: set<nat>, reached: bool, i: nat)
    requires s != [] && (s[|s| - 1] in m <==> reached)
    requires i < |if reached then Reachable(s, m) else Unreachable(s, m)| - 1
    ensures var r := if reached then Reachable(s, m) else Unreachable(s, m);
      && r[|r| - 1] == s[|s| - 1] && exists a :: 0 <= a < |s| - 1 && s[a] == r[i]
  {
    var n := |s| - 1;
    var r := if reached then Reachable(s, m) else Unreachable(s, m);
    Parted(s[..n], m, r[i]);
    assert r[i] in s[..n];
  }

  /** A call of the function of a finalizer. */
  datatype Call = Call(finalizer: nat, callee: nat)

  /** The finalizers whose functions were called. */
  ghost function Ran(calls: seq<Call>): (r: seq<nat>)
    ensures |r| == |calls|
  {
    seq(|calls|, i requires 0 <= i < |calls| => calls[i].finalizer)
  }

  lemma RanMore(calls: seq<Call>, c: Call)
    ensures Ran(calls + [c]) == Ran(calls) + [c.finalizer]
  {
  }

  /** What the events bring about. */
  ghost function Acts(script: seq<Event>): seq<Event> {
    if script == [] then []
    else Acts(script[..|script| - 1]) + if script[|script| - 1].Return? then [] else [script[|script| - 1]]
  }

  /** The script was used up to s, and what its events bring about was done. */
  ghost predicate Used(s0: seq<Event>, acts0: seq<Event>, s: seq<Event>, acts: seq<Event>) {
    |s| <= |s0| && s0[|s0| - |s|..] == s && acts == acts0 + Acts(s0[..|s0| - |s|])
  }

  lemma UsedNone(s0: seq<Event>, acts0: seq<Event>)
    ensures Used(s0, acts0, s0, acts0)
  {
  }

  lemma UsedOne(s0: seq<Event>, acts0: seq<Event>, s: seq<Event>, acts: seq<Event>)
    requires Used(s0, acts0, s, acts) && s != []
    ensures Used(s0, acts0, s[1..], acts + if s[0].Return? then [] else [s[0]])
  {
    var n := |s0| - |s|;
    assert s0[..n + 1][..n] == s0[..n] && s0[..n + 1][n] == s0[n..][0];
    assert s0[n + 1..] == s0[n..][1..];
  }

  lemma UsedMore(s0: seq<Event>, acts0: seq<Event>, s1: seq<Event>, acts1: seq<Event>, s: seq<Event>, acts: seq<Event>)
    requires Used(s0, acts0, s1, acts1) && Used(s1, acts1, s, acts)
    ensures Used(s0, acts0, s, acts)
  {
    var n, m := |s0| - |s1|, |s0| - |s|;
    assert s1 == s0[n..] && s1[..m - n] == s0[n..m] && s0[..m] == s0[..n] + s0[n..m];
    ActsJoin(s0[..n], s0[n..m]);
    assert s0[m..] == s0[n..][m - n..];
  }

  lemma {:induction false} ActsJoin(a: seq<Event>, b: seq<Event>)
    ensures Acts(a + b) == Acts(a) + Acts(b)
  {
    if b == [] {
      assert a + b == a;
    } else {
      assert (a + b)[..|a + b| - 1] == a + b[..|b| - 1];
      ActsJoin(a, b[..|b| - 1]);
    }
  }

  class FinalizerLists {
    var next: Map
    var prev: Map
    var callee: map<nat, Option<nat>>
    var count: nat                 // the number of the next finalizer
    var script: seq<Event>         // what callbacks will do
    ghost var live: seq<nat>
    ghost var doomed: seq<nat>
    ghost var queued: seq<nat>     // every finalizer that was doomed, in order
    ghost var calls: seq<Call>     // every call of a function, in order
    ghost var made: map<nat, nat>  // the function that each finalizer was made with
    ghost var acts: seq<Event>     // every finalizer made and every collection, in order

    /** The lists are rings with nothing in common; their members have the function that they were
        made with. */
    ghost predicate Rings()
      reads this`next, this`prev, this`callee, this`count, this`live, this`doomed, this`made
    {
      && TwoRings(next, prev, LIVE, live, DOOMED, doomed)
      && 2 <= count && (forall x :: x in live || x in doomed ==> 2 <= x < count && HasFunction(x))
      && (forall x :: x in made ==> x < count)
    }

    ghost predicate HasFunction(x: nat)
      reads this`callee, this`made
    {
      x in callee && x in made && callee[x] == Some(made[x])
    }

    /** Functions are called in the order in which the finalizers were doomed, each once and as it
        was made; `taken` is about to be called. */
    ghost predicate Order(taken: seq<nat>)
      reads this`count, this`live, this`doomed, this`queued, this`calls, this`made
    {
      && queued == Ran(calls) + taken + doomed && Distinct(queued)
      && (forall x :: x in live ==> x !in queued) && (forall x :: x in queued ==> x < count)
      && (forall c :: c in calls ==> c.finalizer in made && c.callee == made[c.finalizer])
    }

    ghost predicate Valid()
      reads this
    {
      Rings() && Order([])
    }

    /** A finalizer was taken off its list, and its function f is about to be called. */
    ghost predicate Calling(x: nat, f: nat)
      reads this
    {
      Rings() && Order([x]) && x in made && f == made[x]
    }

    constructor (script: seq<Event>)
      ensures Valid() && live == doomed == queued == [] && calls == [] && this.script == script
    {
      next, prev := map[LIVE := Some(LIVE), DOOMED := Some(DOOMED)], map[LIVE := Some(LIVE), DOOMED := Some(DOOMED)];
      callee, count, this.script := map[], 2, script;
      live, doomed, queued, calls, made, acts := [], [], [], [], map[], [];
    }

    // ---------- Links ----------

    method Insert(element: nat, x: nat)
      requires element in prev && prev[element].Some?
      modifies this`next, this`prev
      ensures next == old(next)[x := Some(element)][old(prev)[element].value := Some(x)]
      ensures prev == old(prev)[x := old(prev)[element]][element := Some(x)]
    {
      next := next[x := Some(element)];
      prev := prev[x := prev[element]];
      next := next[prev[x].value := Some(x)];
      prev := prev[element := Some(x)];
    }

    method Unchain(x: nat)
      requires x in prev && x in next && (prev[x].Some? ==> next[x].Some?)
      requires prev[x].Some? ==> prev[x].value != x && next[x].value != x
      modifies this`next, this`prev
      ensures old(prev)[x].None? ==> next == old(next) && prev == old(prev)
      ensures old(prev)[x].Some? ==> (
        && next == old(next)[old(prev)[x].value := old(next)[x]][x := None]
        && prev == old(prev)[old(next)[x].value := old(prev)[x]][x := None])
    {
      if prev[x].Some? {
        next := next[prev[x].value := next[x]];
        prev := prev[next[x].value := prev[x]];
        next, prev := next[x := None], prev[x := None];
      }
    }

    // ---------- Making, and dooming ----------

    /** A new finalizer goes to the end of the list. */
    method MakeFinalizer(f: nat) returns (x: nat)
      requires Valid()
      modifies this`next, this`prev, this`callee, this`count, this`live, this`made, this`acts
      ensures Valid() && live == old(live) + [x] && x == old(count) && count == old(count) + 1
      ensures callee == old(callee)[x := Some(f)] && x !in old(made) && made == old(made)[x := f]
      ensures acts == old(acts) + [Make(f)]
    {
      hide *;
      x := count;
      RingFacts();
      OrderFacts();
      ghost var n, p, l, before, m := next, prev, live, callee, made;
      count := count + 1;
      callee, made, acts := callee[x := Some(f)], made[x := f], acts + [Make(f)];
      Insert(LIVE, x);
      InsertTwo(n, p, LIVE, live, DOOMED, doomed, x, next, prev);
      live := live + [x];
      HaveStill(l + doomed, x, f, before, m);
      Made(l, x, f, m);
    }

    lemma RingFacts()
      requires Valid()
      ensures TwoRings(next, prev, LIVE, live, DOOMED, doomed)
      ensures LIVE in prev && prev[LIVE].Some? && DOOMED in prev && prev[DOOMED].Some?
      ensures LIVE in next && next[LIVE] == Some(if live == [] then LIVE else live[0])
      ensures DOOMED in next && next[DOOMED] == Some(if doomed == [] then DOOMED else doomed[0])
      ensures forall x :: x in live || x in doomed ==>
        2 <= x < count && HasFunction(x) && x in callee && x in made && callee[x] == Some(made[x])
      ensures forall x :: x in made ==> x < count
    {
      LinkedHead(next, prev, LIVE, live);
      LinkedHead(next, prev, DOOMED, doomed);
    }

    lemma OrderFacts()
      requires Valid()
      ensures queued == Ran(calls) + [] + doomed && Distinct(queued) && 2 <= count
      ensures forall c :: c in calls ==> c.finalizer in made && c.callee == made[c.finalizer]
      ensures forall x :: x in live ==> x !in queued
      ensures forall x :: x in queued ==> x < count
      ensures LIVE !in live && LIVE !in doomed && DOOMED !in live && DOOMED !in doomed && Distinct(live)
      ensures count != LIVE && count != DOOMED && count !in live && count !in doomed
    {
    }

    lemma Made(l: seq<nat>, x: nat, f: nat, m: map<nat, nat>)
      requires count == x + 1 && 2 <= x && live == l + [x]
      requires TwoRings(next, prev, LIVE, live, DOOMED, doomed)
      requires queued == Ran(calls) + [] + doomed && Distinct(queued)
      requires forall c :: c in calls ==> c.finalizer in m && c.callee == m[c.finalizer]
      requires forall y :: y in l ==> y !in queued
      requires forall y :: y in queued ==> y < x
      requires forall y :: y in l || y in doomed ==> 2 <= y < x && HasFunction(y)
      requires made == m[x := f] && forall y :: y in m ==> y < x
      requires x in callee && callee[x] == Some(f)
      ensures Valid()
    {
      hide TwoRings, Ran, Distinct;
    }

    lemma HaveStill(l: seq<nat>, x: nat, f: nat, before: map<nat, Option<nat>>, m: map<nat, nat>)
      requires callee == before[x := Some(f)] && made == m[x := f]
      requires forall y :: y in l ==> y in before && y in m && before[y] == Some(m[y])
      ensures forall y :: y in l ==> HasFunction(y)
    {
    }

    /** Moves the k-th finalizer to the end of the doomed ones. */
    method Doom(ghost k: nat, x: nat)
      requires Valid() && k < |live| && x == live[k]
      modifies this`next, this`prev, this`live, this`doomed, this`queued
      ensures Valid() && live == old(live)[..k] + old(live)[k + 1..]
      ensures doomed == old(doomed) + [x] && queued == old(queued) + [x]
    {
      hide *;
      RingFacts();
      OrderFacts();
      MemberFacts(k);
      ghost var n, p, l, q, d := next, prev, live, queued, doomed;
      Unchain(x);
      ghost var n', p' := next, prev;
      RemoveTwo(n, p, LIVE, l, DOOMED, doomed, k, n', p');
      NotTwice(l, k);
      live := l[..k] + l[k + 1..];
      Swapped(n', p', LIVE, live, DOOMED, doomed);
      HeadFacts(DOOMED, doomed, LIVE, live);
      Insert(DOOMED, x);
      InsertTwo(n', p', DOOMED, doomed, LIVE, live, x, next, prev);
      doomed := doomed + [x];
      queued := queued + [x];
      Swapped(next, prev, DOOMED, doomed, LIVE, live);
      Doomed(l, k, x, q, d);
    }

    lemma MemberFacts(k: nat)
      requires Valid() && k < |live|
      ensures var x := live[k];
        && x in next && x in prev && next[x].Some? && prev[x].Some? && next[x].value != x && prev[x].value != x
        && next[x].value == (if k + 1 < |live| then live[k + 1] else LIVE)
        && x != LIVE && x != DOOMED && x !in doomed && x !in queued && 2 <= x < count && HasFunction(x)
    {
      LinkedMember(next, prev, LIVE, live, k);
    }

    lemma HeadFacts(h: nat, s: seq<nat>, o: nat, t: seq<nat>)
      requires TwoRings(next, prev, h, s, o, t)
      ensures h in prev && prev[h].Some?
    {
      LinkedHead(next, prev, h, s);
    }

    lemma Doomed(l: seq<nat>, k: nat, x: nat, q: seq<nat>, d: seq<nat>)
      requires k < |l| && x == l[k] && live == l[..k] + l[k + 1..] && x !in live && x !in q
      requires doomed == d + [x] && queued == q + [x] && q == Ran(calls) + [] + d && Distinct(q)
      requires forall c :: c in calls ==> c.finalizer in made && c.callee == made[c.finalizer]
      requires forall y :: y in made ==> y < count
      requires TwoRings(next, prev, LIVE, live, DOOMED, doomed)
      requires forall y :: y in l ==> y !in q
      requires forall y :: y in q ==> y < count
      requires 2 <= count && forall y :: y in l || y in d ==> 2 <= y < count && HasFunction(y)
      ensures Valid()
    {
      hide *;
      DistinctJoin(q, [x]);
      assert queued == Ran(calls) + [] + doomed;
      DoomedHas(l, k, x, q, d);
      Combine();
    }

    lemma DoomedHas(l: seq<nat>, k: nat, x: nat, q: seq<nat>, d: seq<nat>)
      requires k < |l| && x == l[k] && x !in live
      requires live == l[..k] + l[k + 1..] && doomed == d + [x] && queued == q + [x]
      requires forall y :: y in l ==> y !in q
      requires forall y :: y in q ==> y < count
      requires forall y :: y in l || y in d ==> 2 <= y < count && HasFunction(y)
      ensures forall y :: y in live || y in doomed ==> 2 <= y < count && HasFunction(y)
      ensures (forall y :: y in live ==> y !in queued) && forall y :: y in queued ==> y < count
    {
      hide *;
      assert x in l;
      forall y | y in live
        ensures y in l
      {
        assert y in l[..k] || y in l[k + 1..];
      }
      assert forall y :: y in doomed ==> y in d || y == x;
      assert forall y :: y in queued ==> y in q || y == x;
    }

    lemma Combine()
      requires TwoRings(next, prev, LIVE, live, DOOMED, doomed) && 2 <= count
      requires forall y :: y in live || y in doomed ==> 2 <= y < count && HasFunction(y)
      requires queued == Ran(calls) + [] + doomed && Distinct(queued)
      requires forall c :: c in calls ==> c.finalizer in made && c.callee == made[c.finalizer]
      requires forall y :: y in live ==> y !in queued
      requires (forall y :: y in queued ==> y < count) && forall y :: y in made ==> y < count
      ensures Valid()
    {
      hide TwoRings, Distinct, Ran;
    }

    /** Dooms the live finalizers that are not reachable, in order; the others stay in order. */
    method QueueDoomed(reachable: set<nat>)
      requires Valid()
      modifies this`next, this`prev, this`live, this`doomed, this`queued
      ensures Valid() && live == Reachable(old(live), reachable)
      ensures doomed == old(doomed) + Unreachable(old(live), reachable)
      ensures queued == old(queued) + Unreachable(old(live), reachable)
    {
      hide *;
      RingFacts();
      ghost var kept, done, rest: seq<nat> := [], [], live;
      NoneYet(reachable, live, doomed, queued);
      var x := next[LIVE].value;
      while x != LIVE
        invariant Valid() && live == kept + rest && old(live) == done + rest && kept == Reachable(done, reachable)
        invariant x == if rest == [] then LIVE else rest[0]
        invariant doomed == old(doomed) + Unreachable(done, reachable)
        invariant queued == old(queued) + Unreachable(done, reachable)
        decreases rest
      {
        MemberFacts(|kept|);
        assert live[|kept|] == rest[0] == x;
        OneMoreDone(done, x, reachable);
        var after := next[x].value;
        RestFacts(kept, rest);
        if x !in reachable && callee[x].Some? {
          Doom(|kept|, x);
          assert live == kept + rest[1..];
        } else {
          kept := kept + [x];
          assert kept + rest[1..] == live;
        }
        assert old(live) == (done + [x]) + rest[1..];
        done, rest := done + [x], rest[1..];
        x := after;
      }
      AllDone(kept, rest, done);
    }

    lemma NoneYet(m: set<nat>, l: seq<nat>, d: seq<nat>, q: seq<nat>)
      ensures Reachable([], m) == [] && Unreachable([], m) == [] && d + [] == d && q + [] == q && [] + l == l
    {
    }

    lemma OneMoreDone(done: seq<nat>, x: nat, m: set<nat>)
      ensures Reachable(done + [x], m) == Reachable(done, m) + if x in m then [x] else []
      ensures Unreachable(done + [x], m) == Unreachable(done, m) + if x in m then [] else [x]
    {
      assert (done + [x])[..|done|] == done;
    }

    /** The link of the first of the rest leads to the one after it. */
    lemma RestFacts(kept: seq<nat>, rest: seq<nat>)
      requires Valid() && live == kept + rest && rest != []
      ensures rest[0] in next && next[rest[0]] == Some(if rest[1..] == [] then LIVE else rest[1..][0])
      ensures live[..|kept|] + live[|kept| + 1..] == kept + rest[1..]
      ensures rest[0] in callee && callee[rest[0]].Some?
    {
      assert live[|kept|] == rest[0];
      LinkedMember(next, prev, LIVE, live, |kept|);
      assert rest[0] in live;
    }

    lemma AllDone(kept: seq<nat>, rest: seq<nat>, done: seq<nat>)
      requires Valid() && live == kept + rest && (rest == [] || rest[0] == LIVE)
      ensures rest == [] && kept + rest == kept && done + rest == done
    {
    }

    // ---------- Running ----------

    /** Takes the first doomed finalizer off its list, and its function out of it. */
    method TakeDoomed(x: nat) returns (f: Option<nat>)
      requires Valid() && doomed != [] && x == doomed[0]
      modifies this`next, this`prev, this`callee, this`doomed
      ensures x in old(callee) && f == old(callee)[x] && f.Some? && Calling(x, f.value)
      ensures doomed == old(doomed)[1..] && callee == old(callee)[x := None]
    {
      hide *;
      RingFacts();
      OrderFacts();
      FirstFacts();
      ghost var n, p, d, before := next, prev, doomed, callee;
      Swapped(n, p, LIVE, live, DOOMED, d);
      Unchain(x);
      RemoveTwo(n, p, DOOMED, d, LIVE, live, 0, next, prev);
      f := callee[x];
      callee := callee[x := None];
      doomed := d[1..];
      Taken(x, d, before);
    }

    lemma FirstFacts()
      requires Valid() && doomed != []
      ensures var x := doomed[0];
        && x in next && x in prev && next[x].Some? && prev[x].Some? && next[x].value != x && prev[x].value != x
        && x in callee && x in made && callee[x] == Some(made[x]) && x !in live
    {
      LinkedMember(next, prev, DOOMED, doomed, 0);
      assert doomed[0] in doomed;
    }

    lemma Taken(x: nat, d: seq<nat>, before: map<nat, Option<nat>>)
      requires d != [] && x == d[0] && x !in live && doomed == d[1..] && queued == Ran(calls) + [] + d
      requires Distinct(queued) && x in made && forall c :: c in calls ==>
        c.finalizer in made && c.callee == made[c.finalizer]
      requires TwoRings(next, prev, DOOMED, d[..0] + d[1..], LIVE, live)
      requires callee == before[x := None] && forall y :: y in live || y in d ==>
        2 <= y < count && y in before && y in made && before[y] == Some(made[y])
      requires forall y :: y in live ==> y !in queued
      requires 2 <= count && (forall y :: y in queued ==> y < count) && forall y :: y in made ==> y < count
      ensures Calling(x, made[x])
    {
      hide *;
      assert d[..0] + d[1..] == d[1..];
      Swapped(next, prev, DOOMED, d[1..], LIVE, live);
      assert d == [x] + d[1..];
      assert queued == Ran(calls) + [x] + d[1..];
      TakenHas(x, d, before);
      Assemble(x);
    }

    lemma TakenHas(x: nat, d: seq<nat>, before: map<nat, Option<nat>>)
      requires d != [] && x == d[0] && x !in live && queued == Ran(calls) + [] + d && Distinct(queued)
      requires callee == before[x := None]
      requires forall y :: y in live || y in d ==>
        2 <= y < count && y in before && y in made && before[y] == Some(made[y])
      ensures forall y :: y in live || y in d[1..] ==> 2 <= y < count && HasFunction(y)
    {
      hide Ran;
      forall k | 1 <= k < |d|
        ensures d[k] != x
      {
        assert queued[|Ran(calls)|] == x && queued[|Ran(calls)| + k] == d[k];
      }
      forall y | y in live || y in d[1..]
        ensures y != x && (y in live || y in d)
      {
        if y in d[1..] {
          var k: nat :| k < |d| - 1 && d[1..][k] == y;
          assert d[k + 1] == y;
        }
      }
    }

    lemma Assemble(x: nat)
      requires TwoRings(next, prev, LIVE, live, DOOMED, doomed) && 2 <= count && x in made
      requires forall y :: y in live || y in doomed ==> 2 <= y < count && HasFunction(y)
      requires queued == Ran(calls) + [x] + doomed && Distinct(queued)
      requires forall c :: c in calls ==> c.finalizer in made && c.callee == made[c.finalizer]
      requires forall y :: y in live ==> y !in queued
      requires (forall y :: y in queued ==> y < count) && forall y :: y in made ==> y < count
      ensures Calling(x, made[x])
    {
      hide TwoRings, Distinct, Ran;
    }

    /** Calls the function f of a finalizer that was taken off its list.  What the function does, the
        script says; errors end it like a return.  It uses up one event at least, and so do the calls
        of other functions that it brings about, as long as there are any. */
    method CallFunction(x: nat, f: nat)
      requires Calling(x, f)
      modifies this
      ensures Valid() && old(calls) + [Call(x, f)] <= calls && old(queued) <= queued
      ensures forall y :: y in old(made) ==> y in made && made[y] == old(made)[y]
      ensures script == [] || |script| + |calls| <= |old(script)| + |old(calls)|
      ensures Used(old(script), old(acts), script, acts)
      ensures |script| <= |old(script)| && (old(script) != [] ==> |script| < |old(script)|)
      ensures old(script) == [] ==> doomed == old(doomed) && queued == old(queued)
      decreases |script|, 1
    {
      hide *;
      Log(x, f);
      UsedNone(script, acts);
      while |script| > 0
        invariant Valid() && old(queued) <= queued && old(calls) + [Call(x, f)] <= calls
        invariant forall y :: y in old(made) ==> y in made && made[y] == old(made)[y]
        invariant |script| <= |old(script)| && Used(old(script), old(acts), script, acts)
        invariant if |script| == |old(script)| then
            |calls| == |old(calls)| + 1 && doomed == old(doomed) && queued == old(queued)
          else script == [] || |script| + |calls| <= |old(script)| + |old(calls)|
        decreases |script|
      {
        var e := script[0];
        UsedOne(old(script), old(acts), script, acts);
        NextEvent();
        if e.Return? {
          assert acts + [] == acts;
          return;
        } else if e.Make? {
          var _ := MakeFinalizer(e.callee);
        } else {
          ghost var script1, acts1 := script, acts + [e];
          CollectGarbage(e.reachable);
          UsedMore(old(script), old(acts), script1, acts1, script, acts);
        }
      }
    }

    /** The call is on record. */
    ghost method Log(x: nat, f: nat)
      requires Calling(x, f)
      modifies this`calls
      ensures Valid() && calls == old(calls) + [Call(x, f)]
    {
      RanMore(calls, Call(x, f));
      hide Ran, TwoRings;
      calls := calls + [Call(x, f)];
      assert Ran(calls) + [] + doomed == Ran(old(calls)) + [x] + doomed;
    }

    method NextEvent()
      requires Valid() && script != []
      modifies this`script
      ensures Valid() && script == old(script)[1..]
    {
      script := script[1..];
    }

    /** Calls the functions of the doomed finalizers, first to last, until none is left; a function
        that collects calls those of what is left itself.  In the end every finalizer that was ever
        doomed had its function called, once, in order, and as it was made. */
    method RunFinalizers()
      requires Valid()
      modifies this
      ensures Valid() && doomed == [] && Distinct(queued) && |calls| == |queued|
      ensures forall i :: 0 <= i < |calls| ==> queued[i] in made && calls[i] == Call(queued[i], made[queued[i]])
      ensures old(queued) <= queued && old(calls) <= calls
      ensures forall y :: y in old(made) ==> y in made && made[y] == old(made)[y]
      ensures script == [] || |script| + |calls| <= |old(script)| + |old(calls)|
      ensures |script| <= |old(script)| && Used(old(script), old(acts), script, acts)
      decreases |script|, 2
    {
      hide *;
      RingFacts();
      OrderFacts();
      UsedNone(script, acts);
      while next[DOOMED] != Some(DOOMED)
        invariant Valid() && old(queued) <= queued && old(calls) <= calls
        invariant forall y :: y in old(made) ==> y in made && made[y] == old(made)[y]
        invariant script == [] || |script| + |calls| <= |old(script)| + |old(calls)|
        invariant |script| <= |old(script)| && Used(old(script), old(acts), script, acts)
        invariant DOOMED in next && next[DOOMED] == Some(if doomed == [] then DOOMED else doomed[0])
        invariant DOOMED !in doomed
        decreases |script|, |doomed|
      {
        var x := next[DOOMED].value;
        var f := TakeDoomed(x);
        if f.Some? {
          ghost var script1, acts1 := script, acts;
          CallFunction(x, f.value);
          UsedMore(old(script), old(acts), script1, acts1, script, acts);
        }
        RingFacts();
        OrderFacts();
      }
      NoneDoomed();
    }

    lemma NoneDoomed()
      requires Valid() && DOOMED in next && next[DOOMED] == Some(DOOMED)
      ensures doomed == [] && Distinct(queued) && |calls| == |queued|
      ensures forall i :: 0 <= i < |calls| ==> queued[i] in made && calls[i] == Call(queued[i], made[queued[i]])
    {
      LinkedHead(next, prev, DOOMED, doomed);
      assert queued == Ran(calls);
      hide TwoRings;
      forall i | 0 <= i < |calls|
        ensures queued[i] in made && calls[i] == Call(queued[i], made[queued[i]])
      {
        assert calls[i] in calls;
      }
    }

    ghost method Record(e: Event)
      requires Valid()
      modifies this`acts
      ensures Valid() && acts == old(acts) + [e]
    {
      acts := acts + [e];
    }

    /** A collection: the finalizers that are not reachable are doomed, behind those that still
        wait, and then all functions are called. */
    method CollectGarbage(reachable: set<nat>)
      requires Valid()
      modifies this
      ensures Valid() && doomed == [] && Distinct(queued) && |calls| == |queued|
      ensures forall i :: 0 <= i < |calls| ==> queued[i] in made && calls[i] == Call(queued[i], made[queued[i]])
      ensures old(queued) + Unreachable(old(live), reachable) <= queued && old(calls) <= calls
      ensures forall y :: y in old(made) ==> y in made && made[y] == old(made)[y]
      ensures script == [] || |script| + |calls| <= |old(script)| + |old(calls)|
      ensures |script| <= |old(script)| && Used(old(script), old(acts) + [Collect(reachable)], script, acts)
      decreases |script|, 3
    {
      hide *;
      Record(Collect(reachable));
      QueueDoomed(reachable);
      RunFinalizers();
    }
  }
}
