/** The marking phase of the garbage collector: an explicit stack of values still to be
    visited, whose entries are single values or ranges of values. */
module MarkStack {
  import opened Lists
  import opened MarkGraph

  /** A range is never empty; its values are consumed from the left. */
  datatype Entry = One(value: Value) | Range(values: seq<Value>)

  ghost function Held(e: Entry): set<Value> {
    if e.One? then {e.value} else Of(e.values)
  }

  /** The values an entry still holds. */
  ghost function Size(e: Entry): nat { if e.One? then 1 else |e.values| }

  ghost function Pending(s: seq<Entry>): set<Value> {
    if s == [] then {} else Pending(s[..|s| - 1]) + Held(s[|s| - 1])
  }

  ghost function Work(s: seq<Entry>): nat {
    if s == [] then 0 else Work(s[..|s| - 1]) + Size(s[|s| - 1])
  }

  /** The values on the stack, in the order in which they are popped. */
  ghost function Flat(s: seq<Entry>): seq<Value> {
    if s == [] then []
    else (if s[|s| - 1].One? then [s[|s| - 1].value] else s[|s| - 1].values) + Flat(s[..|s| - 1])
  }

  /** A range entry stands for its values, one by one. */
  lemma {:induction false} FlatIsPending(s: seq<Entry>)
    ensures Of(Flat(s)) == Pending(s) && |Flat(s)| == Work(s)
  {
    if s != [] { FlatIsPending(s[..|s| - 1]); }
  }

  /** Changes to the top of the stack, seen from a base below it. */
  lemma Pushed(s: seq<Entry>, e: Entry, base: nat)
    requires base <= |s|
    ensures var t := s + [e];
      && t[..base] == s[..base]
      && Pending(t[base..]) == Held(e) + Pending(s[base..]) && Work(t[base..]) == Work(s[base..]) + Size(e)
  {
    var t := (s + [e])[base..];
    assert t[..|t| - 1] == s[base..];
  }

  /** The value that comes off an entry, and what the entry leaves. */
  lemma PopParts(rest: seq<Entry>, e: Entry, base: nat)
    requires base <= |rest| && (e.Range? ==> e.values != [])
    ensures (rest + [e])[..base] == rest[..base]
    ensures e.One? ==>
        Pending((rest + [e])[base..]) == {e.value} + Pending(rest[base..])
          && Work((rest + [e])[base..]) == 1 + Work(rest[base..])
    ensures e.Range? && |e.values| == 1 ==>
        Pending((rest + [e])[base..]) == {e.values[0]} + Pending(rest[base..])
          && Work((rest + [e])[base..]) == 1 + Work(rest[base..])
    ensures e.Range? && |e.values| > 1 ==>
        && (rest + [Range(e.values[1..])])[..base] == rest[..base]
        && Pending((rest + [e])[base..]) == {e.values[0]} + Pending((rest + [Range(e.values[1..])])[base..])
        && Work((rest + [e])[base..]) == 1 + Work((rest + [Range(e.values[1..])])[base..])
  {
    Pushed(rest, e, base);
    if e.Range? && |e.values| > 1 {
      var e' := Range(e.values[1..]);
      Pushed(rest, e', base);
      hide Pending, Work;
      assert Held(e) == {e.values[0]} + Held(e');
    }
  }

  ghost predicate StackOk(g: Graph, s: seq<Entry>) {
    forall e :: e in s ==> (forall v :: v in Held(e) ==> g.IsA(v)) && (e.Range? ==> e.values != [])
  }

  ghost function OptValue(v: Option<Value>): set<Value> { if v.None? then {} else {v.value} }

  ghost function OptRef(a: Option<Addr>): set<Value> { if a.None? then {} else {Ref(a.value)} }

  lemma SetSmaller(s: set<Addr>, t: set<Addr>)
    requires s <= t
    ensures |s| <= |t| && (s != t ==> |s| < |t|)
  {
    if s != t {
      var x :| x in t && x !in s;
      SubsetSize(s, t - {x});
    } else {
    }
  }

  /** Some values marked first, and then the rest. */
  lemma FinalSplit(g: Graph, m: set<Addr>, vs: set<Value>, m': set<Addr>, ws: set<Value>)
    requires m' == Final(g, m, vs)
    ensures Final(g, m', ws) == Final(g, m, vs + ws) && m <= m'
  {
    FinalJoin(g, m, vs, ws);
  }

  /** The objects that nested calls take apart. */
  predicate Special(o: Obj) {
    o.Str? || o.CharTable? || o.Overlay? || o.Frame? || o.Window? || o.Buffer?
  }

  /** The slots of a vector-like object. */
  function Slots(o: Obj): seq<Value>
    requires o.Frame? || o.Window? || o.Buffer?
  {
    o.contents
  }

  class Marker {
    const g: Graph
    var marked: set<Addr>
    var stack: seq<Entry>
    var weak: seq<Addr>   // the weak tables met so far, linked for later

    ghost predicate Valid()
      reads this
    {
      g.Valid() && StackOk(g, stack) && MarksOk()
    }

    ghost predicate MarksOk()
      reads this`marked, this`weak
    {
      && (forall a :: a in marked ==> g.Markable(a))
      && (forall a :: a in weak <==> a in marked && g.objs[a].WeakTable?)
      && (forall i, j :: 0 <= i < j < |weak| ==> weak[i] != weak[j])
    }

    constructor (g: Graph)
      requires g.Valid()
      ensures Valid() && this.g == g && marked == {} && stack == [] && weak == []
    {
      this.g, marked, stack, weak := g, {}, [], [];
    }

    ghost function Unmarked(): nat
      reads this`marked
    {
      |g.objs.Keys - marked|
    }

    lemma FewerUnmarked(m: set<Addr>)
      requires m <= marked
      ensures |g.objs.Keys - marked| <= |g.objs.Keys - m|
      ensures (exists a :: a in g.objs && a in marked && a !in m) ==> |g.objs.Keys - marked| < |g.objs.Keys - m|
    {
      SetSmaller(g.objs.Keys - marked, g.objs.Keys - m);
    }

    // ---------- The stack ----------

    method Pop(ghost base: nat) returns (v: Value)
      requires base < |stack| && Valid()
      modifies this`stack
      ensures base <= |stack| && stack[..base] == old(stack)[..base] && Valid() && g.IsA(v)
      ensures Pending(old(stack)[base..]) == {v} + Pending(stack[base..])
      ensures Work(old(stack)[base..]) == 1 + Work(stack[base..])
    {
      hide *;
      var e := stack[|stack| - 1];
      var rest := stack[..|stack| - 1];
      assert stack == rest + [e];
      TopOk(rest, e);
      PopParts(rest, e, base);
      if e.One? {
        stack := rest;
        v := e.value;
      } else {
        v := e.values[0];
        if |e.values| == 1 {
          stack := rest;
        } else {
          stack := rest + [Range(e.values[1..])];
        }
      }
      StackMade();
    }

    lemma TopOk(rest: seq<Entry>, e: Entry)
      requires Valid() && stack == rest + [e]
      ensures g.Valid() && MarksOk() && StackOk(g, rest)
      ensures e.One? ==> g.IsA(e.value)
      ensures e.Range? ==> e.values != [] && g.IsA(e.values[0])
      ensures e.Range? && |e.values| > 1 ==> StackOk(g, rest + [Range(e.values[1..])])
    {
      assert e in stack;
      assert e.One? ==> e.value in Held(e);
      assert e.Range? ==> forall i :: 0 <= i < |e.values| ==> e.values[i] in Held(e);
    }

    lemma StackMade()
      requires g.Valid() && MarksOk() && StackOk(g, stack)
      ensures Valid()
    {
    }

    method PushValue(v: Value, ghost base: nat)
      requires base <= |stack| && Valid() && g.IsA(v)
      modifies this`stack
      ensures base <= |stack| && stack[..base] == old(stack)[..base] && Valid()
      ensures Pending(stack[base..]) == {v} + Pending(old(stack)[base..])
    {
      Pushed(stack, One(v), base);
      stack := stack + [One(v)];
    }

    method PushValues(vs: seq<Value>, ghost base: nat)
      requires base <= |stack| && Valid() && forall v :: v in vs ==> g.IsA(v)
      modifies this`stack
      ensures base <= |stack| && stack[..base] == old(stack)[..base] && Valid()
      ensures Pending(stack[base..]) == Of(vs) + Pending(old(stack)[base..])
      ensures vs == [] ==> stack == old(stack)
    {
      if |vs| == 0 { return; }
      Pushed(stack, Range(vs), base);
      stack := stack + [Range(vs)];
    }

    // ---------- Marking ----------

    lemma KidsOk(a: Addr)
      requires Valid() && a in g.objs
      ensures forall v :: v in g.Kids(a) ==> g.IsA(v)
      ensures g.objs[a].Symbol? ==> g.Markable(g.objs[a].name) && g.objs[g.objs[a].name].Str?
      ensures g.objs[a].Symbol? && g.objs[a].next.Some? ==>
        g.Markable(g.objs[a].next.value) && g.objs[g.objs[a].next.value].Symbol?
      ensures g.objs[a].Buffer? && g.objs[a].base.Some? ==>
        g.Markable(g.objs[a].base.value) && g.objs[g.objs[a].base.value].Buffer?
      ensures g.objs[a].Window? ==> forall v :: v in g.objs[a].glyphs ==> g.IsA(v)
    {
    }

    /** Marks the values on the stack above base; the stack below base is left alone. */
    method ProcessMarkStack(base: nat)
      requires Valid() && base <= |stack|
      modifies this
      ensures Valid() && stack == old(stack)[..base] && old(marked) <= marked
      ensures marked == Final(g, old(marked), Pending(old(stack)[base..]))
      decreases Unmarked(), 4
    {
      hide Final, Pending, Work, Marker.Valid;
      ghost var goal := Final(g, marked, Pending(stack[base..]));
      ghost var m0 := marked;
      while |stack| > base
        invariant Valid() && base <= |stack| && stack[..base] == old(stack)[..base] && m0 <= marked
        invariant Final(g, marked, Pending(stack[base..])) == goal
        decreases Unmarked(), Work(stack[base..])
      {
        FewerUnmarked(m0);
        ghost var m, w := marked, Work(stack[base..]);
        var obj := Pop(base);
        var next := Some(obj);
        assert OptValue(next) == {obj};
        while next.Some?
          invariant Valid() && base <= |stack| && stack[..base] == old(stack)[..base] && m <= marked
          invariant Final(g, marked, OptValue(next) + Pending(stack[base..])) == goal
          invariant next.Some? ==> g.IsA(next.value)
          invariant if marked == m then Work(stack[base..]) < w else Unmarked() < |g.objs.Keys - m|
          decreases Unmarked(), if next.Some? then 1 else 0
        {
          FewerUnmarked(m0);
          ghost var m1 := marked;
          next := Step(next.value, base);
          FewerUnmarked(m1);
          FewerUnmarked(m);
        }
        assert OptValue(next) + Pending(stack[base..]) == Pending(stack[base..]);
      }
      assert stack[base..] == [];
      EmptyPending();
      FinalNothing(g, marked);
    }

    lemma EmptyPending()
      ensures Pending([]) == {}
    {
    }

    /** Visits one value.  What it refers to is marked, and the values in it are put on the
        stack, marked at once, or, for the car of a cons, handed back. */
    method Step(obj: Value, base: nat) returns (next: Option<Value>)
      requires Valid() && base <= |stack| && g.IsA(obj)
      modifies this
      ensures Valid() && base <= |stack| && stack[..base] == old(stack)[..base] && old(marked) <= marked
      ensures next.Some? ==> g.IsA(next.value)
      ensures Final(g, marked, OptValue(next) + Pending(stack[base..]))
        == Final(g, old(marked), {obj} + Pending(old(stack)[base..]))
      ensures if marked == old(marked) then stack == old(stack) && next.None? else Progress(old(marked))
      decreases Unmarked(), 3
    {
      hide Final, Pending, Work, Marker.Valid;
      next := None;
      ghost var rest := Pending(stack[base..]);
      assert OptValue(next) + rest == rest;
      if !obj.Ref? || obj.a in marked || g.objs[obj.a].Subr? {
        FinalSkip(g, marked, obj, rest);
        return;
      }
      var a := obj.a;
      KidsOk(a);
      var o := g.objs[a];
      if o.Symbol? {
        MarkSymbols(a, base);
      } else if o.Cons? {
        next := MarkCons(a, base);
      } else if o.Vector? {
        FinalVisit(g, marked, a, rest);
        Mark(a);
        PushValues(o.contents, base);
      } else {
        FinalSplit(g, marked, {obj}, Final(g, marked, {obj}), rest);
        if Special(o) { MarkSpecial(a); } else { MarkLeaf(a); }
      }
    }

    /** The cdr waits on the stack, unless it is nil; the car is next. */
    method MarkCons(a: Addr, base: nat) returns (next: Option<Value>)
      requires Valid() && base <= |stack| && g.Markable(a) && g.objs[a].Cons? && a !in marked
      modifies this
      ensures Valid() && base <= |stack| && stack[..base] == old(stack)[..base] && Progress(old(marked))
      ensures next.Some? && g.IsA(next.value)
      ensures Final(g, marked, OptValue(next) + Pending(stack[base..]))
        == Final(g, old(marked), {Ref(a)} + Pending(old(stack)[base..]))
    {
      hide Final, Pending, Marker.Valid;
      KidsOk(a);
      ghost var rest := Pending(stack[base..]);
      FinalVisit(g, marked, a, rest);
      Mark(a);
      if g.objs[a].cdr != Ref(g.nil) { PushValue(g.objs[a].cdr, base); }
      next := Some(g.objs[a].car);
      assert g.Kids(a) + rest == OptValue(next) + Pending(stack[base..]);
    }

    /** A float, a bool-vector, or a weak table: nothing in it is followed. */
    method MarkLeaf(a: Addr)
      requires Valid() && g.Markable(a) && a !in marked && g.Kids(a) == {}
      modifies this`marked, this`weak
      ensures Valid() && marked == Final(g, old(marked), {Ref(a)}) && Progress(old(marked))
    {
      hide Final, Marker.Valid;
      VisitAlone(marked, a);
      FinalNothing(g, marked + {a});
      Mark(a);
    }

    method Mark(a: Addr)
      requires Valid() && g.Markable(a) && a !in marked
      modifies this`marked, this`weak
      ensures Valid() && marked == old(marked) + {a} && Progress(old(marked))
    {
      ghost var m := marked;
      marked := marked + {a};
      if g.objs[a].WeakTable? { weak := [a] + weak; }
      FewerUnmarked(m);
    }

    /** More objects are marked than there were. */
    ghost predicate Progress(m: set<Addr>)
      reads this`marked
    {
      m <= marked && m != marked && Unmarked() < |g.objs.Keys - m|
    }

    /** A symbol, and the symbols that follow it in its bucket up to a marked one. */
    method MarkSymbols(a: Addr, base: nat)
      requires Valid() && base <= |stack| && g.Markable(a) && g.objs[a].Symbol? && a !in marked
      modifies this
      ensures Valid() && base <= |stack| && stack[..base] == old(stack)[..base] && Progress(old(marked))
      ensures Final(g, marked, Pending(stack[base..])) == Final(g, old(marked), {Ref(a)} + Pending(old(stack)[base..]))
      decreases Unmarked(), 2
    {
      hide Final, Pending, Marker.Valid;
      ghost var goal := Final(g, marked, {Ref(a)} + Pending(stack[base..]));
      ghost var m0 := marked;
      var ptr := Some(a);
      while ptr.Some? && ptr.value !in marked
        invariant Valid() && base <= |stack| && stack[..base] == old(stack)[..base]
        invariant (marked == m0 && ptr == Some(a)) || Progress(m0)
        invariant ptr.Some? ==> g.Markable(ptr.value) && g.objs[ptr.value].Symbol?
        invariant Final(g, marked, OptRef(ptr) + Pending(stack[base..])) == goal
        decreases Unmarked()
      {
        ghost var m := marked;
        KidsOk(ptr.value);
        ptr := MarkSymbol(ptr.value, base);
        FewerUnmarked(m0);
        FewerUnmarked(m);
      }
      ghost var rest := Pending(stack[base..]);
      if ptr.Some? { FinalSkip(g, marked, Ref(ptr.value), rest); }
      assert ptr.None? ==> OptRef(ptr) + rest == rest;
    }

    method MarkSymbol(a: Addr, base: nat) returns (next: Option<Addr>)
      requires Valid() && base <= |stack| && g.Markable(a) && g.objs[a].Symbol? && a !in marked
      modifies this
      ensures Valid() && base <= |stack| && stack[..base] == old(stack)[..base] && Progress(old(marked))
      ensures Final(g, marked, OptRef(next) + Pending(stack[base..]))
        == Final(g, old(marked), {Ref(a)} + Pending(old(stack)[base..]))
      ensures next == g.objs[a].next
      decreases Unmarked(), 1
    {
      hide Final, Pending, Marker.Valid;
      ghost var m0 := marked;
      ghost var rest := Pending(stack[base..]);
      FinalVisit(g, marked, a, rest);
      Mark(a);
      ghost var m1 := marked;
      var s := g.objs[a];
      KidsOk(a);
      PushSymbol(s, base);
      ghost var rest' := Pending(stack[base..]);
      next := s.next;
      assert g.Kids(a) + rest == {Ref(s.name)} + (OptRef(next) + rest');
      if s.name !in marked {
        MarkSpecial(s.name);
        FinalSplit(g, m1, {Ref(s.name)}, marked, OptRef(next) + rest');
      } else {
        FinalSkip(g, marked, Ref(s.name), OptRef(next) + rest');
      }
      FewerUnmarked(m0);
    }

    /** The values of a symbol, wherever its value cell is. */
    method PushSymbol(s: Obj, base: nat)
      requires base <= |stack| && Valid() && s.Symbol? && forall v :: v in g.OfSymbol(s) ==> g.IsA(v)
      modifies this`stack
      ensures base <= |stack| && stack[..base] == old(stack)[..base] && Valid()
      ensures Pending(stack[base..]) == g.OfSymbol(s) + Pending(old(stack)[base..])
    {
      hide Pending, Marker.Valid;
      PushValue(s.fn, base);
      PushValue(s.plist, base);
      match s.redirect
      case PlainVal(v) => PushValue(v, base);
      case VarAlias(b) => PushValue(Ref(b), base);
      case Localized(where, valcell, defcell) =>
        PushValue(where, base);
        PushValue(valcell, base);
        PushValue(defcell, base);
      case Forwarded =>
    }

    method MarkObject(obj: Value)
      requires Valid() && g.IsA(obj)
      modifies this
      ensures Valid() && stack == old(stack) && marked == Final(g, old(marked), {obj}) && old(marked) <= marked
      decreases Unmarked(), 5
    {
      hide Final, Pending, Marker.Valid;
      var sp := |stack|;
      assert stack[sp..] == [];
      EmptyPending();
      PushValue(obj, sp);
      assert {obj} + {} == {obj};
      ProcessMarkStack(sp);
    }

    method MarkObjects(objs: seq<Value>)
      requires Valid() && forall v :: v in objs ==> g.IsA(v)
      modifies this
      ensures Valid() && stack == old(stack) && marked == Final(g, old(marked), Of(objs)) && old(marked) <= marked
      decreases Unmarked(), 5
    {
      hide Final, Pending, Marker.Valid;
      var sp := |stack|;
      assert stack[sp..] == [];
      EmptyPending();
      PushValues(objs, sp);
      assert Of(objs) + {} == Of(objs);
      ProcessMarkStack(sp);
    }

    /** One nested marking for each value. */
    method MarkEach(vs: seq<Value>)
      requires Valid() && forall v :: v in vs ==> g.IsA(v)
      modifies this
      ensures Valid() && stack == old(stack) && marked == Final(g, old(marked), Of(vs)) && old(marked) <= marked
      decreases Unmarked(), 6
    {
      hide Final, Marker.Valid;
      ghost var m0 := marked;
      assert Of(vs[..0]) == {};
      FinalNothing(g, marked);
      for i := 0 to |vs|
        invariant Valid() && stack == old(stack) && m0 <= marked && marked == Final(g, m0, Of(vs[..i]))
      {
        FewerUnmarked(m0);
        MarkObject(vs[i]);
        assert vs[..i + 1] == vs[..i] + [vs[i]];
        assert Of(vs[..i + 1]) == Of(vs[..i]) + {vs[i]};
        FinalSplit(g, m0, Of(vs[..i]), Final(g, m0, Of(vs[..i])), {vs[i]});
      }
      assert vs[..|vs|] == vs;
    }

    /** An object whose parts are marked by nested calls. */
    method MarkSpecial(a: Addr)
      requires Valid() && g.Markable(a) && a !in marked && Special(g.objs[a])
      modifies this
      ensures Valid() && stack == old(stack) && marked == Final(g, old(marked), {Ref(a)}) && Progress(old(marked))
      decreases Unmarked(), 2
    {
      hide Final;
      var o := g.objs[a];
      if o.Str? {
        MarkParts(a, o.plists);
      } else if o.CharTable? {
        MarkCharTable(a);
      } else if o.Overlay? {
        MarkParts(a, [o.props]);
      } else if o.Frame? {
        MarkFrame(a);
      } else if o.Window? {
        MarkWindow(a);
      } else {
        MarkBuffer(a);
      }
    }

    /** A string with its intervals, or an overlay. */
    method MarkParts(a: Addr, parts: seq<Value>)
      requires Valid() && g.Markable(a) && a !in marked && g.Kids(a) == Of(parts)
      modifies this
      ensures Valid() && stack == old(stack) && marked == Final(g, old(marked), {Ref(a)}) && Progress(old(marked))
      decreases Unmarked(), 1
    {
      hide Final, Marker.Valid;
      KidsOk(a);
      ghost var m0 := marked;
      VisitAlone(m0, a);
      Mark(a);
      ghost var m1 := marked;
      MarkEach(parts);
      KeepsProgress(m0, m1, Of(parts));
    }

    lemma VisitAlone(m: set<Addr>, a: Addr)
      requires g.Markable(a) && a !in m
      ensures Final(g, m, {Ref(a)}) == Final(g, m + {a}, g.Kids(a))
    {
      FinalVisit(g, m, a, {});
      assert {Ref(a)} + {} == {Ref(a)} && g.Kids(a) + {} == g.Kids(a);
    }

    lemma KeepsProgress(m0: set<Addr>, m1: set<Addr>, vs: set<Value>)
      requires m0 <= m1 && m0 != m1 && |g.objs.Keys - m1| < |g.objs.Keys - m0| && marked == Final(g, m1, vs)
      ensures Progress(m0)
    {
      FewerUnmarked(m1);
    }

    /** Marks the object and what its slots lead to. */
    method MarkVectorlike(a: Addr)
      requires Valid() && g.Markable(a) && a !in marked
      requires g.objs[a].Frame? || g.objs[a].Window? || g.objs[a].Buffer?
      modifies this
      ensures Valid() && stack == old(stack) && Progress(old(marked))
      ensures marked == Final(g, old(marked) + {a}, Of(Slots(g.objs[a])))
      decreases Unmarked(), 0
    {
      hide Final, Marker.Valid;
      KidsOk(a);
      ghost var m0 := marked;
      Mark(a);
      ghost var m1 := marked;
      MarkObjects(Slots(g.objs[a]));
      KeepsProgress(m0, m1, Of(Slots(g.objs[a])));
    }

    method MarkFrame(a: Addr)
      requires Valid() && g.Markable(a) && a !in marked && g.objs[a].Frame?
      modifies this
      ensures Valid() && stack == old(stack) && marked == Final(g, old(marked), {Ref(a)}) && Progress(old(marked))
      decreases Unmarked(), 1
    {
      hide Final, Marker.Valid;
      KidsOk(a);
      VisitAlone(marked, a);
      MarkVectorlike(a);
    }

    /** A window's slots, and the strings displayed in it. */
    method MarkWindow(a: Addr)
      requires Valid() && g.Markable(a) && a !in marked && g.objs[a].Window?
      modifies this
      ensures Valid() && stack == old(stack) && marked == Final(g, old(marked), {Ref(a)}) && Progress(old(marked))
      decreases Unmarked(), 1
    {
      hide Final, Marker.Valid;
      KidsOk(a);
      ghost var m0 := marked;
      VisitAlone(m0, a);
      MarkVectorlike(a);
      ghost var m2 := marked;
      var glyphs := g.objs[a].glyphs;
      ghost var c := Of(Slots(g.objs[a]));
      MarkGlyphs(glyphs);
      WindowKids(a);
      FinalSplit(g, m0 + {a}, c, m2, Strings(glyphs));
      StillProgress(m0, m2);
    }

    /** The strings among the values displayed. */
    method MarkGlyphs(glyphs: seq<Value>)
      requires Valid() && forall v :: v in glyphs ==> g.IsA(v)
      modifies this
      ensures Valid() && stack == old(stack) && marked == Final(g, old(marked), Strings(glyphs))
      ensures old(marked) <= marked
      decreases Unmarked(), 7
    {
      hide Final, Marker.Valid, Marker.Strings;
      ghost var m0 := marked;
      FinalNothing(g, marked);
      StringsNone();
      assert glyphs[..0] == [];
      for i := 0 to |glyphs|
        invariant Valid() && stack == old(stack) && m0 <= marked
        invariant marked == Final(g, m0, Strings(glyphs[..i]))
      {
        FewerUnmarked(m0);
        assert glyphs[..i + 1] == glyphs[..i] + [glyphs[i]];
        StringsOneMore(glyphs[..i], glyphs[i]);
        FinalSplit(g, m0, Strings(glyphs[..i]), marked, if g.IsStr(glyphs[i]) then {glyphs[i]} else {});
        MarkGlyph(glyphs[i]);
      }
      assert glyphs[..|glyphs|] == glyphs;
    }

    method MarkGlyph(v: Value)
      requires Valid() && g.IsA(v)
      modifies this
      ensures Valid() && stack == old(stack) && old(marked) <= marked
      ensures marked == Final(g, old(marked), if g.IsStr(v) then {v} else {})
      decreases Unmarked(), 6
    {
      hide Final, Marker.Valid;
      if g.IsStr(v) {
        if v.a !in marked {
          MarkObject(v);
        } else {
          FinalSkipOne(marked, v);
        }
      } else {
        FinalNothing(g, marked);
      }
    }

    lemma WindowKids(a: Addr)
      requires a in g.objs && g.objs[a].Window?
      ensures g.Kids(a) == Of(Slots(g.objs[a])) + Strings(g.objs[a].glyphs)
    {
    }

    lemma StringsNone()
      ensures Strings([]) == {}
    {
    }

    lemma StillProgress(m0: set<Addr>, m: set<Addr>)
      requires m0 <= m <= marked && m0 != m && |g.objs.Keys - m| < |g.objs.Keys - m0|
      ensures Progress(m0)
    {
      FewerUnmarked(m);
    }

    ghost function Strings(vs: seq<Value>): set<Value> { set v | v in vs && g.IsStr(v) }

    lemma StringsOneMore(vs: seq<Value>, v: Value)
      ensures Strings(vs + [v]) == Strings(vs) + (if g.IsStr(v) then {v} else {})
    {
    }

    lemma FinalSkipOne(m: set<Addr>, v: Value)
      requires v.Ref? ==> v.a in m || !g.Markable(v.a)
      ensures Final(g, m, {v}) == m
    {
      FinalSkip(g, m, v, {});
      FinalNothing(g, m);
      assert {v} + {} == {v};
    }

    /** A char-table: its contents are mostly fixnums and marked symbols, and its own
        sub-tables are marked directly. */
    method MarkCharTable(a: Addr)
      requires Valid() && g.Markable(a) && a !in marked && g.objs[a].CharTable?
      modifies this
      ensures Valid() && stack == old(stack) && marked == Final(g, old(marked), {Ref(a)}) && Progress(old(marked))
      decreases Unmarked(), 1
    {
      hide Final, Marker.Valid;
      KidsOk(a);
      ghost var m0 := marked;
      VisitAlone(m0, a);
      Mark(a);
      ghost var m1 := marked;
      var contents := g.objs[a].contents;
      FinalNothing(g, marked);
      assert Of(contents[..0]) == {};
      for i := 0 to |contents|
        invariant Valid() && stack == old(stack) && m1 <= marked
        invariant marked == Final(g, m1, Of(contents[..i]))
      {
        FewerUnmarked(m1);
        ghost var m := marked;
        var v := contents[i];
        assert v in g.Kids(a);
        assert contents[..i + 1] == contents[..i] + [v];
        assert Of(contents[..i + 1]) == Of(contents[..i]) + {v};
        FinalSplit(g, m1, Of(contents[..i]), m, {v});
        if v.Fixnum? || (v.Ref? && g.objs[v.a].Symbol? && v.a in marked) {
          FinalSkipOne(m, v);
        } else if v.Ref? && g.objs[v.a].CharTable? && g.objs[v.a].sub {
          if v.a in marked { FinalSkipOne(m, v); } else { MarkCharTable(v.a); }
        } else {
          MarkObject(v);
        }
      }
      assert contents[..|contents|] == contents;
      StillProgress(m0, m1);
    }

    lemma BufferKids(a: Addr)
      requires a in g.objs && g.objs[a].Buffer?
      ensures var b := g.objs[a];
        g.Kids(a) == Of(b.contents) + Of(b.plists) + (if b.live then {} else {b.undo}) + Of(b.overlays)
          + (if b.base.Some? then {Ref(b.base.value)} else {})
    {
    }

    /** A buffer: its slots, its intervals, the undo list of a dead one, its overlays and
        its base buffer. */
    method MarkBuffer(a: Addr)
      requires Valid() && g.Markable(a) && a !in marked && g.objs[a].Buffer?
      modifies this
      ensures Valid() && stack == old(stack) && marked == Final(g, old(marked), {Ref(a)}) && Progress(old(marked))
      decreases Unmarked(), 1
    {
      hide Final, Marker.Valid, Graph.Kids;
      KidsOk(a);
      BufferKids(a);
      ghost var m0 := marked;
      var b := g.objs[a];
      VisitAlone(m0, a);
      MarkVectorlike(a);
      ghost var m1, m2 := m0 + {a}, marked;
      ghost var done := Of(b.contents);
      MarkEach(b.plists);
      FinalSplit(g, m1, done, m2, Of(b.plists));
      done := done + Of(b.plists);
      FewerUnmarked(m2);
      if !b.live {
        ghost var m := marked;
        MarkObject(b.undo);
        FinalSplit(g, m1, done, m, {b.undo});
        done := done + {b.undo};
        FewerUnmarked(m2);
      }
      ghost var m := marked;
      MarkEach(b.overlays);
      FinalSplit(g, m1, done, m, Of(b.overlays));
      done := done + Of(b.overlays);
      FewerUnmarked(m2);
      if b.base.Some? {
        m := marked;
        FinalSplit(g, m1, done, m, {Ref(b.base.value)});
        if b.base.value in marked { FinalSkipOne(m, Ref(b.base.value)); } else { MarkBuffer(b.base.value); }
        done := done + {Ref(b.base.value)};
      }
      assert done == g.Kids(a);
      StillProgress(m0, m2);
    }
  }
}
