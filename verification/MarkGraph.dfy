/** The objects that marking visits, and what it must mark: everything reachable through
    objects that are not marked yet. */
module MarkGraph {
  import opened Lists

  /** A cons lives in a numbered block; other objects are only told apart. */
  datatype Addr = Cell(block: nat, i: nat) | Other(id: nat)

  /** A Lisp word: a fixnum, a reference, or the null float that stands for an unused key. */
  datatype Value = Fixnum | Unused | Ref(a: Addr)

  /** Where a symbol's value is. */
  datatype Redirect =
    | PlainVal(value: Value)
    | VarAlias(alias: Addr)
    | Localized(where: Value, valcell: Value, defcell: Value)
    | Forwarded

  datatype Obj =
    | Float
    | Str(plists: seq<Value>)                      // the property lists of its text intervals
    | Cons(car: Value, cdr: Value)
    | Symbol(fn: Value, plist: Value, redirect: Redirect, name: Addr, next: Option<Addr>)
    | Vector(contents: seq<Value>)                 // or a record, an obarray, a strong hash table
    | WeakTable(contents: seq<Value>)
    | BoolVector
    | Subr
    | CharTable(contents: seq<Value>, sub: bool)
    | Overlay(props: Value)
    | Frame(contents: seq<Value>)
    | Window(contents: seq<Value>, glyphs: seq<Value>)
    | Buffer(contents: seq<Value>, plists: seq<Value>, live: bool, undo: Value, overlays: seq<Value>,
      base: Option<Addr>)

  datatype Graph = Graph(objs: map<Addr, Obj>, nil: Addr)
  {
    ghost predicate IsA(v: Value) { v.Ref? ==> v.a in objs }

    /** References lead to objects, of the right kind where one is expected. */
    ghost predicate Valid() {
      forall a :: a in objs ==>
        && (forall v :: v in Kids(a) ==> IsA(v))
        && (objs[a].Symbol? ==>
              && objs[a].name in objs && objs[objs[a].name].Str?
              && (objs[a].next.Some? ==> objs[a].next.value in objs && objs[objs[a].next.value].Symbol?))
        && (objs[a].Buffer? && objs[a].base.Some? ==>
              objs[a].base.value in objs && objs[objs[a].base.value].Buffer?)
        && (objs[a].Window? ==> forall v :: v in objs[a].glyphs ==> IsA(v))
    }

    /** Primitive functions have no mark bit. */
    predicate Markable(a: Addr) { a in objs && !objs[a].Subr? }

    predicate IsStr(v: Value) { v.Ref? && v.a in objs && objs[v.a].Str? }

    ghost function OfSymbol(s: Obj): set<Value>
      requires s.Symbol?
    {
      {s.fn, s.plist}
      + (match s.redirect
         case PlainVal(v) => {v}
         case VarAlias(b) => {Ref(b)}
         case Localized(where, valcell, defcell) => {where, valcell, defcell}
         case Forwarded => {})
    }

    /** The symbol's name, and the next symbol of its bucket. */
    ghost function NameAndNext(s: Obj): set<Value>
      requires s.Symbol?
    {
      {Ref(s.name)} + (if s.next.Some? then {Ref(s.next.value)} else {})
    }

    /** The values that marking follows out of an object.  A nil cdr is not among them, nor is
        anything in a weak table. */
    ghost function Kids(a: Addr): set<Value>
      requires a in objs
    {
      match objs[a]
      case Float => {}
      case Str(plists) => Of(plists)
      case Cons(car, cdr) => {car} + (if cdr == Ref(nil) then {} else {cdr})
      case Symbol(_, _, _, _, _) => OfSymbol(objs[a]) + NameAndNext(objs[a])
      case Vector(contents) => Of(contents)
      case WeakTable(_) => {}
      case BoolVector => {}
      case Subr => {}
      case CharTable(contents, _) => Of(contents)
      case Overlay(props) => {props}
      case Frame(contents) => Of(contents)
      case Window(contents, glyphs) => Of(contents) + set v | v in glyphs && IsStr(v)
      case Buffer(contents, plists, live, undo, overlays, base) =>
        Of(contents) + Of(plists) + (if live then {} else {undo}) + Of(overlays)
        + (if base.Some? then {Ref(base.value)} else {})
    }
  }

  ghost function Of(s: seq<Value>): set<Value> { set v | v in s }

  /** A way through unmarked objects. */
  ghost predicate Path(g: Graph, m: set<Addr>, p: seq<Addr>) {
    && p != []
    && (forall i :: 0 <= i < |p| ==> g.Markable(p[i]) && p[i] !in m)
    && (forall i, j :: 0 <= i < j < |p| && j == i + 1 ==> Ref(p[j]) in g.Kids(p[i]))
  }

  ghost predicate Leads(g: Graph, m: set<Addr>, vs: set<Value>, p: seq<Addr>, a: Addr) {
    Path(g, m, p) && Ref(p[0]) in vs && p[|p| - 1] == a
  }

  /** The unmarked objects reachable from values through unmarked objects. */
  ghost function Reached(g: Graph, m: set<Addr>, vs: set<Value>): set<Addr> {
    set a | a in g.objs && exists p :: Leads(g, m, vs, p, a)
  }

  /** What must be marked when the marking of the values vs ends. */
  ghost function Final(g: Graph, m: set<Addr>, vs: set<Value>): set<Addr> { m + Reached(g, m, vs) }

  lemma Arrive(g: Graph, m: set<Addr>, vs: set<Value>, p: seq<Addr>, a: Addr)
    requires Leads(g, m, vs, p, a)
    ensures a in Reached(g, m, vs)
  {
  }

  lemma Depart(g: Graph, m: set<Addr>, vs: set<Value>, a: Addr) returns (p: seq<Addr>)
    requires a in Reached(g, m, vs)
    ensures Leads(g, m, vs, p, a)
  {
    p :| Leads(g, m, vs, p, a);
  }

  /** A path can be cut at any of its objects. */
  lemma Suffix(g: Graph, m: set<Addr>, p: seq<Addr>, i: nat)
    requires Path(g, m, p) && i < |p|
    ensures Path(g, m, p[i..]) && p[i..][0] == p[i] && p[i..][|p| - i - 1] == p[|p| - 1]
  {
  }

  lemma Joined(g: Graph, m: set<Addr>, p: seq<Addr>, q: seq<Addr>)
    requires Path(g, m, p) && Path(g, m, q) && Ref(q[0]) in g.Kids(p[|p| - 1])
    ensures Path(g, m, p + q) && (p + q)[0] == p[0] && (p + q)[|p + q| - 1] == q[|q| - 1]
  {
  }

  // ---------- The laws of marking ----------

  lemma FinalNothing(g: Graph, m: set<Addr>)
    ensures Final(g, m, {}) == m
  {
  }

  /** A value that refers to nothing, to a marked object or to a primitive adds nothing. */
  lemma FinalSkip(g: Graph, m: set<Addr>, v: Value, vs: set<Value>)
    requires v.Ref? ==> v.a in m || !g.Markable(v.a)
    ensures Final(g, m, {v} + vs) == Final(g, m, vs)
  {
    forall a | a in Reached(g, m, {v} + vs)
      ensures a in Reached(g, m, vs)
    {
      var p := Depart(g, m, {v} + vs, a);
      Arrive(g, m, vs, p, a);
    }
    FinalMonotone(g, m, vs, {v} + vs);
  }

  lemma FinalMonotone(g: Graph, m: set<Addr>, vs: set<Value>, ws: set<Value>)
    requires vs <= ws
    ensures Final(g, m, vs) <= Final(g, m, ws)
  {
    forall a | a in Reached(g, m, vs)
      ensures a in Reached(g, m, ws)
    {
      var p := Depart(g, m, vs, a);
      Arrive(g, m, ws, p, a);
    }
  }

  /** Where a occurs last on a path, if it does. */
  lemma LastAt(p: seq<Addr>, a: Addr) returns (i: int)
    ensures -1 <= i < |p| && (i >= 0 ==> p[i] == a)
    ensures forall j :: i < j < |p| ==> p[j] != a
  {
    i := |p| - 1;
    while i >= 0 && p[i] != a
      invariant -1 <= i < |p| && forall j :: i < j < |p| ==> p[j] != a
    {
      i := i - 1;
    }
  }

  /** Marking an object trades its reference for the values in it. */
  lemma FinalVisit(g: Graph, m: set<Addr>, a: Addr, vs: set<Value>)
    requires g.Markable(a) && a !in m
    ensures Final(g, m, {Ref(a)} + vs) == Final(g, m + {a}, g.Kids(a) + vs)
  {
    forall b | b in Final(g, m, {Ref(a)} + vs)
      ensures b in Final(g, m + {a}, g.Kids(a) + vs)
    {
      if b !in m + {a} { VisitOnly(g, m, a, vs, b); }
    }
    forall b | b in Final(g, m + {a}, g.Kids(a) + vs)
      ensures b in Final(g, m, {Ref(a)} + vs)
    {
      if b == a {
        Arrive(g, m, {Ref(a)} + vs, [a], a);
      } else if b !in m {
        VisitAll(g, m, a, vs, b);
      }
    }
  }

  lemma {:induction false} VisitOnly(g: Graph, m: set<Addr>, a: Addr, vs: set<Value>, b: Addr)
    requires a in g.objs && g.Markable(a) && b in Reached(g, m, {Ref(a)} + vs) && b != a
    ensures b in Reached(g, m + {a}, g.Kids(a) + vs)
  {
    hide *;
    var p := Depart(g, m, {Ref(a)} + vs, b);
    LeadsFacts(g, m, {Ref(a)} + vs, p, b);
    var i := LastAt(p, a);
    NotAfter(p, a, i);
    AfterLast(g, m, a, p, i);
    assert Ref(p[i + 1..][0]) in g.Kids(a) + vs;
    IsLeads(g, m + {a}, g.Kids(a) + vs, p[i + 1..], b);
    Arrive(g, m + {a}, g.Kids(a) + vs, p[i + 1..], b);
  }

  lemma LeadsFacts(g: Graph, m: set<Addr>, vs: set<Value>, p: seq<Addr>, a: Addr)
    requires Leads(g, m, vs, p, a)
    ensures Path(g, m, p) && p != [] && Ref(p[0]) in vs && p[|p| - 1] == a
  {
  }

  lemma IsLeads(g: Graph, m: set<Addr>, vs: set<Value>, p: seq<Addr>, a: Addr)
    requires Path(g, m, p) && p != [] && Ref(p[0]) in vs && p[|p| - 1] == a
    ensures Leads(g, m, vs, p, a)
  {
  }

  /** After its last a, a path goes on from a value of a, and without a. */
  lemma {:induction false} AfterLast(g: Graph, m: set<Addr>, a: Addr, p: seq<Addr>, i: int)
    requires Path(g, m, p) && p != [] && a in g.objs && -1 <= i < |p| - 1 && (i >= 0 ==> p[i] == a)
    requires a !in p[i + 1..]
    ensures Path(g, m + {a}, p[i + 1..]) && (i >= 0 ==> Ref(p[i + 1]) in g.Kids(a))
    ensures i == -1 ==> p[i + 1] == p[0]
  {
    hide *;
    Suffix(g, m, p, i + 1);
    PathAvoids(g, m, a, p[i + 1..]);
    if i >= 0 { PathStep(g, m, p, i); }
  }

  lemma {:induction false} NotAfter(p: seq<Addr>, a: Addr, i: int)
    requires -1 <= i < |p| && forall j :: i < j < |p| ==> p[j] != a
    ensures a !in p[i + 1..]
  {
    var q := p[i + 1..];
    forall k | 0 <= k < |q|
      ensures q[k] != a
    {
      assert q[k] == p[i + 1 + k];
    }
  }

  lemma {:induction false} PathAvoids(g: Graph, m: set<Addr>, a: Addr, p: seq<Addr>)
    requires Path(g, m, p) && a !in p
    ensures Path(g, m + {a}, p)
  {
    hide Graph.Kids, Graph.Markable;
  }

  lemma {:induction false} PathStep(g: Graph, m: set<Addr>, p: seq<Addr>, i: nat)
    requires Path(g, m, p) && i + 1 < |p|
    ensures p[i] in g.objs && Ref(p[i + 1]) in g.Kids(p[i])
  {
  }

  lemma VisitAll(g: Graph, m: set<Addr>, a: Addr, vs: set<Value>, b: Addr)
    requires g.Markable(a) && a !in m && b in Reached(g, m + {a}, g.Kids(a) + vs)
    ensures b in Reached(g, m, {Ref(a)} + vs)
  {
    var p := Depart(g, m + {a}, g.Kids(a) + vs, b);
    assert Path(g, m, p);
    if Ref(p[0]) in vs {
      Arrive(g, m, {Ref(a)} + vs, p, b);
    } else {
      assert Path(g, m, [a]);
      Joined(g, m, [a], p);
      Arrive(g, m, {Ref(a)} + vs, [a] + p, b);
    }
  }

  /** Marking some values and then others marks what marking all of them does. */
  lemma FinalJoin(g: Graph, m: set<Addr>, vs: set<Value>, ws: set<Value>)
    ensures Final(g, Final(g, m, vs), ws) == Final(g, m, vs + ws)
  {
    FinalMonotone(g, m, vs, vs + ws);
    var m' := Final(g, m, vs);
    forall a | a in Reached(g, m', ws)
      ensures a in Reached(g, m, vs + ws)
    {
      var p := Depart(g, m', ws, a);
      assert Path(g, m, p);
      Arrive(g, m, vs + ws, p, a);
    }
    forall a | a in Reached(g, m, vs + ws) && a !in m'
      ensures a in Reached(g, m', ws)
    {
      var p := Depart(g, m, vs + ws, a);
      forall i | 0 <= i < |p|
        ensures p[i] !in m'
      {
        if p[i] in m' { Absorb(g, m, vs, p, i); }
      }
      if Ref(p[0]) in vs { Arrive(g, m, vs, p, a); }
      Arrive(g, m', ws, p, a);
    }
  }

  /** A path that meets what was reached stays in it. */
  lemma Absorb(g: Graph, m: set<Addr>, vs: set<Value>, p: seq<Addr>, i: nat)
    requires Path(g, m, p) && i < |p| && p[i] in Reached(g, m, vs)
    ensures p[|p| - 1] in Reached(g, m, vs)
  {
    var q := Depart(g, m, vs, p[i]);
    if i == |p| - 1 { return; }
    Suffix(g, m, p, i + 1);
    Joined(g, m, q, p[i + 1..]);
    Arrive(g, m, vs, q + p[i + 1..], p[|p| - 1]);
  }

  // ---------- Nil ----------

  /** Every value in an object that marking could follow, nil cdrs included. */
  ghost predicate Follows(g: Graph, a: Addr, v: Value)
    requires a in g.objs
  {
    v in g.Kids(a) || (g.objs[a].Cons? && v == g.objs[a].cdr)
  }

  /** Not following a nil cdr makes no difference when nil itself is marked: what is marked
      is closed under every value in it. */
  lemma NilCdr(g: Graph, m: set<Addr>, vs: set<Value>, a: Addr, v: Value)
    requires a in Reached(g, m, vs) && Follows(g, a, v) && v.Ref? && g.Markable(v.a)
    requires g.nil in Final(g, m, vs)
    ensures v.a in Final(g, m, vs)
  {
    if v in g.Kids(a) && v.a !in m {
      var p := Depart(g, m, vs, a);
      assert Path(g, m, [v.a]);
      Joined(g, m, p, [v.a]);
      Arrive(g, m, vs, p + [v.a], v.a);
    }
  }

  /** What is marked is the smallest set that holds the values' objects and is closed. */
  lemma FinalLeast(g: Graph, m: set<Addr>, vs: set<Value>, s: set<Addr>)
    requires m <= s
    requires forall v :: v in vs && v.Ref? && g.Markable(v.a) ==> v.a in s
    requires forall a, v :: a in s - m && a in g.objs && v in g.Kids(a) && v.Ref? && g.Markable(v.a) ==> v.a in s
    ensures Final(g, m, vs) <= s
  {
    forall a | a in Reached(g, m, vs)
      ensures a in s
    {
      var p := Depart(g, m, vs, a);
      var i := 0;
      while i < |p| - 1
        invariant 0 <= i < |p| && p[i] in s
      {
        assert Ref(p[i + 1]) in g.Kids(p[i]);
        i := i + 1;
      }
    }
  }

  /** A way through objects that follows every value in them, nil cdrs included. */
  ghost predicate PlainPath(g: Graph, p: seq<Addr>) {
    && p != []
    && (forall i :: 0 <= i < |p| ==> g.Markable(p[i]))
    && (forall i, j :: 0 <= i < j < |p| && j == i + 1 ==> Follows(g, p[i], Ref(p[j])))
  }

  ghost predicate PlainLeads(g: Graph, vs: set<Value>, p: seq<Addr>, a: Addr) {
    PlainPath(g, p) && Ref(p[0]) in vs && p[|p| - 1] == a
  }

  /** What the program can reach from the values vs. */
  ghost function Reachable(g: Graph, vs: set<Value>): set<Addr> {
    set a | a in g.objs && exists p :: PlainLeads(g, vs, p, a)
  }

  /** Since nil is a root, skipping nil cdrs loses nothing: what is marked from clear marks
      is what the program can reach. */
  lemma FinalIsReachable(g: Graph, vs: set<Value>)
    requires Ref(g.nil) in vs && g.Markable(g.nil)
    ensures Final(g, {}, vs) == Reachable(g, vs)
  {
    assert Path(g, {}, [g.nil]);
    Arrive(g, {}, vs, [g.nil], g.nil);
    forall a | a in Reached(g, {}, vs)
      ensures a in Reachable(g, vs)
    {
      var p := Depart(g, {}, vs, a);
      assert PlainPath(g, p);
      assert PlainLeads(g, vs, p, a);
    }
    forall a | a in Reachable(g, vs)
      ensures a in Reached(g, {}, vs)
    {
      var p :| PlainLeads(g, vs, p, a);
      PlainStays(g, vs, p, |p| - 1);
    }
  }

  lemma {:induction false} PlainStays(g: Graph, vs: set<Value>, p: seq<Addr>, i: nat)
    requires PlainPath(g, p) && Ref(p[0]) in vs && i < |p| && g.nil in Final(g, {}, vs)
    ensures p[i] in Final(g, {}, vs)
  {
    if i == 0 {
      assert Path(g, {}, [p[0]]);
      Arrive(g, {}, vs, [p[0]], p[0]);
    } else {
      PlainStays(g, vs, p, i - 1);
      assert Follows(g, p[i - 1], Ref(p[i]));
      NilCdr(g, {}, vs, p[i - 1], Ref(p[i]));
    }
  }

  // ---------- What is followed, constructor by constructor ----------

  /** From a marked object marking goes on to whatever its fields refer to: for each kind of
      object, the objects named here are marked as well. */
  lemma FinalFollows(g: Graph, m: set<Addr>, vs: set<Value>, a: Addr, b: Addr)
    requires a in Final(g, m, vs) && a !in m && b in g.objs && !g.objs[b].Subr?
    requires a in g.objs ==>
      match g.objs[a]
      case Float => false
      case Str(plists) => Ref(b) in plists
      case Cons(car, cdr) => Ref(b) == car || (Ref(b) == cdr && b != g.nil)
      case Symbol(fn, plist, redirect, name, next) =>
        || Ref(b) == fn || Ref(b) == plist || b == name || next == Some(b)
        || redirect == PlainVal(Ref(b)) || redirect == VarAlias(b)
        || (redirect.Localized? && Ref(b) in [redirect.where, redirect.valcell, redirect.defcell])
      case Vector(contents) => Ref(b) in contents
      case WeakTable(_) => false
      case BoolVector => false
      case Subr => false
      case CharTable(contents, _) => Ref(b) in contents
      case Overlay(props) => Ref(b) == props
      case Frame(contents) => Ref(b) in contents
      case Window(contents, glyphs) => Ref(b) in contents || (Ref(b) in glyphs && g.objs[b].Str?)
      case Buffer(contents, plists, live, undo, overlays, base) =>
        || Ref(b) in contents || Ref(b) in plists || (!live && Ref(b) == undo) || Ref(b) in overlays
        || base == Some(b)
    ensures b in Final(g, m, vs)
  {
    if b !in m {
      var p := Depart(g, m, vs, a);
      assert Ref(b) in g.Kids(a);
      assert Path(g, m, [b]);
      Joined(g, m, p, [b]);
      Arrive(g, m, vs, p + [b], b);
    }
  }

  /** What the values refer to is marked. */
  lemma FinalHolds(g: Graph, m: set<Addr>, vs: set<Value>, b: Addr)
    requires Ref(b) in vs && b in g.objs && !g.objs[b].Subr?
    ensures b in Final(g, m, vs)
  {
    if b !in m {
      assert Path(g, m, [b]);
      Arrive(g, m, vs, [b], b);
    }
  }

  /** And nothing else is marked: a set with the marked objects and those of the values, in
      which every new member brings what its fields refer to, has all of them. */
  lemma FinalOnly(g: Graph, m: set<Addr>, vs: set<Value>, s: set<Addr>)
    requires m <= s
    requires forall b :: Ref(b) in vs && b in g.objs && !g.objs[b].Subr? ==> b in s
    requires forall a, b ::
      (&& a in s && a !in m && a in g.objs && b in g.objs && !g.objs[b].Subr?
       && match g.objs[a]
          case Float => false
          case Str(plists) => Ref(b) in plists
          case Cons(car, cdr) => Ref(b) == car || (Ref(b) == cdr && b != g.nil)
          case Symbol(fn, plist, redirect, name, next) =>
            || Ref(b) == fn || Ref(b) == plist || b == name || next == Some(b)
            || redirect == PlainVal(Ref(b)) || redirect == VarAlias(b)
            || (redirect.Localized? && Ref(b) in [redirect.where, redirect.valcell, redirect.defcell])
          case Vector(contents) => Ref(b) in contents
          case WeakTable(_) => false
          case BoolVector => false
          case Subr => false
          case CharTable(contents, _) => Ref(b) in contents
          case Overlay(props) => Ref(b) == props
          case Frame(contents) => Ref(b) in contents
          case Window(contents, glyphs) => Ref(b) in contents || (Ref(b) in glyphs && g.objs[b].Str?)
          case Buffer(contents, plists, live, undo, overlays, base) =>
            || Ref(b) in contents || Ref(b) in plists || (!live && Ref(b) == undo) || Ref(b) in overlays
            || base == Some(b)) ==>
        b in s
    ensures Final(g, m, vs) <= s
  {
    FinalLeast(g, m, vs, s);
  }

  /** What is in a weak table makes no difference. */
  lemma WeakContents(g: Graph, m: set<Addr>, vs: set<Value>, t: Addr, contents: seq<Value>)
    requires t in g.objs && g.objs[t].WeakTable?
    ensures Final(g.(objs := g.objs[t := WeakTable(contents)]), m, vs) == Final(g, m, vs)
  {
    var g' := g.(objs := g.objs[t := WeakTable(contents)]);
    forall a | a in g.objs
      ensures g'.Kids(a) == g.Kids(a) && (g'.Markable(a) <==> g.Markable(a))
    {
    }
    SameKids(g, g', m, vs);
    SameKids(g', g, m, vs);
  }

  lemma SameKids(g: Graph, g': Graph, m: set<Addr>, vs: set<Value>)
    requires g'.objs.Keys == g.objs.Keys
    requires forall a :: a in g.objs ==> g'.Kids(a) == g.Kids(a) && (g'.Markable(a) <==> g.Markable(a))
    ensures Final(g, m, vs) <= Final(g', m, vs)
  {
    forall a | a in Reached(g, m, vs)
      ensures a in Reached(g', m, vs)
    {
      var p := Depart(g, m, vs, a);
      assert Path(g', m, p);
      Arrive(g', m, vs, p, a);
    }
  }
}
