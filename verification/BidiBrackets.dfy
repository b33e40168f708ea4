/** Bracket pairs in one isolating run sequence (BD16 in section 3.1.3 of UAX #9), and the
    direction of the text that each pair encloses (rule N0 in section 3.3.5). */
module BidiBrackets {
  import opened BidiRules

  datatype Bracket = NotBracket | Open | Close

  /** A character of the sequence, after the weak types are resolved.  `afterWn` is the type
      before overrides are applied to spaces and boundary neutrals, and before rule W7. */
  datatype Item = Item(ch: int, property: Bracket, typ: BidiType, afterWn: BidiType)
  {
    predicate Opens() { afterWn.NeutralON? && property.Open? }
    predicate Closes() { afterWn.NeutralON? && property.Close? }

    /** Canonically equivalent brackets count as one. */
    function Canonical(): int { if ch == 0x2329 then 0x3008 else if ch == 0x232A then 0x3009 else ch }

    predicate NeutralCategory() { afterWn.NeutralB? || afterWn.NeutralS? || afterWn.NeutralWS? || afterWn.NeutralON? }

    /** The strong direction that the bracket scan sees, if any. */
    function Counted(): Dir { if Opens() || Closes() || NeutralCategory() then NeutralDir else StrongDir(typ) }

    /** The strong direction by the rules: boundary neutrals have none (X9), and a type that was
        overridden counts like any other (X6). */
    function Ruled(): Dir { if afterWn.WeakBN? || Opens() || Closes() then NeutralDir else StrongDir(typ) }
  }

  /** Numbers act as if they were right-to-left. */
  function StrongDir(t: BidiType): Dir {
    if t.StrongL? then L2R else if t.StrongR? || t.WeakEN? || t.WeakAN? then R2L else NeutralDir
  }

  function LevelDir(level: nat): Dir { if level % 2 == 0 then L2R else R2L }
  function Opposite(d: Dir): Dir { if d == L2R then R2L else L2R }

  // ---------- BD16 ----------

  datatype Opener = Opener(close: int, i: nat)

  /** The stack of opening brackets, and the pairs found so far. */
  datatype Scan = Scan(stack: seq<Opener>, pairs: map<nat, nat>)

  /** The topmost opener that a closing bracket matches, or -1. */
  function Match(stack: seq<Opener>, ch: int): int {
    if stack == [] then -1
    else if stack[|stack| - 1].close == ch then |stack| - 1
    else Match(stack[..|stack| - 1], ch)
  }

  /** One character: an opening bracket is pushed; a closing one is paired with the topmost
      opener that it matches, which is popped with all that is above it. */
  function Next(items: seq<Item>, mirror: int -> int, i: nat, s: Scan): Scan
    requires i < |items|
  {
    var c := items[i];
    if c.Opens() then s.(stack := s.stack + [Opener(mirror(c.Canonical()), i)])
    else if c.Closes() then
      var k := Match(s.stack, c.Canonical());
      if 0 <= k < |s.stack| then Scan(s.stack[..k], s.pairs[s.stack[k].i := i]) else s
    else s
  }

  /** BD16 on the first n characters. */
  function Pairs(items: seq<Item>, mirror: int -> int, n: nat): Scan
    requires n <= |items|
  {
    if n == 0 then Scan([], map[]) else Next(items, mirror, n - 1, Pairs(items, mirror, n - 1))
  }

  lemma {:induction false} MatchIs(stack: seq<Opener>, ch: int)
    ensures var k := Match(stack, ch);
      && -1 <= k < |stack| && (k >= 0 ==> stack[k].close == ch)
      && (forall j :: k < j < |stack| ==> stack[j].close != ch)
  {
    if stack != [] && stack[|stack| - 1].close != ch { MatchIs(stack[..|stack| - 1], ch); }
  }

  /** Openers on the stack are in text order and not paired; pairs go forward, and do not
      cross the openers that are still waiting. */
  ghost predicate Nested(s: Scan, n: nat) {
    && (forall a :: 0 <= a < |s.stack| ==> s.stack[a].i < n && s.stack[a].i !in s.pairs)
    && (forall a, b :: 0 <= a < b < |s.stack| ==> s.stack[a].i < s.stack[b].i)
    && (forall i :: i in s.pairs ==> i < s.pairs[i] < n)
    && (forall i, a :: i in s.pairs && 0 <= a < |s.stack| ==> s.stack[a].i < i || s.pairs[i] < s.stack[a].i)
    && (forall i, j :: i in s.pairs && j in s.pairs && i < j ==> j > s.pairs[i] || s.pairs[j] < s.pairs[i])
  }

  lemma NestedPush(s: Scan, n: nat, close: int)
    requires Nested(s, n)
    ensures Nested(s.(stack := s.stack + [Opener(close, n)]), n + 1)
  {
  }

  lemma NestedPop(s: Scan, n: nat, k: nat)
    requires Nested(s, n) && k < |s.stack|
    ensures Nested(Scan(s.stack[..k], s.pairs[s.stack[k].i := n]), n + 1)
  {
    var s' := Scan(s.stack[..k], s.pairs[s.stack[k].i := n]);
    var o := s.stack[k].i;
    assert forall i :: i in s.pairs && i < o ==> s.pairs[i] < o;
  }

  lemma NestedStart()
    ensures Nested(Scan([], map[]), 0)
  {
  }

  lemma {:induction false} PairsNested(items: seq<Item>, mirror: int -> int, n: nat)
    requires n <= |items|
    ensures Nested(Pairs(items, mirror, n), n)
  {
    hide Nested, Next;
    if n == 0 {
      NestedStart();
    } else {
      PairsNested(items, mirror, n - 1);
      NextNested(items, mirror, n - 1, Pairs(items, mirror, n - 1));
    }
  }

  lemma NextNested(items: seq<Item>, mirror: int -> int, n: nat, s: Scan)
    requires n < |items| && Nested(s, n)
    ensures Nested(Next(items, mirror, n, s), n + 1)
  {
    hide Nested, Match, Item.Opens, Item.Closes, Item.Canonical;
    var c := items[n];
    var k := Match(s.stack, c.Canonical());
    if c.Opens() {
      NestedPush(s, n, mirror(c.Canonical()));
    } else if c.Closes() && 0 <= k < |s.stack| {
      NestedPop(s, n, k);
    } else {
      NestedLater(s, n);
    }
  }

  lemma NestedLater(s: Scan, n: nat)
    requires Nested(s, n)
    ensures Nested(s, n + 1)
  {
  }

  /** Two pairs are apart or one is inside the other. */
  lemma PairsDoNotCross(items: seq<Item>, mirror: int -> int, i: nat, j: nat)
    requires i in Pairs(items, mirror, |items|).pairs && j in Pairs(items, mirror, |items|).pairs && i < j
    ensures var p := Pairs(items, mirror, |items|).pairs;
      i < p[i] && j < p[j] && (j > p[i] || p[j] < p[i])
  {
    PairsNested(items, mirror, |items|);
  }

  /** The brackets of a pair, and of a waiting opener, are what they should be. */
  ghost predicate Matched(items: seq<Item>, mirror: int -> int, s: Scan) {
    && (forall a :: 0 <= a < |s.stack| ==>
          s.stack[a].i < |items| && items[s.stack[a].i].Opens()
            && s.stack[a].close == mirror(items[s.stack[a].i].Canonical()))
    && (forall i :: i in s.pairs ==>
          && i < |items| && s.pairs[i] < |items| && items[i].Opens() && items[s.pairs[i]].Closes()
          && items[s.pairs[i]].Canonical() == mirror(items[i].Canonical()))
  }

  lemma {:induction false} PairsMatch(items: seq<Item>, mirror: int -> int, n: nat)
    requires n <= |items|
    ensures Matched(items, mirror, Pairs(items, mirror, n))
  {
    if n > 0 {
      PairsMatch(items, mirror, n - 1);
      MatchIs(Pairs(items, mirror, n - 1).stack, items[n - 1].Canonical());
      hide Match;
    }
  }

  // ---------- What a pair encloses ----------

  ghost predicate Has(items: seq<Item>, counted: bool, from: nat, to: nat, d: Dir) {
    exists k :: from <= k < to && k < |items| && (if counted then items[k].Counted() else items[k].Ruled()) == d
  }

  function DirType(d: Dir): BidiType { if d == L2R then StrongL else if d == R2L then StrongR else Unknown }

  /** N0 b to d: the embedding direction if it occurs between the brackets, else the opposite
      one if that occurs, else none. */
  ghost function Enclosed(items: seq<Item>, counted: bool, level: nat, i: nat, j: nat): BidiType {
    if Has(items, counted, i + 1, j, LevelDir(level)) then DirType(LevelDir(level))
    else if Has(items, counted, i + 1, j, Opposite(LevelDir(level))) then DirType(Opposite(LevelDir(level)))
    else Unknown
  }

  /** What the scan finds between two brackets, in types: at an even level left-to-right text if
      there is any, else right-to-left text or a number if there is any; at an odd level the other
      way round.  It does not see spaces, separators, other neutrals and brackets. */
  lemma EnclosedIs(items: seq<Item>, level: nat, i: nat, j: nat)
    requires i < |items|
    ensures
      var seen := set k | i < k < j && k < |items|
                          && items[k].afterWn !in {NeutralB, NeutralS, NeutralWS, NeutralON} :: items[k].typ;
      var ltr, rtl := StrongL in seen, seen * {StrongR, WeakEN, WeakAN} != {};
      Enclosed(items, true, level, i, j)
        == if level % 2 == 0 then (if ltr then StrongL else if rtl then StrongR else Unknown)
           else (if rtl then StrongR else if ltr then StrongL else Unknown)
  {
    var seen := set k | i < k < j && k < |items|
                        && items[k].afterWn !in {NeutralB, NeutralS, NeutralWS, NeutralON} :: items[k].typ;
    if k :| i < k < j && k < |items| && items[k].Counted() == L2R { assert items[k].typ in seen; }
    if k :| i < k < j && k < |items| && items[k].Counted() == R2L {
      assert items[k].typ in seen * {StrongR, WeakEN, WeakAN};
    }
  }

  /** What the rules find, in types: they see spaces and separators that an override made strong,
      and do not see boundary neutrals and brackets. */
  lemma EnclosedRuled(items: seq<Item>, level: nat, i: nat, j: nat)
    requires i < |items|
    ensures
      var seen := set k | i < k < j && k < |items| && items[k].afterWn != WeakBN
                          && (items[k].afterWn != NeutralON || items[k].property == NotBracket) :: items[k].typ;
      var ltr, rtl := StrongL in seen, seen * {StrongR, WeakEN, WeakAN} != {};
      Enclosed(items, false, level, i, j)
        == if level % 2 == 0 then (if ltr then StrongL else if rtl then StrongR else Unknown)
           else (if rtl then StrongR else if ltr then StrongL else Unknown)
  {
    var seen := set k | i < k < j && k < |items| && items[k].afterWn != WeakBN
                        && (items[k].afterWn != NeutralON || items[k].property == NotBracket) :: items[k].typ;
    if k :| i < k < j && k < |items| && items[k].Ruled() == L2R { assert items[k].typ in seen; }
    if k :| i < k < j && k < |items| && items[k].Ruled() == R2L {
      assert items[k].typ in seen * {StrongR, WeakEN, WeakAN};
    }
  }

  // ---------- Where the scan departs from the rules ----------

  /** A strong direction that both see. */
  predicate Plain(c: Item, d: Dir) { c.Counted() == d && c.Ruled() == d }

  /** A space or separator made strong by an override, which the scan passes over. */
  predicate Missed(c: Item, d: Dir) { c.Counted() == NeutralDir && c.Ruled() == d }

  /** A boundary neutral, which is not there by the rules, given a strong type or a number's. */
  predicate Extra(c: Item, d: Dir) { c.Counted() == d && c.Ruled() == NeutralDir }

  ghost predicate HasPlain(items: seq<Item>, i: nat, j: nat, d: Dir) {
    exists k :: i < k < j && k < |items| && Plain(items[k], d)
  }
  ghost predicate HasMissed(items: seq<Item>, i: nat, j: nat, d: Dir) {
    exists k :: i < k < j && k < |items| && Missed(items[k], d)
  }
  ghost predicate HasExtra(items: seq<Item>, i: nat, j: nat, d: Dir) {
    exists k :: i < k < j && k < |items| && Extra(items[k], d)
  }

  lemma HasSplit(items: seq<Item>, i: nat, j: nat, d: Dir)
    requires d != NeutralDir
    ensures Has(items, true, i + 1, j, d) <==> HasPlain(items, i, j, d) || HasExtra(items, i, j, d)
    ensures Has(items, false, i + 1, j, d) <==> HasPlain(items, i, j, d) || HasMissed(items, i, j, d)
  {
    if Has(items, true, i + 1, j, d) {
      var k :| i + 1 <= k < j && k < |items| && items[k].Counted() == d;
      assert Plain(items[k], d) || Extra(items[k], d);
    }
    if Has(items, false, i + 1, j, d) {
      var k :| i + 1 <= k < j && k < |items| && items[k].Ruled() == d;
      assert Plain(items[k], d) || Missed(items[k], d);
    }
  }

  /** The enclosed direction departs from the rules exactly when nothing plain decides it, and
      passed-over and added characters do not make up for each other. */
  lemma EnclosedByRules(items: seq<Item>, level: nat, i: nat, j: nat)
    ensures var e, o := LevelDir(level), Opposite(LevelDir(level));
      Enclosed(items, true, level, i, j) != Enclosed(items, false, level, i, j) <==>
        && !HasPlain(items, i, j, e)
        && (|| HasMissed(items, i, j, e) != HasExtra(items, i, j, e)
            || (&& !HasMissed(items, i, j, e) && !HasPlain(items, i, j, o)
                && HasMissed(items, i, j, o) != HasExtra(items, i, j, o)))
  {
    HasSplit(items, i, j, LevelDir(level));
    HasSplit(items, i, j, Opposite(LevelDir(level)));
    hide Has, HasPlain, HasMissed, HasExtra;
  }

  /** In RLE ( PDF RLO SPACE PDF RLE ) the space is right-to-left, but not seen. */
  lemma SpaceExample()
    ensures var items := [Item('(' as int, Open, NeutralON, NeutralON),
                          Item(' ' as int, NotBracket, StrongR, NeutralWS),
                          Item(')' as int, Close, NeutralON, NeutralON)];
      Enclosed(items, true, 1, 0, 2) == Unknown && Enclosed(items, false, 1, 0, 2) == StrongR
  {
    var items := [Item('(' as int, Open, NeutralON, NeutralON), Item(' ' as int, NotBracket, StrongR, NeutralWS),
                  Item(')' as int, Close, NeutralON, NeutralON)];
    assert items[1].Ruled() == R2L;
  }

  /** A null character at level 0 after left-to-right text is taken for left-to-right text. */
  lemma BoundaryExample()
    ensures var items := [Item('(' as int, Open, NeutralON, NeutralON), Item(0, NotBracket, StrongL, WeakBN),
                          Item(')' as int, Close, NeutralON, NeutralON)];
      Enclosed(items, true, 0, 0, 2) == StrongL && Enclosed(items, false, 0, 0, 2) == Unknown
  {
    var items := [Item('(' as int, Open, NeutralON, NeutralON), Item(0, NotBracket, StrongL, WeakBN),
                  Item(')' as int, Close, NeutralON, NeutralON)];
    assert items[1].Counted() == L2R;
  }

  lemma HasNext(items: seq<Item>, counted: bool, from: nat, p: nat, d: Dir)
    requires from <= p < |items|
    ensures Has(items, counted, from, p + 1, d) <==>
      Has(items, counted, from, p, d) || (if counted then items[p].Counted() else items[p].Ruled()) == d
  {
  }

  /** Pairs are never undone. */
  lemma {:induction false} PairsStay(items: seq<Item>, mirror: int -> int, n: nat, m: nat, i: nat)
    requires n <= m <= |items| && i in Pairs(items, mirror, n).pairs
    ensures i in Pairs(items, mirror, m).pairs && Pairs(items, mirror, m).pairs[i] == Pairs(items, mirror, n).pairs[i]
    decreases m
  {
    if n < m {
      PairsStay(items, mirror, n, m - 1, i);
      PairsNested(items, mirror, m - 1);
    }
  }

  /** The opener at i waits. */
  ghost predicate Waits(s: Scan, i: nat) { exists q :: 0 <= q < |s.stack| && s.stack[q].i == i }

  /** The opener at i is not paired, and not inside a pair. */
  ghost predicate Unpaired(s: Scan, i: nat) { i !in s.pairs && forall a :: a in s.pairs && a < i ==> s.pairs[a] <= i }

  /** Pairs that are found keep the openers that stay unpaired waiting. */
  lemma {:induction false} StillWaits(items: seq<Item>, mirror: int -> int, n: nat, s: Scan, i: nat)
    requires n < |items| && i < n && Nested(s, n) && Waits(s, i) && Unpaired(Next(items, mirror, n, s), i)
    ensures Waits(Next(items, mirror, n, s), i)
  {
    hide Match, Item.Canonical, Item.Opens, Item.Closes;
    var q :| 0 <= q < |s.stack| && s.stack[q].i == i;
    var s' := Next(items, mirror, n, s);
    assert |s'.stack| >= |s.stack| || (s.stack[|s'.stack|].i in s'.pairs && s'.pairs[s.stack[|s'.stack|].i] == n);
    assert s'.stack[q].i == i;
  }

  lemma {:induction false} StillUnpaired(items: seq<Item>, mirror: int -> int, n: nat, i: nat)
    requires n < |items| && Unpaired(Pairs(items, mirror, n + 1), i)
    ensures Unpaired(Pairs(items, mirror, n), i)
  {
    var s, s' := Pairs(items, mirror, n), Pairs(items, mirror, n + 1);
    forall a | a in s.pairs
      ensures a in s'.pairs && s'.pairs[a] == s.pairs[a]
    {
      PairsStay(items, mirror, n, n + 1, a);
    }
    hide Pairs;
  }

  /** The openers that wait are those that are not paired and not inside a pair. */
  lemma {:induction false} StackHas(items: seq<Item>, mirror: int -> int, n: nat, i: nat)
    requires i < n <= |items| && items[i].Opens() && Unpaired(Pairs(items, mirror, n), i)
    ensures Waits(Pairs(items, mirror, n), i)
  {
    hide Pairs, Nested, Waits, Unpaired, Next;
    PairsNext(items, mirror, n - 1);
    if i == n - 1 {
      Pushed(items, mirror, i, Pairs(items, mirror, i));
    } else {
      StillUnpaired(items, mirror, n - 1, i);
      StackHas(items, mirror, n - 1, i);
      PairsNested(items, mirror, n - 1);
      StillWaits(items, mirror, n - 1, Pairs(items, mirror, n - 1), i);
    }
  }

  lemma {:induction false} Pushed(items: seq<Item>, mirror: int -> int, n: nat, s: Scan)
    requires n < |items| && items[n].Opens()
    ensures Waits(Next(items, mirror, n, s), n)
  {
    assert Next(items, mirror, n, s).stack[|s.stack|].i == n;
  }

  lemma {:induction false} PairsNext(items: seq<Item>, mirror: int -> int, n: nat)
    requires n < |items|
    ensures Pairs(items, mirror, n + 1) == Next(items, mirror, n, Pairs(items, mirror, n))
  {
  }

  /** A pair is found when its closing bracket is met. */
  lemma {:induction false} PairsWhen(items: seq<Item>, mirror: int -> int, n: nat, m: nat, i: nat)
    requires n <= m <= |items| && i in Pairs(items, mirror, m).pairs && Pairs(items, mirror, m).pairs[i] < n
    ensures i in Pairs(items, mirror, n).pairs && Pairs(items, mirror, n).pairs[i] == Pairs(items, mirror, m).pairs[i]
    decreases m
  {
    if n < m { PairsWhen(items, mirror, n, m - 1, i); }
  }

  /** A pair joins an opening and a closing bracket, one the mirror of the other where the angle
      brackets U+2329 and U+232A count as U+3008 and U+3009; when the closing one is met, the
      opening one is neither paired nor inside a pair. */
  lemma {:induction false} PairIs(items: seq<Item>, mirror: int -> int, i: nat, j: nat)
    requires i in Pairs(items, mirror, |items|).pairs && Pairs(items, mirror, |items|).pairs[i] == j
    ensures i < j < |items|
    ensures items[i].afterWn == NeutralON && items[i].property == Open
    ensures items[j].afterWn == NeutralON && items[j].property == Close
    ensures var canonical := (c: int) => if c == 0x2329 then 0x3008 else if c == 0x232A then 0x3009 else c;
      mirror(canonical(items[i].ch)) == canonical(items[j].ch)
    ensures var p := Pairs(items, mirror, |items|).pairs;
      forall a :: a in p && a < i ==> !(i < p[a] < j)
  {
    PairsNested(items, mirror, |items|);
    PairsMatch(items, mirror, |items|);
    hide Pairs;
  }

  /** And of those that could be its partner, a closing bracket gets the last: if some opening
      bracket before it is its mirror and is then neither paired nor inside a pair, the closing
      bracket is paired with that one or with a later one. */
  lemma {:induction false} PairExists(items: seq<Item>, mirror: int -> int, i: nat, j: nat)
    requires i < j < |items|
    requires items[i].afterWn == NeutralON && items[i].property == Open
    requires items[j].afterWn == NeutralON && items[j].property == Close
    requires var canonical := (c: int) => if c == 0x2329 then 0x3008 else if c == 0x232A then 0x3009 else c;
      mirror(canonical(items[i].ch)) == canonical(items[j].ch)
    requires var p := Pairs(items, mirror, |items|).pairs;
      !(i in p && p[i] < j) && forall a :: a in p && a < i ==> !(i < p[a] < j)
    ensures var p := Pairs(items, mirror, |items|).pairs;
      exists k :: i <= k < j && k in p && p[k] == j
  {
    hide Pairs, Nested, Matched, Waits, Unpaired, Next, Item.Canonical;
    var s := Pairs(items, mirror, j);
    UnpairedBefore(items, mirror, i, j);
    StackHas(items, mirror, j, i);
    PairsNested(items, mirror, j);
    PairsMatch(items, mirror, j);
    CanonicalIs(items[i]);
    CanonicalIs(items[j]);
    PairsNext(items, mirror, j);
    var k := PairedNow(items, mirror, j, s, i);
    PairsStay(items, mirror, j + 1, |items|, k);
  }

  lemma CanonicalIs(c: Item)
    ensures c.Canonical() == if c.ch == 0x2329 then 0x3008 else if c.ch == 0x232A then 0x3009 else c.ch
  {
  }

  lemma {:induction false} UnpairedBefore(items: seq<Item>, mirror: int -> int, i: nat, j: nat)
    requires i < j < |items|
    requires var p := Pairs(items, mirror, |items|).pairs;
      !(i in p && p[i] < j) && forall a :: a in p && a < i ==> !(i < p[a] < j)
    ensures Unpaired(Pairs(items, mirror, j), i)
  {
    hide Pairs;
    var p, s := Pairs(items, mirror, |items|).pairs, Pairs(items, mirror, j);
    PairsNested(items, mirror, j);
    forall a | a in s.pairs
      ensures a in p && p[a] == s.pairs[a] && s.pairs[a] < j
    {
      PairsStay(items, mirror, j, |items|, a);
    }
  }

  /** A closing bracket that a waiting opener matches is paired with that one or a later one. */
  lemma {:induction false} PairedNow(items: seq<Item>, mirror: int -> int, j: nat, s: Scan, i: nat) returns (k: nat)
    requires j < |items| && items[j].Closes() && Nested(s, j) && Matched(items, mirror, s)
    requires i < j && Waits(s, i) && mirror(items[i].Canonical()) == items[j].Canonical()
    ensures i <= k < j && k in Next(items, mirror, j, s).pairs && Next(items, mirror, j, s).pairs[k] == j
  {
    var q :| 0 <= q < |s.stack| && s.stack[q].i == i;
    MatchIs(s.stack, items[j].Canonical());
    hide Match, Item.Canonical;
    var top := Match(s.stack, items[j].Canonical());
    k := s.stack[top].i;
    assert q == top || s.stack[q].i < s.stack[top].i;
  }

  /** An entry of the bracket stack, with what was seen since the bracket. */
  datatype Slot = Slot(close: int, idx: nat, embedding: bool, opposite: bool)

  class Brackets {
    const items: seq<Item>
    const level: nat
    const limit: nat              // entries of the bracket stack
    const mirror: int -> int
    const pairing: array<int>     // for an opening bracket, its own position or that of its pair
    const enclosed: array<BidiType>

    constructor (items: seq<Item>, level: nat, limit: nat, mirror: int -> int)
      requires 0 < limit
      ensures fresh(pairing) && fresh(enclosed) && Recorded(0)
      ensures this.items == items && this.level == level && this.limit == limit && this.mirror == mirror
    {
      this.items, this.level, this.limit, this.mirror := items, level, limit, mirror;
      pairing := new int[|items|](_ => -1);
      enclosed := new BidiType[|items|](_ => Unknown);
    }

    /** The arrays hold what BD16 and N0 give for the first n characters. */
    ghost predicate Recorded(n: nat)
      reads pairing, enclosed
    {
      && pairing.Length == |items| && enclosed.Length == |items| && n <= |items| && 0 < limit
      && forall i :: 0 <= i < |items| ==> Entered(n, i)
    }

    ghost predicate Entered(n: nat, i: nat)
      requires i < |items| && n <= |items| && pairing.Length == |items| && enclosed.Length == |items|
      reads pairing, enclosed
    {
      IsEntry(n, i, pairing[i], enclosed[i])
    }

    ghost predicate IsEntry(n: nat, i: nat, paired: int, inside: BidiType)
      requires i < |items| && n <= |items|
    {
      var pairs := Pairs(items, mirror, n).pairs;
      if i in pairs then paired == pairs[i] && inside == Enclosed(items, true, level, i, pairs[i])
      else if i < n && items[i].Opens() then paired == i
      else paired == -1
    }

    /** An entry knows its bracket, and what was seen from there to p. */
    ghost predicate Knows(t: Slot, o: Opener, p: nat) {
      && t.close == o.close && t.idx == o.i
      && t.embedding == Has(items, true, o.i + 1, p, LevelDir(level))
      && t.opposite == Has(items, true, o.i + 1, p, Opposite(LevelDir(level)))
    }

    ghost predicate OnStack(ts: seq<Slot>, st: seq<Opener>, p: nat) {
      |ts| == |st| && forall q :: 0 <= q < |ts| ==> Knows(ts[q], st[q], p)
    }

    ghost predicate Fits() {
      forall n :: 0 <= n <= |items| ==> |Pairs(items, mirror, n).stack| <= limit
    }

    function Told(t: Slot, d: Dir): Slot {
      if d == LevelDir(level) then t.(embedding := true) else t.(opposite := true)
    }

    /** Every slot is told of a strong direction. */
    method AddFlag(bpa: array<Slot>, n: nat, d: Dir)
      requires n <= bpa.Length
      modifies bpa
      ensures forall q :: 0 <= q < n ==> bpa[q] == Told(old(bpa[q]), d)
      ensures forall q :: n <= q < bpa.Length ==> bpa[q] == old(bpa[q])
    {
      var q := n;
      while q > 0
        invariant 0 <= q <= n
        invariant forall r :: q <= r < n ==> bpa[r] == Told(old(bpa[r]), d)
        invariant forall r :: 0 <= r < q || n <= r < bpa.Length ==> bpa[r] == old(bpa[r])
      {
        q := q - 1;
        bpa[q] := Told(bpa[q], d);
      }
    }

    /** A character that is no bracket. */
    method SeeText(bpa: array<Slot>, n: nat, p: nat)
      requires n <= bpa.Length && p < |items| && !items[p].Opens() && !items[p].Closes()
      requires OnStack(bpa[..n], Pairs(items, mirror, p).stack, p)
      modifies bpa
      ensures OnStack(bpa[..n], Pairs(items, mirror, p + 1).stack, p + 1)
    {
      ghost var ts, st := bpa[..n], Pairs(items, mirror, p).stack;
      PairsNested(items, mirror, p);
      hide Has, Pairs;
      assert Pairs(items, mirror, p + 1) == Pairs(items, mirror, p) by { TextNext(p); }
      if !items[p].NeutralCategory() {
        var d := StrongDir(items[p].typ);
        if d != NeutralDir { AddFlag(bpa, n, d); }
      }
      forall q | 0 <= q < n
        ensures Knows(bpa[q], st[q], p + 1)
      {
        assert Knows(ts[q], st[q], p);
        HasNext(items, true, st[q].i + 1, p, LevelDir(level));
        HasNext(items, true, st[q].i + 1, p, Opposite(LevelDir(level)));
      }
    }

    lemma TextNext(p: nat)
      requires p < |items| && !items[p].Opens() && !items[p].Closes()
      ensures Pairs(items, mirror, p + 1) == Pairs(items, mirror, p)
    {
    }

    lemma OpenNext(p: nat)
      requires p < |items| && items[p].Opens()
      ensures Pairs(items, mirror, p + 1) ==
        Pairs(items, mirror, p).(stack := Pairs(items, mirror, p).stack + [Opener(mirror(items[p].Canonical()), p)])
    {
    }

    lemma CloseNext(p: nat)
      requires p < |items| && items[p].Closes()
      ensures var s, k := Pairs(items, mirror, p), Match(Pairs(items, mirror, p).stack, items[p].Canonical());
        Pairs(items, mirror, p + 1) == if 0 <= k < |s.stack| then Scan(s.stack[..k], s.pairs[s.stack[k].i := p]) else s
    {
    }

    /** An opening bracket marks its own place and goes on the stack. */
    method SeeOpener(bpa: array<Slot>, n: nat, p: nat) returns (n': nat)
      requires n <= bpa.Length == limit && p < |items| && items[p].Opens() && Fits() && Recorded(p)
      requires bpa as object != pairing && OnStack(bpa[..n], Pairs(items, mirror, p).stack, p)
      modifies bpa, pairing
      ensures n' == n + 1 <= limit && OnStack(bpa[..n'], Pairs(items, mirror, p + 1).stack, p + 1) && Recorded(p + 1)
    {
      ghost var ts, st := bpa[..n], Pairs(items, mirror, p).stack;
      PairsNested(items, mirror, p);
      OpenNext(p);
      assert |Pairs(items, mirror, p + 1).stack| <= limit;
      hide Has, Pairs, Enclosed;
      assert Entered(p, p);
      if pairing[p] == -1 { pairing[p] := p; }
      n' := n;
      if n < limit {
        bpa[n] := Slot(mirror(items[p].Canonical()), p, false, false);
        n' := n + 1;
      }
      forall q | 0 <= q < n
        ensures Knows(bpa[q], st[q], p + 1)
      {
        assert Knows(ts[q], st[q], p);
        HasNext(items, true, st[q].i + 1, p, LevelDir(level));
        HasNext(items, true, st[q].i + 1, p, Opposite(LevelDir(level)));
      }
      HasNone(p, LevelDir(level));
      HasNone(p, Opposite(LevelDir(level)));
      ghost var after := p + 1;
      forall i: nat | 0 <= i < |items|
        ensures Entered(after, i)
      {
        assert old(Entered(p, i));
        KeepOpener(p, i, old(pairing[i]), enclosed[i]);
      }
    }

    lemma HasNone(p: nat, d: Dir)
      ensures !Has(items, true, p + 1, p + 1, d)
    {
    }

    lemma KeepOpener(p: nat, i: nat, paired: int, inside: BidiType)
      requires p < |items| && i < |items| && items[p].Opens() && IsEntry(p, i, paired, inside)
      ensures i == p ==> paired == -1
      ensures IsEntry(p + 1, i, if i == p then p else paired, inside)
    {
      PairsNested(items, mirror, p);
      OpenNext(p);
      hide Pairs, Enclosed;
    }

    lemma KeepText(p: nat, i: nat, paired: int, inside: BidiType)
      requires p < |items| && i < |items| && IsEntry(p, i, paired, inside)
      requires !items[p].Opens() && Pairs(items, mirror, p + 1).pairs == Pairs(items, mirror, p).pairs
      ensures IsEntry(p + 1, i, paired, inside)
    {
    }

    /** The entry of a bracket that finds its pair, and the others. */
    lemma KeepPair(p: nat, i: nat, k: nat, paired: int, inside: BidiType)
      requires p < |items| && i < |items| && items[p].Closes() && IsEntry(p, i, paired, inside)
      requires k == Match(Pairs(items, mirror, p).stack, items[p].Canonical()) && k < |Pairs(items, mirror, p).stack|
      ensures var o := Pairs(items, mirror, p).stack[k].i;
        IsEntry(p + 1, i, if i == o then p else paired, if i == o then Enclosed(items, true, level, o, p) else inside)
    {
      CloseNext(p);
    }

    /** The topmost entry of the stack that a closing bracket matches. */
    method FindMatch(bpa: array<Slot>, n: nat, p: nat) returns (k: int)
      requires n <= bpa.Length && p < |items| && OnStack(bpa[..n], Pairs(items, mirror, p).stack, p)
      ensures -1 <= k < n && k == Match(Pairs(items, mirror, p).stack, items[p].Canonical())
    {
      ghost var st := Pairs(items, mirror, p).stack;
      var cur := items[p].Canonical();
      MatchIs(st, cur);
      hide Has, Pairs, Match;
      k := n - 1;
      while k >= 0 && bpa[k].close != cur
        invariant -1 <= k < n && forall j :: k < j < n ==> bpa[j].close != cur
      {
        k := k - 1;
      }
      assert forall j :: 0 <= j < n ==> bpa[..n][j].close == st[j].close;
    }

    /** A closing bracket: the opener it matches gets its pair and what the pair encloses. */
    method SeeCloser(bpa: array<Slot>, n: nat, p: nat) returns (n': nat)
      requires n <= bpa.Length && p < |items| && items[p].Closes() && Recorded(p)
      requires bpa as object != pairing && bpa as object != enclosed
      requires OnStack(bpa[..n], Pairs(items, mirror, p).stack, p)
      modifies pairing, enclosed
      ensures n' <= n && OnStack(bpa[..n'], Pairs(items, mirror, p + 1).stack, p + 1) && Recorded(p + 1)
      ensures n' < n || Pairs(items, mirror, p + 1) == Pairs(items, mirror, p)
    {
      ghost var s := Pairs(items, mirror, p);
      PairsNested(items, mirror, p);
      CloseNext(p);
      var k := FindMatch(bpa, n, p);
      hide Has, Pairs, Match, Enclosed;
      n' := n;
      ghost var after := p + 1;
      if k >= 0 {
        var t := bpa[k];
        ghost var o := s.stack[k];
        assert bpa[..n][k] == t && Knows(t, o, p);
        WhatIsInside(t, o, p);
        enclosed[t.idx] :=
          if t.embedding then DirType(LevelDir(level))
          else if t.opposite then DirType(Opposite(LevelDir(level)))
          else Unknown;
        pairing[t.idx] := p;
        n' := k;
        forall i: nat | 0 <= i < |items|
          ensures Entered(after, i)
        {
          assert old(Entered(p, i));
          KeepPair(p, i, k, old(pairing[i]), old(enclosed[i]));
        }
      } else {
        forall i: nat | 0 <= i < |items|
          ensures Entered(after, i)
        {
          assert old(Entered(p, i));
          KeepText(p, i, pairing[i], enclosed[i]);
        }
      }
      ClosedOver(bpa[..n], s.stack, n', p);
      assert bpa[..n][..n'] == bpa[..n'];
    }

    lemma WhatIsInside(t: Slot, o: Opener, p: nat)
      requires Knows(t, o, p)
      ensures Enclosed(items, true, level, o.i, p) ==
        if t.embedding then DirType(LevelDir(level))
        else if t.opposite then DirType(Opposite(LevelDir(level)))
        else Unknown
    {
    }

    /** A closing bracket has no direction of its own. */
    lemma ClosedOver(ts: seq<Slot>, st: seq<Opener>, n: nat, p: nat)
      requires OnStack(ts, st, p) && n <= |ts| && p < |items| && items[p].Closes()
      requires forall a :: 0 <= a < |st| ==> st[a].i < p
      ensures OnStack(ts[..n], st[..n], p + 1)
    {
      hide Has;
      forall q | 0 <= q < n
        ensures Knows(ts[q], st[q], p + 1)
      {
        HasNext(items, true, st[q].i + 1, p, LevelDir(level));
        HasNext(items, true, st[q].i + 1, p, Opposite(LevelDir(level)));
      }
    }

    /** The bracket that the scan started from is at the bottom of the stack. */
    ghost predicate Waiting(start: nat, p: nat)
      requires p <= |items|
    {
      var st := Pairs(items, mirror, p).stack;
      st != [] && st[0].i == start
    }

    lemma NothingOnStack(p: nat)
      requires p <= |items| && Pairs(items, mirror, p).stack == []
      ensures OnStack([], Pairs(items, mirror, p).stack, p)
    {
    }

    lemma OpenerWaits(start: nat, p: nat)
      requires start <= p < |items| && items[p].Opens()
      requires if p == start then Pairs(items, mirror, p).stack == [] else Waiting(start, p)
      ensures Waiting(start, p + 1)
    {
      OpenNext(p);
    }

    lemma CloserWaits(start: nat, p: nat, ts: seq<Slot>)
      requires p < |items| && items[p].Closes() && Waiting(start, p)
      requires OnStack(ts, Pairs(items, mirror, p + 1).stack, p + 1) && ts != []
      ensures Waiting(start, p + 1)
    {
      CloseNext(p);
    }

    lemma AllClosed(start: nat, p: nat, ts: seq<Slot>)
      requires p < |items| && items[p].Closes() && Waiting(start, p)
      requires OnStack(ts, Pairs(items, mirror, p + 1).stack, p + 1) && ts == []
      ensures Pairs(items, mirror, p + 1).stack == [] && start in Pairs(items, mirror, |items|).pairs
    {
      CloseNext(p);
      hide Pairs, Match;
      PairsStay(items, mirror, p + 1, |items|, start);
    }

    lemma StillWaiting(start: nat)
      requires Waiting(start, |items|)
      ensures start !in Pairs(items, mirror, |items|).pairs
    {
      PairsNested(items, mirror, |items|);
    }

    lemma SeenText(start: nat, p: nat)
      requires p < |items| && !items[p].Opens() && !items[p].Closes() && Recorded(p)
      ensures Recorded(p + 1) && (Waiting(start, p) ==> Waiting(start, p + 1))
    {
      TextNext(p);
      hide Pairs, Enclosed;
      forall i: nat | i < |items| && Entered(p, i)
        ensures IsEntry(p + 1, i, pairing[i], enclosed[i])
      {
        KeepText(p, i, pairing[i], enclosed[i]);
      }
    }

    /** Scans from an opening bracket on until every bracket seen is dealt with, or to the end;
        tells whether the bracket has a pair. */
    method FindPairs(start: nat) returns (found: bool, stop: nat)
      requires start < |items| && items[start].Opens() && Fits() && Recorded(start)
      requires Pairs(items, mirror, start).stack == []
      modifies pairing, enclosed
      ensures start < stop <= |items| && Recorded(stop)
      ensures found <==> start in Pairs(items, mirror, |items|).pairs
      ensures stop < |items| ==> Pairs(items, mirror, stop).stack == []
    {
      hide Has, Pairs, Match, Enclosed, Nested, Brackets.Fits, Brackets.Recorded, Brackets.OnStack;
      var bpa := new Slot[limit](_ => Slot(0, 0, false, false));
      var n, p := 0, start;
      NothingOnStack(start);
      assert bpa[..0] == [];
      while true
        invariant start <= p < |items| && n <= bpa.Length == limit
        invariant Recorded(p) && OnStack(bpa[..n], Pairs(items, mirror, p).stack, p)
        invariant p > start ==> n > 0 && Waiting(start, p)
        decreases |items| - p
      {
        if items[p].Opens() {
          n := SeeOpener(bpa, n, p);
          OpenerWaits(start, p);
        } else if items[p].Closes() {
          n := SeeCloser(bpa, n, p);
          if n == 0 {
            AllClosed(start, p, bpa[..n]);
            return true, p + 1;
          }
          CloserWaits(start, p, bpa[..n]);
        } else {
          SeeText(bpa, n, p);
          SeenText(start, p);
        }
        p := p + 1;
        if p == |items| {
          StillWaiting(start);
          return false, p;
        }
      }
    }

    /** The whole sequence: every opening bracket not yet dealt with starts a scan. */
    method Resolve()
      requires Fits() && Recorded(0)
      modifies pairing, enclosed
      ensures Recorded(|items|)
      ensures forall i :: 0 <= i < |items| ==>
        var p := Pairs(items, mirror, |items|).pairs;
        pairing[i] == if i in p then p[i]
                      else if items[i].afterWn == NeutralON && items[i].property == Open then i else -1
      ensures forall i :: 0 <= i < |items| && pairing[i] > i ==>
        var seen := set k | i < k < pairing[i] && k < |items|
                            && items[k].afterWn !in {NeutralB, NeutralS, NeutralWS, NeutralON} :: items[k].typ;
        var ltr, rtl := StrongL in seen, seen * {StrongR, WeakEN, WeakAN} != {};
        enclosed[i] == if level % 2 == 0 then (if ltr then StrongL else if rtl then StrongR else Unknown)
                       else (if rtl then StrongR else if ltr then StrongL else Unknown)
    {
      hide Has, Pairs, Match, Enclosed, Nested, Brackets.Fits, Brackets.IsEntry;
      ghost var done := 0;
      NothingYet();
      for i := 0 to |items|
        invariant i <= done <= |items| && Recorded(done)
        invariant done < |items| ==> Pairs(items, mirror, done).stack == []
      {
        if items[i].Opens() && pairing[i] == -1 {
          Undealt(i, done);
          var found, stop := FindPairs(i);
          done := stop;
        } else if i == done {
          PassBy(i);
          done := i + 1;
        }
      }
      RecordedPairs();
      RecordedInside();
      forall i: nat | i < |items| {
        EnclosedIs(items, level, i, if pairing[i] > 0 then pairing[i] else 0);
      }
    }

    lemma RecordedPairs()
      requires Recorded(|items|)
      ensures forall i :: 0 <= i < |items| ==>
        var p := Pairs(items, mirror, |items|).pairs;
        pairing[i] == if i in p then p[i]
                      else if items[i].afterWn == NeutralON && items[i].property == Open then i else -1
    {
      forall i | 0 <= i < |items|
        ensures
          var p := Pairs(items, mirror, |items|).pairs;
          pairing[i] == if i in p then p[i]
                        else if items[i].afterWn == NeutralON && items[i].property == Open then i else -1
      {
        assert Entered(|items|, i);
      }
    }

    lemma RecordedInside()
      requires Recorded(|items|)
      ensures forall i :: 0 <= i < |items| && pairing[i] > i ==>
        pairing[i] <= |items| && enclosed[i] == Enclosed(items, true, level, i, pairing[i])
    {
      PairsNested(items, mirror, |items|);
      hide Pairs, Enclosed;
      forall i | 0 <= i < |items| && pairing[i] > i
        ensures pairing[i] <= |items| && enclosed[i] == Enclosed(items, true, level, i, pairing[i])
      {
        assert Entered(|items|, i);
      }
    }

    lemma NothingYet()
      ensures Pairs(items, mirror, 0).stack == []
    {
    }

    /** An opening bracket without a mark was not scanned yet. */
    lemma Undealt(i: nat, done: nat)
      requires i <= done <= |items| && i < |items| && Recorded(done) && items[i].Opens() && pairing[i] == -1
      ensures i == done
    {
      assert Entered(done, i);
      PairsNested(items, mirror, done);
    }

    lemma PassBy(i: nat)
      requires i < |items| && Recorded(i) && Pairs(items, mirror, i).stack == []
      requires !(items[i].Opens() && pairing[i] == -1)
      ensures Recorded(i + 1) && Pairs(items, mirror, i + 1).stack == []
    {
      assert Entered(i, i);
      PairsNested(items, mirror, i);
      if items[i].Closes() { CloseNext(i); } else { TextNext(i); }
      assert Pairs(items, mirror, i + 1) == Pairs(items, mirror, i);
      hide Pairs, Enclosed;
      ghost var after := i + 1;
      forall j: nat | 0 <= j < |items|
        ensures Entered(after, j)
      {
        assert Entered(i, j);
        KeepText(i, j, pairing[j], enclosed[j]);
      }
    }
  }
}
