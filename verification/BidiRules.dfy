/** Bidirectional character types, and the rules X1 to X8 of UAX #9, section 3.3.2, which give
    every character its explicit embedding level. */
module BidiRules {
  datatype BidiType =
    | Unknown | StrongL | StrongR | WeakEN | WeakAN | WeakBN | NeutralB | StrongAL
    | LRE | LRO | RLE | RLO | PDF | LRI | RLI | FSI | PDI
    | WeakES | WeakET | WeakCS | WeakNSM | NeutralS | NeutralWS | NeutralON

  datatype Dir = NeutralDir | L2R | R2L

  /** max_depth */
  const MAX_DEPTH: nat := 125

  /** A character: its type and, for an FSI, whether the text in it begins with right-to-left. */
  datatype Char = Char(t: BidiType, rtlInside: bool)
  {
    /** Rule X5c: an FSI acts as an RLI or as an LRI. */
    function Type(): BidiType { if t.FSI? then (if rtlInside then RLI else LRI) else t }
  }

  /** An entry of the directional status stack. */
  datatype Entry = Entry(level: nat, override: Dir, isolate: bool)

  datatype Status = Status(stack: seq<Entry>, overflowIsolates: nat, overflowEmbeddings: nat, validIsolates: nat)
  {
    function Last(): Entry { if stack == [] then Entry(0, NeutralDir, false) else stack[|stack| - 1] }

    predicate Fits(level: nat) { level <= MAX_DEPTH && overflowIsolates == 0 && overflowEmbeddings == 0 }

    function Push(e: Entry): Status { this.(stack := stack + [e]) }

    function Drop(): Status { if stack == [] then this else this.(stack := stack[..|stack| - 1]) }

    /** X2 to X5 */
    function Embed(level: nat, override: Dir): Status {
      if Fits(level) then Push(Entry(level, override, false))
      else if overflowIsolates == 0 then this.(overflowEmbeddings := overflowEmbeddings + 1)
      else this
    }

    /** X5a, X5b */
    function Isolate(level: nat): Status {
      if Fits(level) then Push(Entry(level, NeutralDir, true)).(validIsolates := validIsolates + 1)
      else this.(overflowIsolates := overflowIsolates + 1)
    }

    /** X6a */
    function CloseIsolate(): Status {
      if overflowIsolates > 0 then this.(overflowIsolates := overflowIsolates - 1)
      else if validIsolates == 0 then this
      else this.(overflowEmbeddings := 0, stack := BeforeIsolate(stack), validIsolates := validIsolates - 1)
    }

    /** X7 */
    function CloseEmbedding(): Status {
      if overflowIsolates > 0 then this
      else if overflowEmbeddings > 0 then this.(overflowEmbeddings := overflowEmbeddings - 1)
      else if !Last().isolate && |stack| >= 2 then Drop()
      else this
    }

    /** X2 to X8, by the type of the character. */
    function Step(t: BidiType): Status {
      match t
      case RLE => Embed(NextOdd(Last().level), NeutralDir)
      case RLO => Embed(NextOdd(Last().level), R2L)
      case LRE => Embed(NextEven(Last().level), NeutralDir)
      case LRO => Embed(NextEven(Last().level), L2R)
      case RLI => Isolate(NextOdd(Last().level))
      case LRI => Isolate(NextEven(Last().level))
      case PDI => CloseIsolate()
      case PDF => CloseEmbedding()
      case NeutralB => Start(if stack == [] then 0 else stack[0].level)
      case _ => this
    }

    /** The level of the character: an isolate initiator is outside of its isolate, and so is
        a PDI. */
    function Level(t: BidiType): nat {
      if t.PDI? || t.NeutralB? then Step(t).Last().level else Last().level
    }

    /** The type that the override status in force gives an isolate initiator. */
    function InitiatorType(t: BidiType): BidiType { Overridden(t, Last().override) }

    ghost predicate Valid() {
      && stack != [] && stack[0].level <= 1 && stack[0].override.NeutralDir? && !stack[0].isolate
      && (forall i, j :: 0 <= i < j < |stack| ==> stack[i].level < stack[j].level)
      && (forall i :: 0 <= i < |stack| ==> stack[i].level <= MAX_DEPTH)
      && validIsolates == Isolates(stack)
    }
  }

  /** X1 */
  function Start(base: nat): Status { Status([Entry(base, NeutralDir, false)], 0, 0, 0) }

  function NextOdd(level: nat): nat { if level % 2 == 0 then level + 1 else level + 2 }
  function NextEven(level: nat): nat { if level % 2 == 0 then level + 2 else level + 1 }

  function Overridden(t: BidiType, override: Dir): BidiType {
    match override
    case NeutralDir => t
    case L2R => StrongL
    case R2L => StrongR
  }

  /** The characters that rule X9 does not remove. */
  predicate Retained(t: BidiType) {
    !(t.RLE? || t.LRE? || t.RLO? || t.LRO? || t.PDF? || t.WeakBN?)
  }

  /** The stack below its last isolate. */
  function BeforeIsolate(stack: seq<Entry>): seq<Entry> {
    if stack == [] then []
    else if stack[|stack| - 1].isolate then stack[..|stack| - 1]
    else BeforeIsolate(stack[..|stack| - 1])
  }

  function Isolates(stack: seq<Entry>): nat {
    if stack == [] then 0
    else Isolates(stack[..|stack| - 1]) + if stack[|stack| - 1].isolate then 1 else 0
  }

  lemma {:induction false} BeforeIsolateIs(stack: seq<Entry>)
    requires Isolates(stack) > 0
    ensures var s := BeforeIsolate(stack);
      |s| < |stack| && s == stack[..|s|] && stack[|s|].isolate && Isolates(s) == Isolates(stack) - 1
    ensures forall i :: |BeforeIsolate(stack)| < i < |stack| ==> !stack[i].isolate
  {
    if !stack[|stack| - 1].isolate { BeforeIsolateIs(stack[..|stack| - 1]); }
  }

  lemma IsolatesPush(s: seq<Entry>, e: Entry)
    ensures Isolates(s + [e]) == Isolates(s) + if e.isolate then 1 else 0
  {
    assert (s + [e])[..|s|] == s;
  }

  lemma PushValid(s: Status, e: Entry)
    requires s.Valid() && s.Last().level < e.level <= MAX_DEPTH
    ensures s.Push(e).(validIsolates := s.validIsolates + if e.isolate then 1 else 0).Valid()
  {
    hide Isolates;
    IsolatesPush(s.stack, e);
  }

  lemma PrefixValid(s: Status, k: nat, s': Status)
    requires s.Valid() && 0 < k <= |s.stack| && s'.stack == s.stack[..k] && s'.validIsolates == Isolates(s'.stack)
    ensures s'.Valid()
  {
  }

  lemma CloseValid(s: Status)
    requires s.Valid()
    ensures s.CloseIsolate().Valid()
  {
    if s.overflowIsolates == 0 && s.validIsolates > 0 {
      BeforeIsolateIs(s.stack);
      hide BeforeIsolate, Isolates;
      PrefixValid(s, |BeforeIsolate(s.stack)|, s.CloseIsolate());
    }
  }

  lemma DropValid(s: Status)
    requires s.Valid()
    ensures s.CloseEmbedding().Valid()
  {
    if |s.stack| >= 2 && !s.Last().isolate { PrefixValid(s, |s.stack| - 1, s.Drop()); }
  }

  /** Every step keeps the stack strictly increasing and bounded, and the count of valid
      isolates equal to the isolate entries. */
  lemma StepValid(s: Status, t: BidiType)
    requires s.Valid()
    ensures s.Step(t).Valid()
  {
    hide BeforeIsolate, Status.Fits, Status.Valid;
    CloseValid(s);
    DropValid(s);
    StartValid(s);
    EmbedValid(s, NextOdd(s.Last().level));
    EmbedValid(s, NextEven(s.Last().level));
  }

  lemma StartValid(s: Status)
    requires s.Valid()
    ensures s.stack != [] && Start(s.stack[0].level).Valid()
  {
    assert Isolates([Entry(s.stack[0].level, NeutralDir, false)]) == 0;
  }

  lemma EmbedValid(s: Status, level: nat)
    requires s.Valid() && s.Last().level < level
    ensures s.Embed(level, NeutralDir).Valid() && s.Embed(level, L2R).Valid() && s.Embed(level, R2L).Valid()
    ensures s.Isolate(level).Valid()
  {
    hide Isolates;
    if level <= MAX_DEPTH {
      PushValid(s, Entry(level, NeutralDir, false));
      PushValid(s, Entry(level, L2R, false));
      PushValid(s, Entry(level, R2L, false));
      PushValid(s, Entry(level, NeutralDir, true));
    }
  }

  /** The stack never needs more than 126 entries. */
  lemma {:induction false} StackBound(s: seq<Entry>)
    requires forall i, j :: 0 <= i < j < |s| ==> s[i].level < s[j].level
    ensures forall i :: 0 <= i < |s| ==> s[i].level >= i
  {
    if s != [] {
      StackBound(s[..|s| - 1]);
      if |s| > 1 { assert s[..|s| - 1][|s| - 2].level >= |s| - 2; }
    }
  }

  // ---------- Inside an isolate ----------

  /** How many isolates, valid or not, are open inside the one at the k-th entry. */
  function Inner(s: Status, k: nat): nat
    requires k < |s.stack|
  {
    Isolates(s.stack[k + 1..]) + s.overflowIsolates
  }

  predicate IsInitiator(t: BidiType) { t.RLI? || t.LRI? }

  lemma {:induction false} IsolatesJoin(a: seq<Entry>, b: seq<Entry>)
    ensures Isolates(a + b) == Isolates(a) + Isolates(b)
  {
    if b == [] {
      assert a + b == a;
    } else {
      assert (a + b)[..|a + b| - 1] == a + b[..|b| - 1];
      IsolatesJoin(a, b[..|b| - 1]);
    }
  }

  lemma {:induction false} CloseHigh(low: seq<Entry>, high: seq<Entry>)
    requires Isolates(high) > 0
    ensures BeforeIsolate(low + high) == low + BeforeIsolate(high)
  {
    var s, n := low + high, |high| - 1;
    assert s[..|s| - 1] == low + high[..n];
    if !high[n].isolate { CloseHigh(low, high[..n]); }
  }

  lemma {:induction false} CloseLow(low: seq<Entry>, e: Entry, high: seq<Entry>)
    requires e.isolate && Isolates(high) == 0
    ensures BeforeIsolate(low + [e] + high) == low
  {
    var s := low + [e] + high;
    if high == [] {
      assert s == low + [e] && s[..|s| - 1] == low;
    } else {
      assert s[..|s| - 1] == low + [e] + high[..|high| - 1];
      CloseLow(low, e, high[..|high| - 1]);
    }
  }

  /** A PDI that is not the isolate's own leaves its entry alone, and closes an inner one. */
  lemma CloseInside(s: Status, k: nat)
    requires s.Valid() && k < |s.stack| && s.stack[k].isolate && Inner(s, k) > 0
    ensures var s' := s.CloseIsolate();
      k < |s'.stack| && s'.stack[..k + 1] == s.stack[..k + 1] && Inner(s', k) == Inner(s, k) - 1
  {
    if s.overflowIsolates == 0 {
      var low, high := s.stack[..k + 1], s.stack[k + 1..];
      hide Isolates, BeforeIsolate, Status.Fits;
      assert s.stack == low + high;
      IsolatesJoin(low, high);
      BeforeIsolateIs(high);
      CloseHigh(low, high);
      assert (low + BeforeIsolate(high))[..k + 1] == low && (low + BeforeIsolate(high))[k + 1..] == BeforeIsolate(high);
    }
  }

  /** The isolate's own PDI removes its entry and everything above. */
  lemma CloseOwn(s: Status, k: nat)
    requires s.Valid() && k < |s.stack| && s.stack[k].isolate && Inner(s, k) == 0
    ensures s.validIsolates > 0 && s.CloseIsolate().stack == s.stack[..k]
  {
    var low, e, high := s.stack[..k], s.stack[k], s.stack[k + 1..];
    hide Isolates, BeforeIsolate;
    assert s.stack == low + [e] + high;
    IsolatesPush(low, e);
    IsolatesJoin(low + [e], high);
    CloseLow(low, e, high);
  }

  /** Inside an isolate, other characters leave its entry alone. */
  lemma StepInside(s: Status, t: BidiType, k: nat)
    requires s.Valid() && 0 < k < |s.stack| && s.stack[k].isolate && !t.NeutralB? && !t.PDI?
    ensures k < |s.Step(t).stack| && s.Step(t).stack[..k + 1] == s.stack[..k + 1]
    ensures Inner(s.Step(t), k) == Inner(s, k) + if IsInitiator(t) then 1 else 0
  {
    hide Status.Valid, Isolates;
    PushInside(s, k);
    if !s.Last().isolate && |s.stack| >= 2 { DropInside(s, k); }
  }

  lemma PushInside(s: Status, k: nat)
    requires k < |s.stack|
    ensures forall e: Entry :: (s.stack + [e])[..k + 1] == s.stack[..k + 1]
    ensures forall e: Entry ::
      Isolates((s.stack + [e])[k + 1..]) == Isolates(s.stack[k + 1..]) + if e.isolate then 1 else 0
  {
    forall e: Entry
      ensures Isolates((s.stack + [e])[k + 1..]) == Isolates(s.stack[k + 1..]) + if e.isolate then 1 else 0
    {
      assert (s.stack + [e])[k + 1..] == s.stack[k + 1..] + [e];
      IsolatesPush(s.stack[k + 1..], e);
    }
  }

  lemma DropInside(s: Status, k: nat)
    requires k < |s.stack| && s.stack[k].isolate && !s.Last().isolate
    ensures k < |s.Drop().stack| && s.Drop().stack[..k + 1] == s.stack[..k + 1]
    ensures Isolates(s.Drop().stack[k + 1..]) == Isolates(s.stack[k + 1..])
  {
    var tail := s.stack[k + 1..];
    assert s.Drop().stack[k + 1..] == tail[..|tail| - 1];
  }

  // ---------- A whole text ----------

  /** The status after the first n characters of a paragraph. */
  function After(base: nat, text: seq<Char>, n: nat): Status
    requires n <= |text|
  {
    if n == 0 then Start(base) else After(base, text, n - 1).Step(text[n - 1].Type())
  }

  lemma AfterStart(base: nat, text: seq<Char>)
    ensures After(base, text, 0) == Start(base)
  {
  }

  lemma AfterNext(base: nat, text: seq<Char>, n: nat)
    requires n < |text|
    ensures After(base, text, n + 1) == After(base, text, n).Step(text[n].Type())
  {
  }

  /** The level that the rules give the n-th character. */
  function RuleLevel(base: nat, text: seq<Char>, n: nat): nat
    requires n < |text|
  {
    After(base, text, n).Level(text[n].Type())
  }

  lemma RuleLevelIs(base: nat, text: seq<Char>, n: nat)
    requires n < |text|
    ensures RuleLevel(base, text, n) == After(base, text, n).Level(text[n].Type())
  {
  }

  lemma {:induction false} AfterValid(base: nat, text: seq<Char>, n: nat)
    requires base <= 1 && n <= |text|
    ensures After(base, text, n).Valid()
  {
    if n == 0 {
      assert Isolates([Entry(base, NeutralDir, false)]) == 0;
    } else {
      AfterValid(base, text, n - 1);
      StepValid(After(base, text, n - 1), text[n - 1].Type());
    }
  }
}
