/** What the steps of the rules X1 to X8 come to: the level that each initiator enters, what the
    closing characters undo, and that balanced text leaves no trace. */
module BidiLaws {
  import opened BidiRules

  /** An initiator that fits enters the least greater level of its direction: odd for right-to-left
      ones, even for left-to-right ones.  One that does not fit is only counted. */
  lemma Enter(s: Status, t: BidiType)
    requires s.stack != [] && t in {RLE, RLO, RLI, LRE, LRO, LRI}
    ensures var s', from := s.Step(t), s.stack[|s.stack| - 1].level;
      if s.overflowIsolates == 0 && s.overflowEmbeddings == 0 && from < (if t in {RLE, RLO, RLI} then 125 else 124) then
        && |s'.stack| == |s.stack| + 1 && s'.stack[..|s.stack|] == s.stack
        && from < s'.stack[|s.stack|].level <= 125
        && s'.stack[|s.stack|].level % 2 == (if t in {RLE, RLO, RLI} then 1 else 0)
        && (forall l :: from < l < s'.stack[|s.stack|].level ==> l % 2 == (if t in {RLE, RLO, RLI} then 0 else 1))
        && s'.stack[|s.stack|].override == (if t == RLO then R2L else if t == LRO then L2R else NeutralDir)
        && (s'.stack[|s.stack|].isolate <==> t in {RLI, LRI})
        && s'.overflowIsolates == s'.overflowEmbeddings == 0
        && s'.validIsolates == s.validIsolates + (if t in {RLI, LRI} then 1 else 0)
      else
        && s'.stack == s.stack && s'.validIsolates == s.validIsolates
        && s'.overflowIsolates == s.overflowIsolates + (if t in {RLI, LRI} then 1 else 0)
        && s'.overflowEmbeddings
           == s.overflowEmbeddings + (if t !in {RLI, LRI} && s.overflowIsolates == 0 then 1 else 0)
  {
  }

  /** A PDF undoes an embedding that did not fit, or the last one that did if it is on top, and
      otherwise nothing. */
  lemma LeaveEmbedding(s: Status)
    requires s.Valid()
    ensures s.overflowIsolates > 0 ==> s.Step(PDF) == s
    ensures s.overflowIsolates == 0 && s.overflowEmbeddings > 0 ==>
      s.Step(PDF) == s.(overflowEmbeddings := s.overflowEmbeddings - 1)
    ensures s.overflowIsolates == 0 && s.overflowEmbeddings == 0 ==>
      s.Step(PDF) == if |s.stack| == 1 || s.stack[|s.stack| - 1].isolate then s
                     else s.(stack := s.stack[..|s.stack| - 1])
  {
  }

  /** A PDI undoes an isolate that did not fit, or cuts the stack to below the last one that did,
      with every embedding in it, and otherwise nothing. */
  lemma LeaveIsolate(s: Status)
    requires s.Valid()
    ensures s.overflowIsolates > 0 ==> s.Step(PDI) == s.(overflowIsolates := s.overflowIsolates - 1)
    ensures s.overflowIsolates == 0 && (forall e :: e in s.stack ==> !e.isolate) ==> s.Step(PDI) == s
    ensures forall k ::
      (&& s.overflowIsolates == 0 && 0 <= k < |s.stack| && s.stack[k].isolate
       && forall j :: k < j < |s.stack| ==> !s.stack[j].isolate) ==>
        s.validIsolates > 0 && s.Step(PDI) == Status(s.stack[..k], 0, 0, s.validIsolates - 1)
  {
    Leaving(s);
    if forall e :: e in s.stack ==> !e.isolate { NoIsolates(s.stack); }
    forall k | s.overflowIsolates == 0 && 0 <= k < |s.stack| && s.stack[k].isolate
      && forall j :: k < j < |s.stack| ==> !s.stack[j].isolate
      ensures s.validIsolates > 0 && s.Step(PDI) == Status(s.stack[..k], 0, 0, s.validIsolates - 1)
    {
      NoIsolates(s.stack[k + 1..]);
      CloseOwn(s, k);
      hide Status.Step, Isolates, BeforeIsolate;
    }
  }

  /** The end of a paragraph undoes everything. */
  lemma EndParagraph(s: Status)
    requires s.stack != []
    ensures s.Step(NeutralB) == Status([Entry(s.stack[0].level, NeutralDir, false)], 0, 0, 0)
  {
  }

  lemma {:induction false} NoIsolates(s: seq<Entry>)
    requires forall e :: e in s ==> !e.isolate
    ensures Isolates(s) == 0
  {
    if s != [] { NoIsolates(s[..|s| - 1]); }
  }

  /** Every other character leaves the status alone. */
  lemma Stay(s: Status, t: BidiType)
    requires t !in {RLE, RLO, RLI, LRE, LRO, LRI, PDF, PDI, NeutralB}
    ensures s.Step(t) == s
  {
  }

  /** The level of a character is that of the entry on top: for a PDI the one left after it, for
      the end of a paragraph the paragraph's, and else the one before it. */
  lemma LevelIs(s: Status, t: BidiType)
    requires s.Valid()
    ensures s.Step(t).stack != []
    ensures s.Level(t) == if t.PDI? then s.Step(t).stack[|s.Step(t).stack| - 1].level
                          else if t.NeutralB? then s.stack[0].level
                          else s.stack[|s.stack| - 1].level
  {
    StepValid(s, t);
  }

  /** Under an override an isolate initiator takes the direction of the override. */
  lemma InitiatorTypeIs(s: Status, t: BidiType)
    requires s.stack != []
    ensures var override := s.stack[|s.stack| - 1].override;
      && (override == L2R ==> s.InitiatorType(t) == StrongL)
      && (override == R2L ==> s.InitiatorType(t) == StrongR)
      && (override == NeutralDir ==> s.InitiatorType(t) == t)
  {
  }

  // ---------- Whole texts ----------

  function Read(s: Status, text: seq<Char>): Status {
    if text == [] then s else Read(s, text[..|text| - 1]).Step(text[|text| - 1].Type())
  }

  lemma {:induction false} ReadJoin(s: Status, a: seq<Char>, b: seq<Char>)
    ensures Read(s, a + b) == Read(Read(s, a), b)
  {
    if b == [] {
      assert a + b == a;
    } else {
      assert (a + b)[..|a + b| - 1] == a + b[..|b| - 1];
      ReadJoin(s, a, b[..|b| - 1]);
    }
  }

  lemma ReadOne(s: Status, c: Char)
    ensures Read(s, [c]) == s.Step(c.Type())
  {
    assert Read(s, [c][..0]) == s;
  }

  lemma {:induction false} ReadValid(s: Status, text: seq<Char>)
    requires s.Valid()
    ensures Read(s, text).Valid()
  {
    if text != [] {
      ReadValid(s, text[..|text| - 1]);
      StepValid(Read(s, text[..|text| - 1]), text[|text| - 1].Type());
    }
  }

  lemma {:induction false} AfterRead(base: nat, text: seq<Char>, m: nat, n: nat)
    requires m <= n <= |text|
    ensures After(base, text, n) == Read(After(base, text, m), text[m..n])
  {
    if m < n {
      AfterRead(base, text, m, n - 1);
      assert text[m..n][..n - m - 1] == text[m..n - 1];
    }
  }

  /** The isolates opened and not yet closed in a text. */
  function Depth(text: seq<Char>): int {
    if text == [] then 0
    else
      var t := text[|text| - 1].Type();
      Depth(text[..|text| - 1]) + if IsInitiator(t) then 1 else if t.PDI? then -1 else 0
  }

  /** No PDI in the text closes more than the text opens, and the paragraph goes on. */
  ghost predicate Inside(text: seq<Char>) {
    forall i :: 0 <= i < |text| ==> !text[i].t.NeutralB? && Depth(text[..i + 1]) >= 0
  }

  lemma InsidePrefix(text: seq<Char>)
    requires Inside(text) && text != []
    ensures Inside(text[..|text| - 1]) && Depth(text) >= 0 && !text[|text| - 1].Type().NeutralB?
  {
    var n := |text| - 1;
    assert text[..n + 1] == text;
    forall i | 0 <= i < n
      ensures !text[..n][i].t.NeutralB? && Depth(text[..n][..i + 1]) >= 0
    {
      assert text[..n][..i + 1] == text[..i + 1];
    }
  }

  /** Inside an isolate at the k-th entry. */
  lemma {:induction false} ReadInside(s: Status, k: nat, body: seq<Char>)
    requires s.Valid() && 0 < k < |s.stack| && s.stack[k].isolate && Inner(s, k) == 0 && Inside(body)
    ensures var s' := Read(s, body);
      s'.Valid() && k < |s'.stack| && s'.stack[..k + 1] == s.stack[..k + 1] && Inner(s', k) == Depth(body)
  {
    if body != [] {
      var n, c := |body| - 1, body[|body| - 1];
      InsidePrefix(body);
      ReadInside(s, k, body[..n]);
      var before := Read(s, body[..n]);
      assert before.stack[k] == before.stack[..k + 1][k] == s.stack[k];
      hide Status.Step, Inner, Status.Valid, Inside;
      StepValid(before, c.Type());
      if c.Type().PDI? {
        CloseInside(before, k);
        Leaving(before);
      } else {
        StepInside(before, c.Type(), k);
      }
    }
  }

  lemma Leaving(s: Status)
    ensures s.Step(PDI) == s.CloseIsolate()
  {
  }

  /** Inside an isolate that did not fit. */
  lemma {:induction false} ReadOverflow(s: Status, body: seq<Char>)
    requires s.overflowIsolates > 0 && Inside(body)
    ensures Depth(body) >= 0 && Read(s, body) == s.(overflowIsolates := s.overflowIsolates + Depth(body))
  {
    if body != [] {
      InsidePrefix(body);
      ReadOverflow(s, body[..|body| - 1]);
    }
  }

  /** An isolate, whatever is in it, leaves no trace after its PDI. */
  lemma IsolateBack(s: Status, open: Char, body: seq<Char>, close: Char)
    requires s.Valid() && open.t in {RLI, LRI, FSI} && Inside(body) && Depth(body) == 0 && close.t == PDI
    ensures Read(s, [open] + body + [close]) == s
  {
    var s1 := s.Step(open.Type());
    ReadOne(s, open);
    ReadJoin(s, [open], body);
    ReadJoin(s, [open] + body, [close]);
    ReadOne(Read(s1, body), close);
    IsolateClosed(s, open.Type(), body);
  }

  lemma IsolateClosed(s: Status, t: BidiType, body: seq<Char>)
    requires s.Valid() && t in {RLI, LRI} && Inside(body) && Depth(body) == 0
    ensures Read(s.Step(t), body).Step(PDI) == s
  {
    hide *;
    var s1, k := s.Step(t), |s.stack|;
    IsolateOpened(s, t);
    if |s1.stack| == k {
      ReadOverflow(s1, body);
      Leaving(s1);
    } else {
      ReadInside(s1, k, body);
      var s2 := Read(s1, body);
      assert s2.stack[k] == s2.stack[..k + 1][k] == s1.stack[k];
      CloseBack(s, s1, s2);
    }
  }

  lemma IsolateOpened(s: Status, t: BidiType)
    requires s.Valid() && t in {RLI, LRI}
    ensures var s1, k := s.Step(t), |s.stack|;
      && s1.Valid() && s.stack != []
      && (if |s1.stack| == k then s1.overflowIsolates > 0 && s1.Step(PDI) == s
          else |s1.stack| == k + 1 && s1.stack[..k] == s.stack && s1.stack[k].isolate && Inner(s1, k) == 0
               && s.overflowIsolates == s.overflowEmbeddings == 0)
  {
    Enter(s, t);
    StepValid(s, t);
  }

  lemma CloseBack(s: Status, s1: Status, s2: Status)
    requires s.Valid() && s2.Valid() && s.overflowIsolates == s.overflowEmbeddings == 0
    requires var k := |s.stack|;
      && |s1.stack| == k + 1 && s1.stack[..k] == s.stack && k < |s2.stack| && s2.stack[..k + 1] == s1.stack[..k + 1]
      && s2.stack[k].isolate && Inner(s2, k) == 0
    ensures s2.Step(PDI) == s
  {
    var k := |s.stack|;
    CloseOwn(s2, k);
    assert s2.stack[..k] == s2.stack[..k + 1][..k] == s1.stack[..k + 1][..k] == s.stack;
    Leaving(s2);
    CloseValid(s2);
    hide BeforeIsolate;
    assert s2.overflowIsolates == 0;
    assert s2.CloseIsolate().validIsolates == Isolates(s2.CloseIsolate().stack) == s.validIsolates;
  }

  /** Balanced text: characters that neither open nor close anything, embeddings with balanced
      text in them, and isolates. */
  datatype Piece =
    | Plain(c: Char)
    | Embedding(open: Char, inside: seq<Piece>, close: Char)
    | Isolate(open: Char, body: seq<Char>, close: Char)
  {
    ghost predicate Ok() {
      match this
      case Plain(c) => c.t !in {RLE, RLO, RLI, LRE, LRO, LRI, FSI, PDF, PDI, NeutralB}
      case Embedding(open, inside, close) =>
        open.t in {RLE, RLO, LRE, LRO} && close.t == PDF && forall p :: p in inside ==> p.Ok()
      case Isolate(open, body, close) =>
        open.t in {RLI, LRI, FSI} && close.t == PDI && Inside(body) && Depth(body) == 0
    }

    function Text(): seq<Char> {
      match this
      case Plain(c) => [c]
      case Embedding(open, inside, close) => [open] + TextOf(inside) + [close]
      case Isolate(open, body, close) => [open] + body + [close]
    }
  }

  function TextOf(ps: seq<Piece>): seq<Char> {
    if ps == [] then [] else ps[0].Text() + TextOf(ps[1..])
  }

  /** Balanced text leaves no trace: the status after it is the one before it. */
  lemma {:induction false} BalancedBack(s: Status, ps: seq<Piece>)
    requires s.Valid() && forall p :: p in ps ==> p.Ok()
    ensures Read(s, TextOf(ps)) == s
    decreases ps, 0
  {
    if ps != [] {
      assert ps[0] in ps && ps[0].Ok() && forall p :: p in ps[1..] ==> p in ps;
      ReadJoin(s, ps[0].Text(), TextOf(ps[1..]));
      assert Read(s, ps[0].Text()) == s by {
        match ps[0]
        case Plain(c) => ReadOne(s, c);
        case Isolate(open, body, close) => IsolateBack(s, open, body, close);
        case Embedding(open, inside, close) => EmbeddingBack(s, open, inside, close);
      }
      BalancedBack(s, ps[1..]);
    }
  }

  lemma {:induction false} EmbeddingBack(s: Status, open: Char, inside: seq<Piece>, close: Char)
    requires s.Valid() && open.t in {RLE, RLO, LRE, LRO} && close.t == PDF && forall p :: p in inside ==> p.Ok()
    ensures Read(s, [open] + TextOf(inside) + [close]) == s
    decreases inside, 1
  {
    var s1 := s.Step(open.Type());
    ReadOne(s, open);
    ReadJoin(s, [open], TextOf(inside));
    ReadJoin(s, [open] + TextOf(inside), [close]);
    StepValid(s, open.Type());
    BalancedBack(s1, inside);
    ReadOne(s1, close);
    Enter(s, open.Type());
    LeaveEmbedding(s1);
  }

  /** In a paragraph, then: a character after balanced text gets the level it would get without it. */
  lemma SameLevelAfter(base: nat, text: seq<Char>, m: nat, n: nat, ps: seq<Piece>)
    requires base <= 1 && m <= n < |text| && text[m..n] == TextOf(ps) && forall p :: p in ps ==> p.Ok()
    ensures RuleLevel(base, text, n) == After(base, text, m).Level(text[n].Type())
  {
    AfterValid(base, text, m);
    AfterRead(base, text, m, n);
    BalancedBack(After(base, text, m), ps);
  }

  /** A retained character right after an initiator that fits has the level that it enters. */
  lemma LevelAfterInitiator(base: nat, text: seq<Char>, n: nat)
    requires base <= 1 && n + 1 < |text| && text[n].Type() in {RLE, RLO, RLI, LRE, LRO, LRI}
    requires !text[n + 1].t.PDI? && !text[n + 1].t.NeutralB?
    ensures After(base, text, n).stack != []
    ensures var s, t := After(base, text, n), text[n].Type();
      var from := s.stack[|s.stack| - 1].level;
      if s.overflowIsolates == 0 && s.overflowEmbeddings == 0 && from < (if t in {RLE, RLO, RLI} then 125 else 124)
      then from < RuleLevel(base, text, n + 1) <= from + 2
           && RuleLevel(base, text, n + 1) % 2 == (if t in {RLE, RLO, RLI} then 1 else 0)
      else RuleLevel(base, text, n + 1) == from
  {
    hide Status.Step, Status.Level;
    var s := After(base, text, n);
    AfterValid(base, text, n);
    AfterNext(base, text, n);
    Enter(s, text[n].Type());
    StepValid(s, text[n].Type());
    LevelIs(s.Step(text[n].Type()), text[n + 1].Type());
    var from := s.stack[|s.stack| - 1].level;
    assert (from + 1) % 2 != (from + 2) % 2;
  }

  lemma LevelsAfterInitiators(base: nat, text: seq<Char>)
    requires base <= 1
    ensures forall i ::
      (&& 0 <= i && i + 1 < |text| && text[i + 1].t !in {PDI, NeutralB}
       && text[i].t in {RLE, RLO, RLI, LRE, LRO, LRI, FSI}) ==>
        var s := After(base, text, i);
        && s.stack != []
        && var from := s.stack[|s.stack| - 1].level;
           var rtl := text[i].t in {RLE, RLO, RLI} || (text[i].t == FSI && text[i].rtlInside);
           if s.overflowIsolates == 0 && s.overflowEmbeddings == 0 && from < (if rtl then 125 else 124)
           then from < RuleLevel(base, text, i + 1) <= from + 2
                && RuleLevel(base, text, i + 1) % 2 == (if rtl then 1 else 0)
           else RuleLevel(base, text, i + 1) == from
  {
    hide After, RuleLevel;
    forall i | 0 <= i && i + 1 < |text| && text[i + 1].t !in {PDI, NeutralB}
      && text[i].t in {RLE, RLO, RLI, LRE, LRO, LRI, FSI}
      ensures
        var s := After(base, text, i);
        && s.stack != []
        && var from := s.stack[|s.stack| - 1].level;
           var rtl := text[i].t in {RLE, RLO, RLI} || (text[i].t == FSI && text[i].rtlInside);
           if s.overflowIsolates == 0 && s.overflowEmbeddings == 0 && from < (if rtl then 125 else 124)
           then from < RuleLevel(base, text, i + 1) <= from + 2
                && RuleLevel(base, text, i + 1) % 2 == (if rtl then 1 else 0)
           else RuleLevel(base, text, i + 1) == from
    {
      LevelAfterInitiator(base, text, i);
    }
  }
}
