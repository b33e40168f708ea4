/** The resolution of explicit levels, one character at a time.  Isolates are pushed, and
    embeddings ended, only when the character after their initiator or PDF is looked at. */
module BidiExplicit {
  import opened Lists
  import opened BidiRules
  import opened BidiLaws

  /** The number of a type, in the order of its enumeration. */
  function Code(t: BidiType): nat {
    match t
    case Unknown => 0 case StrongL => 1 case StrongR => 2 case WeakEN => 3 case WeakAN => 4
    case WeakBN => 5 case NeutralB => 6 case StrongAL => 7 case LRE => 8 case LRO => 9
    case RLE => 10 case RLO => 11 case PDF => 12 case LRI => 13 case RLI => 14 case FSI => 15
    case PDI => 16 case WeakES => 17 case WeakET => 18 case WeakCS => 19 case WeakNSM => 20
    case NeutralS => 21 case NeutralWS => 22 case NeutralON => 23
  }

  function FromCode(n: nat): BidiType
    requires n < 8
  {
    if n == 0 then Unknown else if n == 1 then StrongL else if n == 2 then StrongR else if n == 3 then WeakEN
    else if n == 4 then WeakAN else if n == 5 then WeakBN else if n == 6 then NeutralB else StrongAL
  }

  /** A type that went through a field of three bits. */
  function InThreeBits(t: BidiType): BidiType { FromCode(Code(t) % 8) }

  /** What is remembered about the text before the current character. */
  datatype Context = Context(sos: Dir, prev: BidiType, lastStrong: BidiType, prevForNeutral: BidiType,
                             nextForNeutral: BidiType, nextPos: int)

  /** The context that a PDI finds again, given the one in which its isolate was entered. */
  function Restored(c: Context): Context {
    Context(c.sos, Unknown, InThreeBits(c.lastStrong), InThreeBits(c.prevForNeutral), InThreeBits(c.nextForNeutral),
      c.nextPos)
  }

  /** The context is restored as it was exactly when its types are among the first eight. */
  lemma RestoredExactly(c: Context)
    ensures var first := {Unknown, StrongL, StrongR, WeakEN, WeakAN, WeakBN, NeutralB, StrongAL};
      Restored(c) == c.(prev := Unknown) <==>
        c.lastStrong in first && c.prevForNeutral in first && c.nextForNeutral in first
  {
    CodeAgain(c.lastStrong);
    CodeAgain(c.prevForNeutral);
    CodeAgain(c.nextForNeutral);
  }

  /** The types that resolution puts into the context all fit into three bits. */
  lemma UsualRestored(c: Context)
    requires c.lastStrong in {Unknown, StrongL, StrongR, StrongAL}
    requires c.prevForNeutral in {StrongL, StrongR, WeakEN, WeakAN}
    requires c.nextForNeutral in {Unknown, StrongL, StrongR}
    ensures Restored(c) == c.(prev := Unknown)
  {
    RestoredExactly(c);
  }

  lemma CodeAgain(t: BidiType)
    ensures InThreeBits(t) == t <==> Code(t) < 8
  {
  }

  /** A level run starts: only the direction of its start is known. */
  function RunStart(before: nat, after: nat, nextPos: int): Context {
    var sos := if (if before > after then before else after) % 2 != 0 then R2L else L2R;
    Context(sos, Unknown, Unknown, if sos == R2L then StrongR else StrongL, Unknown, nextPos)
  }

  /** The run's direction is that of the higher of the two levels, and the text before it counts
      as of that direction; nothing else is remembered. */
  lemma RunStartIs(before: nat, after: nat, nextPos: int)
    ensures var c, higher := RunStart(before, after, nextPos), if after < before then before else after;
      && (higher % 2 == 0 ==> c.sos == L2R && c.prevForNeutral == StrongL)
      && (higher % 2 == 1 ==> c.sos == R2L && c.prevForNeutral == StrongR)
      && c.prev == c.lastStrong == c.nextForNeutral == Unknown && c.nextPos == nextPos
  {
  }

  /** An entry of the level stack; the last five fields are filled for isolates only. */
  datatype Slot = Slot(level: nat, override: Dir, isolate: bool,
                       sos: Dir, last3: nat, prev3: nat, next3: nat, nextPos: int)
  {
    function AsEntry(): Entry { Entry(level, override, isolate) }

    /** The slot holds the context c, its types cut to three bits. */
    ghost predicate Holds(c: Context) {
      && sos == (if c.sos == L2R then L2R else R2L)
      && last3 == Code(c.lastStrong) % 8 && prev3 == Code(c.prevForNeutral) % 8
      && next3 == Code(c.nextForNeutral) % 8 && nextPos == c.nextPos
    }
  }

  /** The least greater level of the given direction. */
  function Up(level: nat, rtl: bool): nat { if rtl then NextOdd(level) else NextEven(level) }

  lemma UpBits(level: nat, rtl: bool)
    ensures (if rtl then (level + 1) / 2 * 2 + 1 else (level + 2) / 2 * 2) == Up(level, rtl) > level
    ensures Up(level, rtl) <= MAX_DEPTH <==> if rtl then level < MAX_DEPTH else level < MAX_DEPTH - 1
  {
  }

  ghost function Entries(slots: seq<Slot>): seq<Entry> {
    seq(|slots|, i requires 0 <= i < |slots| => slots[i].AsEntry())
  }

  class Explicit {
    const levelStack: array<Slot>
    var stackIdx: nat
    var isolateLevel: nat
    var invalidLevels: nat
    var invalidIsolates: nat
    var ctx: Context
    var origType: BidiType
    var typeAfterWn: BidiType
    var resolvedLevel: nat

    ghost function Stack(): seq<Entry>
      requires stackIdx < levelStack.Length
      reads this`stackIdx, levelStack
    {
      Entries(levelStack[..stackIdx + 1])
    }

    ghost function Counted(): Status
      requires stackIdx < levelStack.Length
      reads this`stackIdx, this`isolateLevel, this`invalidLevels, this`invalidIsolates, levelStack
    {
      Status(Stack(), invalidIsolates, invalidLevels, isolateLevel)
    }

    /** The status once the action that the last character left pending is done. */
    ghost function Settled(): Status
      requires stackIdx < levelStack.Length
      reads this`stackIdx, this`isolateLevel, this`invalidLevels, this`invalidIsolates, this`origType, levelStack
    {
      if Pending(origType) then Counted().Step(origType) else Counted()
    }

    ghost predicate Valid()
      reads this`stackIdx, this`isolateLevel, this`invalidLevels, this`invalidIsolates, this`ctx, levelStack
    {
      && levelStack.Length == MAX_DEPTH + 3 && stackIdx < levelStack.Length
      && Counted().Valid() && (ctx.sos.L2R? || ctx.sos.R2L?)
      && BitsOk()
    }

    ghost predicate BitsOk()
      requires stackIdx < levelStack.Length
      reads this`stackIdx, levelStack
    {
      forall i :: 0 <= i <= stackIdx ==>
        && levelStack[i].last3 < 8 && levelStack[i].prev3 < 8 && levelStack[i].next3 < 8
        && !levelStack[i].sos.NeutralDir?
    }

    constructor (base: nat)
      requires base <= 1
      ensures fresh(levelStack) && Valid() && Settled() == Start(base)
    {
      var empty := Slot(base, NeutralDir, false, L2R, 0, 0, 0, 0);
      levelStack := new Slot[MAX_DEPTH + 3](_ => empty);
      stackIdx, isolateLevel, invalidLevels, invalidIsolates := 0, 0, 0, 0;
      ctx := RunStart(base, base, -1);
      origType, typeAfterWn, resolvedLevel := NeutralB, NeutralB, base;
      new;
      assert levelStack[..1] == [empty];
      assert Stack() == [Entry(base, NeutralDir, false)];
      AfterValid(base, [], 0);
    }

    ghost function Slots(): seq<Slot>
      requires stackIdx < levelStack.Length
      reads this`stackIdx, levelStack
    {
      levelStack[..stackIdx + 1]
    }

    method SetSosType(before: nat, after: nat)
      modifies this`ctx
      ensures ctx == RunStart(before, after, old(ctx.nextPos))
    {
      ctx := RunStart(before, after, ctx.nextPos);
    }

    /** Pushes an entry; for an isolate, the context goes with it. */
    method PushLevel(level: nat, override: Dir, isolate: bool)
      requires stackIdx + 1 < levelStack.Length && BitsOk()
      modifies this`stackIdx, this`ctx, levelStack
      ensures stackIdx == old(stackIdx) + 1 && Slots()[..stackIdx] == old(Slots())
      ensures Stack() == old(Stack()) + [Entry(level, override, isolate)]
      ensures isolate ==> levelStack[stackIdx].Holds(old(ctx))
      ensures BitsOk()
      ensures ctx == RunStart(old(levelStack[stackIdx].level), level, old(ctx.nextPos))
    {
      var prevLevel := levelStack[stackIdx].level;
      stackIdx := stackIdx + 1;
      var st := Slot(level, override, isolate, L2R, 0, 0, 0, 0);
      if isolate {
        st := st.(last3 := Code(ctx.lastStrong) % 8, prev3 := Code(ctx.prevForNeutral) % 8,
                  next3 := Code(ctx.nextForNeutral) % 8, nextPos := ctx.nextPos,
                  sos := if ctx.sos == L2R then L2R else R2L);
      }
      levelStack[stackIdx] := st;
      SetSosType(prevLevel, level);
    }

    /** Pops an entry; an isolate's gives the context back. */
    method PopLevel() returns (level: nat)
      requires stackIdx < levelStack.Length && BitsOk()
      modifies this`stackIdx, this`ctx
      ensures stackIdx == if old(stackIdx) > 0 then old(stackIdx) - 1 else 0
      ensures Stack() == if old(stackIdx) > 0 then old(Stack())[..stackIdx + 1] else old(Stack())
      ensures level == levelStack[stackIdx].level && BitsOk()
      ensures ctx ==
        if old(stackIdx) == 0 then old(ctx)
        else
          var st := levelStack[old(stackIdx)];
          if st.isolate then Context(st.sos, Unknown, FromCode(st.last3), FromCode(st.prev3), FromCode(st.next3),
            st.nextPos)
          else RunStart(st.level, level, old(ctx.nextPos))
    {
      if stackIdx > 0 {
        var st := levelStack[stackIdx];
        if st.isolate {
          ctx := Context(st.sos, Unknown, FromCode(st.last3), FromCode(st.prev3), FromCode(st.next3), st.nextPos);
        } else {
          SetSosType(st.level, levelStack[stackIdx - 1].level);
        }
        stackIdx := stackIdx - 1;
      }
      level := levelStack[stackIdx].level;
    }

    /** The stack has room: a level is at least its index. */
    lemma Room()
      requires Valid()
      ensures stackIdx < levelStack.Length && stackIdx <= levelStack[stackIdx].level <= MAX_DEPTH
      ensures Counted().Last() == levelStack[stackIdx].AsEntry() && |Counted().stack| == stackIdx + 1
    {
      StackBound(Stack());
      assert Stack()[stackIdx].level <= MAX_DEPTH;
    }

    method EnterIsolate(level: nat)
      requires Valid() && levelStack[stackIdx].level < level <= MAX_DEPTH
      modifies this`stackIdx, this`isolateLevel, this`ctx, levelStack
      ensures Valid() && Counted().Last().level == level
      ensures Counted() == old(Counted().Push(Entry(level, NeutralDir, true)).(validIsolates := isolateLevel + 1))
      ensures old(Slots()) <= Slots() && stackIdx == old(stackIdx) + 1 && levelStack[stackIdx].Holds(old(ctx))
    {
      Room();
      PushValid(Counted(), Entry(level, NeutralDir, true));
      hide Status.Valid, Entries, Explicit.BitsOk;
      isolateLevel := isolateLevel + 1;
      PushLevel(level, NeutralDir, true);
    }

    /** Enters an isolate, if it fits. */
    method OpenIsolate(rtl: bool) returns (newLevel: nat)
      requires Valid()
      modifies this`stackIdx, this`isolateLevel, this`invalidIsolates, this`ctx, levelStack
      ensures Valid() && newLevel == Counted().Last().level
      ensures Counted() == old(Counted().Isolate(Up(Counted().Last().level, rtl)))
      ensures old(Slots()) <= Slots()
      ensures stackIdx == old(stackIdx) || (stackIdx == old(stackIdx) + 1 && levelStack[stackIdx].Holds(old(ctx)))
    {
      Room();
      var current := levelStack[stackIdx].level;
      newLevel := current;
      UpBits(current, rtl);
      OverflowValid(Counted());
      hide Status.Valid, Up, Entries, Explicit.BitsOk;
      var fits := if rtl then current < MAX_DEPTH else current < MAX_DEPTH - 1;
      if fits && invalidLevels == 0 && invalidIsolates == 0 {
        newLevel := if rtl then (current + 1) / 2 * 2 + 1 else (current + 2) / 2 * 2;
        EnterIsolate(newLevel);
      } else {
        invalidIsolates := invalidIsolates + 1;
      }
    }

    lemma OverflowValid(s: Status)
      requires s.Valid()
      ensures s.(overflowIsolates := s.overflowIsolates + 1).Valid()
      ensures s.(overflowEmbeddings := s.overflowEmbeddings + 1).Valid()
    {
    }

    /** Ends an embedding, if one can end here. */
    method EndEmbedding() returns (newLevel: nat)
      requires Valid()
      modifies this`stackIdx, this`invalidLevels, this`ctx
      ensures Valid() && newLevel == Counted().Last().level
      ensures Counted() == old(Counted().CloseEmbedding())
      ensures Slots() == old(Slots())
        || (Slots() == old(Slots())[..old(stackIdx)] && !old(Slots())[old(stackIdx)].isolate)
    {
      Room();
      DropValid(Counted());
      hide Status.Valid, Entries, Explicit.BitsOk;
      newLevel := levelStack[stackIdx].level;
      if invalidIsolates == 0 {
        if invalidLevels > 0 {
          invalidLevels := invalidLevels - 1;
        } else if !levelStack[stackIdx].isolate && stackIdx >= 1 {
          newLevel := PopLevel();
        }
      }
    }

    /** The action that the previous character left pending. */
    method DoAction() returns (newLevel: nat)
      requires Valid()
      modifies this`stackIdx, this`isolateLevel, this`invalidLevels, this`invalidIsolates, this`ctx, levelStack
      ensures Valid() && Counted() == old(Settled()) && newLevel == Counted().Last().level
      ensures old(Slots()) <= Slots()
        || (Slots() == old(Slots())[..old(stackIdx)] && !old(Slots())[old(stackIdx)].isolate)
      ensures stackIdx <= old(stackIdx) || (stackIdx == old(stackIdx) + 1 && levelStack[stackIdx].Holds(old(ctx)))
    {
      Room();
      hide Explicit.Valid, Entries, Slot.Holds;
      newLevel := levelStack[stackIdx].level;
      if origType.RLI? || origType.LRI? {
        newLevel := OpenIsolate(origType.RLI?);
      } else if origType.PDF? {
        newLevel := EndEmbedding();
      }
    }

    method EnterEmbedding(level: nat, override: Dir)
      requires Valid() && levelStack[stackIdx].level < level <= MAX_DEPTH
      modifies this`stackIdx, this`ctx, levelStack
      ensures Valid() && Counted() == old(Counted()).Push(Entry(level, override, false))
      ensures old(Slots()) <= Slots()
    {
      Room();
      PushValid(Counted(), Entry(level, override, false));
      hide Status.Valid, Entries, Explicit.BitsOk;
      PushLevel(level, override, false);
    }

    /** Starts an embedding or an override, if it fits. */
    method OpenEmbedding(rtl: bool, override: Dir)
      requires Valid()
      modifies this`stackIdx, this`invalidLevels, this`ctx, levelStack
      ensures Valid() && Counted() == old(Counted().Embed(Up(Counted().Last().level, rtl), override))
      ensures old(Slots()) <= Slots()
    {
      Room();
      var current := levelStack[stackIdx].level;
      UpBits(current, rtl);
      OverflowValid(Counted());
      hide Status.Valid, Up, Entries, Explicit.BitsOk;
      var fits := if rtl then current < MAX_DEPTH else current < MAX_DEPTH - 1;
      if fits && invalidLevels == 0 && invalidIsolates == 0 {
        EnterEmbedding(if rtl then (current + 1) / 2 * 2 + 1 else (current + 2) / 2 * 2, override);
      } else if invalidIsolates == 0 {
        invalidLevels := invalidLevels + 1;
      }
    }

    /** A PDI: ends the last valid isolate, and the embeddings in it. */
    method CloseAtPdi()
      requires Valid()
      modifies this`stackIdx, this`isolateLevel, this`invalidLevels, this`invalidIsolates, this`ctx
      ensures Valid() && Counted() == old(Counted().CloseIsolate())
      ensures Slots() <= old(Slots())
      ensures old(invalidIsolates == 0 && isolateLevel > 0) ==>
        stackIdx < old(stackIdx) && ctx == FromSlot(old(Slots())[stackIdx + 1])
    {
      hide *;
      Whole();
      ghost var s := Counted();
      ClosedIs(s);
      if invalidIsolates > 0 {
        invalidIsolates := invalidIsolates - 1;
      } else if isolateLevel > 0 {
        invalidLevels := 0;
        PopToIsolate();
        isolateLevel := isolateLevel - 1;
      }
      CountedIs();
      MadeValid();
    }

    lemma Whole()
      requires Valid()
      ensures levelStack.Length == MAX_DEPTH + 3 && stackIdx < levelStack.Length && Counted().Valid()
      ensures (ctx.sos.L2R? || ctx.sos.R2L?) && BitsOk() && |Slots()| == stackIdx + 1
      ensures Counted() == Status(Stack(), invalidIsolates, invalidLevels, isolateLevel)
      ensures |Stack()| == stackIdx + 1 && !Stack()[0].isolate && isolateLevel == Isolates(Stack())
    {
    }

    lemma CountedIs()
      requires stackIdx < levelStack.Length
      ensures Counted() == Status(Stack(), invalidIsolates, invalidLevels, isolateLevel)
    {
    }

    lemma MadeValid()
      requires levelStack.Length == MAX_DEPTH + 3 && stackIdx < levelStack.Length && Counted().Valid()
      requires (ctx.sos.L2R? || ctx.sos.R2L?) && BitsOk()
      ensures Valid()
    {
    }

    lemma ClosedIs(s: Status)
      requires s.Valid()
      ensures s.CloseIsolate().Valid()
      ensures s.CloseIsolate() ==
        if s.overflowIsolates > 0 then Status(s.stack, s.overflowIsolates - 1, s.overflowEmbeddings, s.validIsolates)
        else if s.validIsolates > 0 then Status(BeforeIsolate(s.stack), 0, 0, s.validIsolates - 1)
        else s
    {
      CloseValid(s);
    }

    method PopToIsolate()
      requires stackIdx < levelStack.Length && BitsOk() && isolateLevel > 0 && isolateLevel == Isolates(Stack())
      requires !Stack()[0].isolate
      modifies this`stackIdx, this`ctx
      ensures stackIdx < old(stackIdx) && Slots() == old(Slots())[..stackIdx + 1] && BitsOk()
      ensures Stack() == BeforeIsolate(old(Stack()))
      ensures ctx == FromSlot(old(Slots())[stackIdx + 1]) && (ctx.sos.L2R? || ctx.sos.R2L?)
    {
      ghost var all := Stack();
      BeforeIsolateIs(all);
      ghost var k := |BeforeIsolate(all)|;
      hide BeforeIsolate, Isolates;
      while !levelStack[stackIdx].isolate
        invariant k <= stackIdx <= old(stackIdx) && Slots() == old(Slots())[..stackIdx + 1] && BitsOk()
        decreases stackIdx
      {
        assert !all[stackIdx].isolate;
        var _ := PopLevel();
      }
      assert all[stackIdx].isolate;
      var _ := PopLevel();
    }

    /** The end of a paragraph ends everything. */
    method SetParagraphEnd()
      requires Valid()
      modifies this`stackIdx, this`isolateLevel, this`invalidLevels, this`invalidIsolates, this`resolvedLevel
      ensures Valid() && Counted() == Start(old(Stack())[0].level) && resolvedLevel == levelStack[0].level
      ensures stackIdx == 0 && levelStack[0].level == old(Stack())[0].level
    {
      StartValid(Counted());
      invalidLevels, invalidIsolates, stackIdx, isolateLevel := 0, 0, 0, 0;
      resolvedLevel := levelStack[0].level;
      assert Stack() == [levelStack[0].AsEntry()];
    }

    /** The context that the isolate at the k-th entry of the settled stack gives back. */
    ghost function Saved(k: nat): Context
      requires stackIdx < levelStack.Length && BitsOk()
      reads this`stackIdx, this`ctx, levelStack
    {
      if k <= stackIdx then FromSlot(levelStack[k]) else Restored(ctx)
    }

    lemma SavedNew(c: Context, k: nat)
      requires Valid() && k <= stackIdx && levelStack[k].Holds(c) && !c.sos.NeutralDir?
      ensures Saved(k) == Restored(c)
    {
    }

    ghost predicate InIsolate(k: nat)
      requires stackIdx < levelStack.Length
      reads this`stackIdx, this`isolateLevel, this`invalidLevels, this`invalidIsolates, this`origType, levelStack
    {
      0 < k < |Settled().stack| && Settled().stack[k].isolate
    }

    /** Does what is pending; every isolate's entry is there then, and holds the same context. */
    method DoPending(ghost k: nat) returns (newLevel: nat)
      requires Valid()
      modifies this`stackIdx, this`isolateLevel, this`invalidLevels, this`invalidIsolates, this`ctx, levelStack
      ensures Valid() && Counted() == old(Settled()) && newLevel == Counted().Last().level
      ensures old(InIsolate(k)) ==> k <= stackIdx && FromSlot(levelStack[k]) == old(Saved(k))
    {
      ghost var c, was, top := ctx, Slots(), stackIdx;
      ghost var inside := InIsolate(k);
      hide Entries, Slot.Holds, Status.Valid;
      newLevel := DoAction();
      assert |Counted().stack| == stackIdx + 1;
      if inside {
        if k <= top { assert Slots()[k] == was[k]; } else { SavedNew(c, k); }
      }
    }

    /** Looks at the next character, or at the end of the text: does what the previous one left
        pending, and resolves this one's explicit level. */
    method ResolveExplicit(c: Option<Char>, ghost k: nat)
      requires Valid()
      modifies this, levelStack
      ensures Valid()
      ensures var t := if c.None? then NeutralB else c.value.Type();
        && Settled() == old(Settled()).Step(t) && origType == t
        && (Retained(t) ==> resolvedLevel == old(Settled()).Level(t))
        && (t.PDI? ==> typeAfterWn == Overridden(t, Settled().Last().override))
        && (IsInitiator(t) ==> typeAfterWn == Overridden(t, old(levelStack[stackIdx].override)))
        && (Pending(t) ==> Counted() == old(Settled()))
      ensures c.Some? && !c.value.t.NeutralB? && old(InIsolate(k)) ==>
        if c.value.t.PDI? && old(Inner(Settled(), k)) == 0 then ctx == old(Saved(k))
        else InIsolate(k) && k <= stackIdx && Saved(k) == old(Saved(k))
    {
      hide Explicit.Valid, Status.Valid, Entries, Explicit.BitsOk, Status.Step, Inner;
      if c.None? {
        AtEnd();
      } else {
        Room();
        var override := levelStack[stackIdx].override;
        resolvedLevel := DoPending(k);
        origType := c.value.Type();
        Current(override, k);
      }
    }

    method AtEnd()
      requires Valid()
      modifies this, levelStack
      ensures Valid() && Settled() == old(Settled()).Step(NeutralB) && origType == NeutralB
      ensures resolvedLevel == old(Settled()).Level(NeutralB)
    {
      SameBase();
      hide Explicit.Valid, Status.Valid, Entries, Explicit.BitsOk, Status.Isolate, Status.CloseEmbedding;
      SetParagraphEnd();
      origType, typeAfterWn := NeutralB, NeutralB;
    }

    lemma SameBase()
      requires Valid()
      ensures Settled().stack != [] && Settled().stack[0] == Stack()[0]
    {
      Room();
    }

    lemma StaysInside(k: nat)
      requires Valid() && 0 < k <= stackIdx && Counted().stack[k].isolate && !origType.NeutralB? && !origType.PDI?
      ensures InIsolate(k)
    {
      StepInside(Counted(), origType, k);
    }

    /** Two stacks of which one is a prefix of the other agree up to a common entry. */
    lemma Agree(s: seq<Slot>, t: seq<Slot>, k: nat)
      requires (s <= t || t <= s) && k < |s| && k < |t|
      ensures s[k] == t[k]
    {
    }

    /** An embedding or override initiator. */
    method AtEmbedding(ghost k: nat)
      requires Valid() && (origType.RLE? || origType.RLO? || origType.LRE? || origType.LRO?)
      modifies this`stackIdx, this`invalidLevels, this`ctx, this`resolvedLevel, levelStack
      ensures Valid() && Counted() == old(Counted().Step(origType))
      ensures 0 < k <= old(stackIdx) && old(Counted().stack[k]).isolate ==>
        k <= stackIdx && Counted().stack[k].isolate && FromSlot(levelStack[k]) == old(FromSlot(levelStack[k]))
    {
      hide Explicit.Valid, Status.Valid, Entries, Explicit.BitsOk, Status.Embed;
      Room();
      ghost var was, s := Slots(), Counted();
      if 0 < k <= stackIdx && s.stack[k].isolate { StepIn(s, k); }
      if origType.RLE? || origType.RLO? {
        OpenEmbedding(true, if origType.RLE? then NeutralDir else R2L);
      } else {
        OpenEmbedding(false, if origType.LRE? then NeutralDir else L2R);
      }
      Room();
      resolvedLevel := levelStack[stackIdx].level;
      if 0 < k < |was| && s.stack[k].isolate { assert Slots()[k] == was[k]; }
    }

    lemma StepIn(s: Status, k: nat)
      requires Valid() && s == Counted() && 0 < k <= stackIdx && s.stack[k].isolate
      requires !origType.NeutralB? && !origType.PDI?
      ensures k < |s.Step(origType).stack| && s.Step(origType).stack[k] == s.stack[k]
    {
      StepInside(s, origType, k);
      assert s.Step(origType).stack[..k + 1][k] == s.stack[..k + 1][k];
    }

    method AtPdi(ghost k: nat)
      requires Valid() && origType.PDI?
      modifies this`stackIdx, this`isolateLevel, this`invalidLevels, this`invalidIsolates, this`ctx,
        this`resolvedLevel, this`typeAfterWn
      ensures Valid() && Counted() == old(Counted().CloseIsolate()) && resolvedLevel == Counted().Last().level
      ensures typeAfterWn == Overridden(PDI, Counted().Last().override)
      ensures 0 < k <= old(stackIdx) && old(Counted().stack[k]).isolate ==>
        if old(Inner(Counted(), k)) == 0 then ctx == old(FromSlot(levelStack[k]))
        else k <= stackIdx && Counted().stack[k].isolate && FromSlot(levelStack[k]) == old(FromSlot(levelStack[k]))
    {
      hide Explicit.Valid, Status.Valid, Entries, Explicit.BitsOk, Inner, Status.CloseIsolate, FromSlot;
      Room();
      ghost var was, s := Slots(), Counted();
      ghost var inside := 0 < k <= stackIdx && s.stack[k].isolate;
      if inside { PdiIn(s, k); }
      CloseAtPdi();
      Room();
      resolvedLevel := levelStack[stackIdx].level;
      typeAfterWn := Overridden(PDI, levelStack[stackIdx].override);
      assert |Counted().stack| == stackIdx + 1;
      if inside && k <= stackIdx { Agree(Slots(), was, k); }
    }

    lemma PdiIn(s: Status, k: nat)
      requires Valid() && s == Counted() && 0 < k <= stackIdx && s.stack[k].isolate
      ensures if Inner(s, k) == 0 then s.overflowIsolates == 0 && s.validIsolates > 0 && |s.CloseIsolate().stack| == k
              else k < |s.CloseIsolate().stack| && s.CloseIsolate().stack[k] == s.stack[k]
    {
      if Inner(s, k) == 0 {
        CloseOwn(s, k);
      } else {
        CloseInside(s, k);
        assert s.CloseIsolate().stack[..k + 1][k] == s.stack[..k + 1][k];
      }
    }

    /** An isolate initiator and a PDF only leave their action pending; any other character
        keeps the level that is in force. */
    method AtOther(override: Dir, ghost k: nat)
      requires Valid() && resolvedLevel == Counted().Last().level && typeAfterWn.Unknown?
      requires origType !in {RLE, RLO, LRE, LRO, FSI, PDI, NeutralB}
      modifies this`typeAfterWn
      ensures Valid() && Counted() == old(Counted()) && resolvedLevel == Counted().Level(origType)
      ensures Settled() == Counted().Step(origType)
      ensures origType.RLI? || origType.LRI? ==> typeAfterWn == Overridden(origType, override)
      ensures 0 < k <= stackIdx && Counted().stack[k].isolate ==> InIsolate(k)
    {
      hide Explicit.Valid, Status.Valid, Entries, Explicit.BitsOk, Inner, Status.Embed, Status.Isolate,
        Status.CloseIsolate, Status.CloseEmbedding;
      Room();
      if origType.RLI? || origType.LRI? {
        typeAfterWn := Overridden(origType, override);
      } else if origType.PDF? {
        typeAfterWn := origType;
      }
      if 0 < k <= stackIdx && Counted().stack[k].isolate { StaysInside(k); }
    }

    /** The part that concerns the character itself. */
    method Current(override: Dir, ghost k: nat)
      requires Valid() && resolvedLevel == Counted().Last().level && !origType.FSI?
      modifies this, levelStack
      ensures Valid() && origType == old(origType)
      ensures Settled() == old(Counted().Step(origType)) && (Pending(origType) ==> Counted() == old(Counted()))
      ensures Retained(origType) ==> resolvedLevel == old(Counted().Level(origType))
      ensures origType.PDI? ==> typeAfterWn == Overridden(PDI, Counted().Last().override)
      ensures origType.RLI? || origType.LRI? ==> typeAfterWn == Overridden(origType, override)
      ensures 0 < k <= old(stackIdx) && old(Counted().stack[k]).isolate && !origType.NeutralB? ==>
        if origType.PDI? && old(Inner(Counted(), k)) == 0 then ctx == old(FromSlot(levelStack[k]))
        else InIsolate(k) && k <= stackIdx && FromSlot(levelStack[k]) == old(FromSlot(levelStack[k]))
    {
      hide Explicit.Valid, Status.Valid, Entries, Explicit.BitsOk, Inner, Status.Embed, Status.Isolate,
        Status.CloseIsolate, Status.CloseEmbedding;
      Room();
      typeAfterWn := Unknown;
      if origType.RLE? || origType.RLO? || origType.LRE? || origType.LRO? {
        typeAfterWn := origType;
        AtEmbedding(k);
        Room();
      } else if origType.PDI? {
        AtPdi(k);
        Room();
      } else if origType.NeutralB? {
        SetParagraphEnd();
        typeAfterWn := origType;
      } else {
        AtOther(override, k);
      }
    }

    /** When the override that an isolate initiator sees is not the one in force: the action
        still pending ends an override, or enters an isolate inside one. */
    lemma StaleOverride(t: BidiType)
      requires Valid() && IsInitiator(t)
      ensures var top := levelStack[stackIdx];
        Overridden(t, top.override) != Settled().InitiatorType(t) <==>
          || (origType.PDF? && invalidIsolates == 0 && invalidLevels == 0 && stackIdx >= 1 && !top.isolate
              && top.override != levelStack[stackIdx - 1].override)
          || (IsInitiator(origType) && Counted().Fits(Up(top.level, origType.RLI?)) && top.override != NeutralDir)
    {
      Room();
      OverriddenInjective(t, levelStack[stackIdx].override, Settled().Last().override);
    }

    /** The resolution of weak and neutral types, which is not part of this model, changes what
        is remembered in any way. */
    method Remember(c: Context)
      requires Valid() && !c.sos.NeutralDir?
      modifies this`ctx
      ensures Valid() && ctx == c && Settled() == old(Settled())
    {
      ctx := c;
    }

    method NextLevel(c: Char, seen: Context) returns (level: nat)
      requires Valid() && !seen.sos.NeutralDir?
      modifies this, levelStack
      ensures Valid() && Settled() == old(Settled()).Step(c.Type())
      ensures Retained(c.Type()) ==> level == old(Settled()).Level(c.Type())
    {
      hide Explicit.Valid, Status.Step, Status.Level, Inner, Explicit.Saved, Explicit.InIsolate, Entries;
      Remember(seen);
      ResolveExplicit(Some(c), 0);
      level := resolvedLevel;
    }

    lemma WhichRetained(text: seq<Char>)
      ensures forall i :: 0 <= i < |text| && text[i].t !in {RLE, RLO, LRE, LRO, PDF, WeakBN} ==>
        Retained(text[i].Type())
    {
    }

    lemma BaseLow()
      requires Valid()
      ensures levelStack[0].level <= 1
    {
      Room();
      assert Stack()[0] == levelStack[0].AsEntry();
    }

    /** A whole paragraph: every character that is not removed by rule X9 gets the level that
        the rules give it.  Right after an initiator that fits, that is the least greater level of
        the initiator's direction, and right after one that does not fit, the level around it. */
    method Levels(text: seq<Char>, contexts: seq<Context>) returns (levels: seq<nat>)
      requires Valid() && |contexts| == |text| && forall i :: 0 <= i < |text| ==> !contexts[i].sos.NeutralDir?
      requires Settled() == Start(levelStack[0].level)
      modifies this, levelStack
      ensures Valid() && |levels| == |text|
      ensures forall i :: 0 <= i < |text| && text[i].t !in {RLE, RLO, LRE, LRO, PDF, WeakBN} ==>
        levels[i] == RuleLevel(old(levelStack[0].level), text, i)
      ensures forall i ::
        (&& 0 <= i && i + 1 < |text| && text[i + 1].t !in {RLE, RLO, LRE, LRO, PDF, WeakBN, PDI, NeutralB}
         && text[i].t in {RLE, RLO, RLI, LRE, LRO, LRI, FSI}) ==>
          var s := After(old(levelStack[0].level), text, i);
          && s.stack != []
          && var from := s.stack[|s.stack| - 1].level;
             var rtl := text[i].t in {RLE, RLO, RLI} || (text[i].t == FSI && text[i].rtlInside);
             if s.overflowIsolates == 0 && s.overflowEmbeddings == 0 && from < (if rtl then 125 else 124)
             then from < levels[i + 1] <= from + 2 && levels[i + 1] % 2 == (if rtl then 1 else 0)
             else levels[i + 1] == from
    {
      hide *;
      Whole();
      BaseLow();
      ghost var base := levelStack[0].level;
      AfterStart(base, text);
      levels := [];
      for i := 0 to |text|
        invariant Valid() && |levels| == i && stackIdx < levelStack.Length && Settled() == After(base, text, i)
        invariant forall j :: 0 <= j < i && Retained(text[j].Type()) ==> levels[j] == RuleLevel(base, text, j)
      {
        AfterNext(base, text, i);
        RuleLevelIs(base, text, i);
        var level := NextLevel(text[i], contexts[i]);
        Whole();
        levels := levels + [level];
      }
      WhichRetained(text);
      LevelsAfterInitiators(base, text);
    }

    /** The text of an isolate, and the PDI that ends it: the context is again what it was when
        the isolate was entered, except that types were cut to three bits. */
    method ReadIsolate(body: seq<Char>, contexts: seq<Context>, pdi: Char)
      requires Valid() && IsInitiator(origType) && Settled().overflowIsolates == 0 && Inside(body) && Depth(body) == 0
      requires |contexts| == |body| + 1 && forall i :: 0 <= i < |contexts| ==> !contexts[i].sos.NeutralDir?
      requires pdi.t.PDI?
      modifies this, levelStack
      ensures Valid() && ctx == Restored(contexts[0])
      ensures
        (&& contexts[0].lastStrong in {Unknown, StrongL, StrongR, StrongAL}
         && contexts[0].prevForNeutral in {StrongL, StrongR, WeakEN, WeakAN}
         && contexts[0].nextForNeutral in {Unknown, StrongL, StrongR}) ==>
          ctx == contexts[0].(prev := Unknown)
    {
      hide Status.Valid, Explicit.BitsOk, Entries, Status.Step, Inner, Restored, FromSlot;
      Entered();
      ghost var k := stackIdx + 1;
      for i := 0 to |body|
        invariant Valid() && InIsolate(k)
        invariant i == 0 ==> k == stackIdx + 1
        invariant i > 0 ==> k <= stackIdx && Saved(k) == Restored(contexts[0])
        invariant Inner(Settled(), k) == Depth(body[..i])
      {
        Remember(contexts[i]);
        Unentered(k);
        StepValid(Counted(), origType);
        InnerStep(k, body, i);
        ResolveExplicit(Some(body[i]), k);
      }
      assert body[..|body|] == body;
      Remember(contexts[|body|]);
      Unentered(k);
      ResolveExplicit(Some(pdi), k);
      ghost var c := contexts[0];
      if c.lastStrong in {Unknown, StrongL, StrongR, StrongAL} && c.prevForNeutral in {StrongL, StrongR, WeakEN, WeakAN}
        && c.nextForNeutral in {Unknown, StrongL, StrongR} {
        UsualRestored(c);
      }
    }

    lemma Entered()
      requires Valid() && IsInitiator(origType) && Settled().overflowIsolates == 0
      ensures InIsolate(stackIdx + 1) && Inner(Settled(), stackIdx + 1) == 0
    {
    }

    lemma Unentered(k: nat)
      requires Valid()
      ensures k == stackIdx + 1 ==> Saved(k) == Restored(ctx)
    {
    }

    lemma InnerStep(k: nat, body: seq<Char>, i: nat)
      requires Valid() && Settled().Valid() && InIsolate(k) && Inside(body) && i < |body|
      requires Inner(Settled(), k) == Depth(body[..i])
      ensures !(body[i].t.PDI? && Inner(Settled(), k) == 0)
      ensures k < |Settled().Step(body[i].Type()).stack|
      ensures Inner(Settled().Step(body[i].Type()), k) == Depth(body[..i + 1])
    {
      var t := body[i].Type();
      assert body[..i + 1][..i] == body[..i] && body[..i + 1][i] == body[i];
      assert Depth(body[..i + 1]) >= 0;
      if t.PDI? {
        CloseInside(Settled(), k);
      } else {
        StepInside(Settled(), t, k);
      }
    }
  }

  /** The case is real.  After RLO PDF, the rules leave an RLI an RLI, but it is remembered as a
      strong right-to-left character. */
  method StaleExample() returns (m: Explicit)
    ensures fresh(m) && fresh(m.levelStack) && m.typeAfterWn == StrongR
    ensures After(0, [Char(RLO, false), Char(PDF, false), Char(RLI, false)], 2).InitiatorType(RLI) == RLI
  {
    ExampleRules();
    hide Explicit.Valid, Status.Step, Entries, Explicit.BitsOk;
    m := new Explicit(0);
    m.ResolveExplicit(Some(Char(RLO, false)), 0);
    m.ResolveExplicit(Some(Char(PDF, false)), 0);
    m.Room();
    m.ResolveExplicit(Some(Char(RLI, false)), 0);
  }

  lemma ExampleRules()
    ensures Start(0).Step(RLO).Last().override == R2L
    ensures After(0, [Char(RLO, false), Char(PDF, false), Char(RLI, false)], 2).InitiatorType(RLI) == RLI
  {
    var text := [Char(RLO, false), Char(PDF, false), Char(RLI, false)];
    assert After(0, text, 0) == Start(0);
    assert After(0, text, 1) == Start(0).Step(RLO);
    assert Start(0).Step(RLO).stack == [Entry(0, NeutralDir, false), Entry(1, R2L, false)];
    assert Start(0).Step(RLO).Step(PDF).stack == [Entry(0, NeutralDir, false)];
    assert After(0, text, 2) == Start(0).Step(RLO).Step(PDF);
  }

  lemma OverriddenInjective(t: BidiType, a: Dir, b: Dir)
    requires t.RLI? || t.LRI?
    ensures Overridden(t, a) == Overridden(t, b) <==> a == b
  {
  }

  function FromSlot(st: Slot): Context
    requires st.last3 < 8 && st.prev3 < 8 && st.next3 < 8
  {
    Context(st.sos, Unknown, FromCode(st.last3), FromCode(st.prev3), FromCode(st.next3), st.nextPos)
  }

  predicate Pending(t: BidiType) { t.RLI? || t.LRI? || t.PDF? }
}
