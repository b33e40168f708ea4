/** The cache of iterator states kept by the bidirectional reordering engine. */
module BidiCache {

  const UNRESOLVED := -1

  /** The members of an iterator state that the cache and the reordering step look at. */
  datatype BidiIt = BidiIt(charpos: int, nchars: int, resolvedLevel: int, scanDir: int)

  predicate Covers(s: BidiIt, charpos: int) { s.charpos <= charpos < s.charpos + s.nchars }

  /** The slot covers the position at a level no higher than the one asked for (-1: any). */
  predicate Hit(s: BidiIt, charpos: int, level: int) {
    Covers(s, charpos) && (level == -1 || s.resolvedLevel <= level)
  }

  predicate Lower(s: BidiIt, level: int) { 0 <= s.resolvedLevel < level }

  /** Cached states correspond to consecutive stretches of character positions. */
  ghost predicate Contiguous(c: seq<BidiIt>) {
    && (forall i :: 0 <= i < |c| ==> 0 < c[i].nchars)
    && (forall i, j :: 0 <= i < j < |c| && j == i + 1 ==> c[j].charpos == c[i].charpos + c[i].nchars)
  }

  function End(c: seq<BidiIt>): int
    requires c != []
  {
    c[|c| - 1].charpos + c[|c| - 1].nchars
  }

  lemma {:induction false} ContiguousOrdered(c: seq<BidiIt>, i: int, j: int)
    requires Contiguous(c) && 0 <= i < j < |c|
    ensures c[i].charpos + c[i].nchars <= c[j].charpos
    decreases j - i
  {
    if i + 1 < j {
      ContiguousOrdered(c, i, j - 1);
      assert c[j].charpos == c[j - 1].charpos + c[j - 1].nchars;
    }
  }

  /** At most one slot covers a position, and every position in range is covered. */
  lemma {:induction false} CoveredOnce(c: seq<BidiIt>, charpos: int)
    requires Contiguous(c)
    ensures forall i, j :: 0 <= i < j < |c| ==> !(Covers(c[i], charpos) && Covers(c[j], charpos))
    ensures c != [] && c[0].charpos <= charpos < End(c) ==> exists i :: 0 <= i < |c| && Covers(c[i], charpos)
  {
    forall i, j | 0 <= i < j < |c|
      ensures !(Covers(c[i], charpos) && Covers(c[j], charpos))
    {
      ContiguousOrdered(c, i, j);
    }
    if c != [] && c[0].charpos <= charpos < End(c) {
      var i := SlotOf(c, charpos);
    }
  }

  lemma {:induction false} SlotOf(c: seq<BidiIt>, charpos: int) returns (i: nat)
    requires Contiguous(c) && c != [] && c[0].charpos <= charpos < End(c)
    ensures i < |c| && Covers(c[i], charpos)
  {
    i := 0;
    while !Covers(c[i], charpos)
      invariant 0 <= i < |c| && c[i].charpos <= charpos
      decreases |c| - i
    {
      assert i + 1 < |c| && c[i + 1].charpos == c[i].charpos + c[i].nchars;
      i := i + 1;
    }
  }

  /** What the position of the last hit rules out. */
  lemma {:induction false} RuledOut(c: seq<BidiIt>, charpos: int, l: int)
    requires Contiguous(c) && 0 <= l < |c|
    ensures charpos < c[l].charpos ==> forall j :: l <= j < |c| ==> !Covers(c[j], charpos)
    ensures charpos >= c[l].charpos + c[l].nchars ==> forall j :: 0 <= j <= l ==> !Covers(c[j], charpos)
    ensures Covers(c[l], charpos) ==> forall j :: 0 <= j < |c| && j != l ==> !Covers(c[j], charpos)
  {
    forall j | 0 <= j < |c| && j != l
      ensures j < l ==> c[j].charpos + c[j].nchars <= c[l].charpos
      ensures l < j ==> c[l].charpos + c[l].nchars <= c[j].charpos
    {
      if j < l { ContiguousOrdered(c, j, l); } else { ContiguousOrdered(c, l, j); }
    }
  }

  /** A full linear scan for the slot that covers a position; -1 if there is none. */
  function SlotIndex(c: seq<BidiIt>, charpos: int): (i: int)
    ensures -1 <= i < |c|
    ensures i >= 0 ==> Covers(c[i], charpos)
    ensures i == -1 ==> forall j :: 0 <= j < |c| ==> !Covers(c[j], charpos)
  {
    if c == [] then -1
    else if Covers(c[|c| - 1], charpos) then |c| - 1
    else SlotIndex(c[..|c| - 1], charpos)
  }

  /** The cache contents after a state has been offered to it, there being room: the slot
      that covers its position takes its level; otherwise it extends the cache if it comes
      right after it, and replaces the cache if it does not. */
  ghost function Offered(c: seq<BidiIt>, s: BidiIt, updateOnly: bool): (r: seq<BidiIt>)
    requires Contiguous(c) && 0 < s.nchars
    ensures Contiguous(r)
  {
    var i := SlotIndex(c, s.charpos);
    if i >= 0 then c[i := c[i].(resolvedLevel := s.resolvedLevel)]
    else if updateOnly then c
    else if c != [] && s.charpos == End(c) then c + [s]
    else [s]
  }

  lemma StartBeforeEnd(c: seq<BidiIt>)
    requires Contiguous(c) && c != []
    ensures c[0].charpos < End(c)
  {
    if |c| > 1 { ContiguousOrdered(c, 0, |c| - 1); }
  }

  lemma JustPastEnd(c: seq<BidiIt>, charpos: int)
    requires Contiguous(c) && c != [] && SlotIndex(c, charpos) == -1
    requires c[0].charpos <= charpos <= End(c)
    ensures charpos == End(c)
  {
    CoveredOnce(c, charpos);
  }

  lemma SlotIndexIs(c: seq<BidiIt>, charpos: int, i: int)
    requires Contiguous(c) && 0 <= i < |c| && Covers(c[i], charpos)
    ensures SlotIndex(c, charpos) == i
  {
    RuledOut(c, charpos, i);
  }

  /** After a state has been offered, the scan for its position finds the slot it went to. */
  lemma OfferedIndex(c: seq<BidiIt>, s: BidiIt, updateOnly: bool)
    requires Contiguous(c) && 0 < s.nchars
    requires updateOnly ==> SlotIndex(c, s.charpos) >= 0
    ensures var r, i := Offered(c, s, updateOnly), SlotIndex(c, s.charpos);
      r != [] && SlotIndex(r, s.charpos) == if i >= 0 then i else |r| - 1
  {
    var r, i := Offered(c, s, updateOnly), SlotIndex(c, s.charpos);
    SlotIndexIs(r, s.charpos, if i >= 0 then i else |r| - 1);
  }

  /** The saved starts cut the slots below the current frame into suspended frames, each
      followed by the iterator state pushed on it. */
  /** The slot that covers the position has the level given. */
  lemma OfferedSlot(c: seq<BidiIt>, s: BidiIt, updateOnly: bool, r: seq<BidiIt>)
    requires Contiguous(c) && 0 < s.nchars && r == Offered(c, s, updateOnly)
    requires updateOnly ==> SlotIndex(c, s.charpos) >= 0
    ensures var i := SlotIndex(r, s.charpos);
      0 <= i < |r| && Covers(r[i], s.charpos) && r[i].resolvedLevel == s.resolvedLevel
  {
    OfferedIndex(c, s, updateOnly);
  }

  lemma OfferedUpdate(c: seq<BidiIt>, s: BidiIt, updateOnly: bool)
    requires Contiguous(c) && 0 < s.nchars && SlotIndex(c, s.charpos) >= 0
    ensures Offered(c, s, updateOnly)
      == c[SlotIndex(c, s.charpos) := c[SlotIndex(c, s.charpos)].(resolvedLevel := s.resolvedLevel)]
  {
  }

  ghost predicate FramesOk(below: seq<BidiIt>, starts: seq<int>)
    decreases |starts|
  {
    if starts == [] then true
    else
      var a := starts[|starts| - 1];
      && 0 <= a < |below|
      && Contiguous(below[a..|below| - 1])
      && FramesOk(below[..a], starts[..|starts| - 1])
  }

  /** A frame of the cache that has been set aside: its contents, and the iterator state
      pushed on top of them. */
  datatype Frame = Frame(contents: seq<BidiIt>, saved: BidiIt)

  ghost function Frames(below: seq<BidiIt>, starts: seq<int>): seq<Frame>
    requires FramesOk(below, starts)
    decreases |starts|
  {
    if starts == [] then []
    else
      var a := starts[|starts| - 1];
      Frames(below[..a], starts[..|starts| - 1]) + [Frame(below[a..|below| - 1], below[|below| - 1])]
  }

  class Cache {
    var slots: array<BidiIt>
    var idx: int           // next unused slot
    var lastIdx: int       // slot of the last hit, or -1
    var start: int         // first slot of the current frame
    var startStack: seq<int>

    ghost predicate Valid()
      reads this, slots
    {
      && 0 <= start <= idx <= slots.Length
      && (lastIdx == -1 || start <= lastIdx < idx)
      && Contiguous(slots[start..idx])
      && FramesOk(slots[..start], startStack)
    }

    ghost function Contents(): seq<BidiIt>
      requires Valid()
      reads this, slots
    {
      slots[start..idx]
    }

    ghost function Outer(): seq<Frame>
      requires Valid()
      reads this, slots
    {
      Frames(slots[..start], startStack)
    }

    constructor (capacity: nat)
      ensures Valid() && fresh(slots) && slots.Length == capacity
      ensures Contents() == [] && Outer() == [] && lastIdx == -1
    {
      slots := new BidiIt[capacity](_ => BidiIt(0, 1, 0, 1));
      idx, lastIdx, start, startStack := 0, -1, 0, [];
    }

    method Reset()
      requires Valid()
      modifies this`idx, this`lastIdx
      ensures Valid() && Contents() == [] && lastIdx == -1 && Outer() == old(Outer())
      ensures idx == start
    {
      idx, lastIdx := start, -1;
    }

    method FetchState(i: int, it: BidiIt) returns (r: BidiIt)
      requires Valid() && start <= i < idx
      modifies this`lastIdx
      ensures Valid() && lastIdx == i
      ensures r == slots[i].(scanDir := it.scanDir)
    {
      r := slots[i].(scanDir := it.scanDir);
      lastIdx := i;
    }

    lemma SlotsRuledOut(charpos: int, l: int)
      requires Valid() && start <= l < idx
      ensures charpos < slots[l].charpos ==> forall j :: l <= j < idx ==> !Covers(slots[j], charpos)
      ensures charpos >= slots[l].charpos + slots[l].nchars ==>
        forall j :: start <= j <= l ==> !Covers(slots[j], charpos)
      ensures Covers(slots[l], charpos) ==> forall j :: start <= j < idx && j != l ==> !Covers(slots[j], charpos)
    {
      hide Contiguous, FramesOk;
      RuledOut(Contents(), charpos, l - start);
      assert forall j :: start <= j < idx ==> slots[j] == Contents()[j - start];
    }

    lemma Parts()
      requires Valid()
      ensures 0 <= start <= idx <= slots.Length && (lastIdx == -1 || start <= lastIdx < idx)
      ensures Contiguous(slots[start..idx]) && FramesOk(slots[..start], startStack)
    {
    }

    lemma Whole()
      requires 0 <= start <= idx <= slots.Length && (lastIdx == -1 || start <= lastIdx < idx)
      requires Contiguous(slots[start..idx]) && FramesOk(slots[..start], startStack)
      ensures Valid()
    {
    }

    method ScanDown(charpos: int, level: int, from: int) returns (r: int)
      requires Valid() && start - 1 <= from < idx
      ensures r == -1 || (start <= r <= from && Hit(slots[r], charpos, level))
      ensures r == -1 ==> forall j :: start <= j <= from ==> !Hit(slots[j], charpos, level)
    {
      r := from;
      while r >= start
        invariant start - 1 <= r <= from
        invariant forall j :: r < j <= from ==> !Hit(slots[j], charpos, level)
      {
        if Hit(slots[r], charpos, level) { return; }
        r := r - 1;
      }
      r := -1;
    }

    method ScanUp(charpos: int, level: int, from: int) returns (r: int)
      requires Valid() && start <= from <= idx
      ensures r == -1 || (from <= r < idx && Hit(slots[r], charpos, level))
      ensures r == -1 ==> forall j :: from <= j < idx ==> !Hit(slots[j], charpos, level)
    {
      r := from;
      while r < idx
        invariant from <= r <= idx
        invariant forall j :: from <= j < r ==> !Hit(slots[j], charpos, level)
      {
        if Hit(slots[r], charpos, level) { return; }
        r := r + 1;
      }
      r := -1;
    }

    /** The search starts at the last hit and goes one way only, yet it finds the slot that
        a scan of the whole frame would. */
    method Search(charpos: int, level: int, dir: int) returns (r: int)
      requires Valid()
      modifies this`lastIdx
      ensures Valid()
      ensures lastIdx == if old(lastIdx) == -1 && idx > start then idx - 1 else old(lastIdx)
      ensures r == -1 ==> forall i :: start <= i < idx ==> !Hit(slots[i], charpos, level)
      ensures r != -1 ==> start <= r < idx && Hit(slots[r], charpos, level)
      ensures r != -1 ==> slots[r].charpos <= charpos < slots[r].charpos + slots[r].nchars
      ensures r != -1 ==> level == -1 || slots[r].resolvedLevel <= level
    {
      hide Contiguous, FramesOk, Cache.Valid, Cache.Contents;
      Parts();
      if idx == start { return -1; }
      if lastIdx == -1 {
        lastIdx := idx - 1;
        Whole();
      }
      var last := slots[lastIdx];
      SlotsRuledOut(charpos, lastIdx);
      if charpos < last.charpos {
        r := ScanDown(charpos, level, lastIdx - 1);
      } else if charpos > last.charpos + last.nchars - 1 {
        r := ScanUp(charpos, level, lastIdx + 1);
      } else if dir > 0 {
        r := ScanUp(charpos, level, lastIdx);
      } else {
        r := ScanDown(charpos, level, if dir != 0 then lastIdx else idx - 1);
      }
    }

    /** For an unrestricted level, the search is the full linear scan. */
    method SearchPosition(charpos: int) returns (r: int)
      requires Valid()
      modifies this`lastIdx
      ensures Valid()
      ensures lastIdx == if old(lastIdx) == -1 && idx > start then idx - 1 else old(lastIdx)
      ensures var i := SlotIndex(Contents(), charpos); r == if i == -1 then -1 else start + i
    {
      hide Contiguous, FramesOk, SlotIndex;
      r := Search(charpos, -1, 1);
      if r != -1 {
        assert Contents()[r - start] == slots[r];
        SlotsRuledOut(charpos, r);
      }
    }

    method SetLevel(i: int, level: int)
      requires Valid() && start <= i < idx
      modifies this`lastIdx, slots
      ensures Valid() && Outer() == old(Outer()) && lastIdx == i
      ensures Contents() == old(Contents())[i - start := old(Contents())[i - start].(resolvedLevel := level)]
    {
      slots[i] := slots[i].(resolvedLevel := level);
      lastIdx := i;
      assert slots[..start] == old(slots[..start]);
    }

    method Append(s: BidiIt) returns (ok: bool)
      requires Valid() && 0 < s.nchars
      requires start < idx < slots.Length ==> s.charpos == End(Contents())
      modifies this`idx, this`lastIdx, slots
      ensures Valid() && Outer() == old(Outer())
      ensures ok == (old(idx) < slots.Length)
      ensures Contents() == if ok then old(Contents()) + [s] else old(Contents())
      ensures idx == old(idx) + (if ok then 1 else 0)
      ensures lastIdx == if ok then old(idx) else -1
    {
      ok := idx < slots.Length;
      if ok {
        slots[idx] := s;
        lastIdx := idx;
        idx := idx + 1;
      } else {
        lastIdx := -1;
      }
      assert slots[..start] == old(slots[..start]);
    }

    /** Stores a state for a position that is not covered: the cache is useless and restarted
        unless the position is right after it. */
    method Extend(s: BidiIt) returns (ok: bool)
      requires Valid() && 0 < s.nchars && SlotIndex(Contents(), s.charpos) == -1
      modifies this`idx, this`lastIdx, slots
      ensures Valid() && Outer() == old(Outer())
      ensures ok == (old(idx) < slots.Length)
      ensures Contents() == if ok then Offered(old(Contents()), s, false) else old(Contents())
      ensures idx == start + |Contents()| && lastIdx == if ok then idx - 1 else -1
    {
      hide *;
      Parts();
      ExtendCases(s);
      if start < idx < slots.Length && Apart(s) {
        Reset();
        Parts();
      }
      ok := Append(s);
      ExtentIs();
    }

    /** The state's position is neither cached nor right after the cached ones. */
    predicate Apart(s: BidiIt)
      requires 0 <= start < idx <= slots.Length
      reads this`start, this`idx, this`slots, slots
    {
      s.charpos > slots[idx - 1].charpos + slots[idx - 1].nchars || s.charpos < slots[start].charpos
    }

    /** A position that is not covered is right after the cached ones, or apart from them. */
    lemma ExtendCases(s: BidiIt)
      requires Valid() && 0 < s.nchars && SlotIndex(Contents(), s.charpos) == -1
      ensures start == idx ==> Contents() == [] && Contents() + [s] == Offered(Contents(), s, false)
      ensures start < idx && Apart(s) ==>
        [] + [s] == Offered(Contents(), s, false)
      ensures start < idx && !Apart(s) ==>
        Contents() != [] && s.charpos == End(Contents()) && Contents() + [s] == Offered(Contents(), s, false)
    {
      hide Contiguous, FramesOk, SlotIndex;
      var c := Contents();
      if c != [] {
        StartBeforeEnd(c);
        if c[0].charpos <= s.charpos <= End(c) { JustPastEnd(c, s.charpos); }
      }
    }

    lemma ExtentIs()
      requires Valid()
      ensures idx == start + |Contents()|
    {
    }

    /** Offers a state to the cache: updates the slot that covers its position, or extends the
        cache by it. */
    method IteratorState(s: BidiIt, resolved: bool, updateOnly: bool) returns (ok: bool)
      requires Valid() && 0 < s.nchars && s.scanDir != -1
      modifies this`idx, this`lastIdx, slots
      ensures Valid() && Outer() == old(Outer())
      ensures var e := if resolved then s else s.(resolvedLevel := UNRESOLVED);
        Contents() == if ok then Offered(old(Contents()), e, updateOnly) else old(Contents())
      ensures ok ==> lastIdx == start + SlotIndex(Contents(), s.charpos)
      ensures ok ==> start <= lastIdx < idx && Covers(slots[lastIdx], s.charpos)
      ensures ok ==> slots[lastIdx].resolvedLevel == if resolved then s.resolvedLevel else UNRESOLVED
      ensures !ok && updateOnly ==> lastIdx == if old(lastIdx) == -1 && idx > start then idx - 1 else old(lastIdx)
      ensures ok == (SlotIndex(old(Contents()), s.charpos) != -1 || (!updateOnly && old(idx) < slots.Length))
    {
      hide *;
      Parts();
      var e := if resolved then s else s.(resolvedLevel := UNRESOLVED);
      ContentsAre();
      ghost var c := Contents();
      var i := SearchPosition(s.charpos);
      ContentsAre();
      if i < 0 && updateOnly { return false; }
      ok := Offer(i, e, updateOnly);
      if ok { LastHit(c, e, updateOnly); }
    }

    /** The slot that covers the position, if there is one, or a new one takes the state. */
    method Offer(i: int, e: BidiIt, updateOnly: bool) returns (ok: bool)
      requires Valid() && 0 < e.nchars && (updateOnly ==> i >= 0)
      requires i == if SlotIndex(Contents(), e.charpos) == -1 then -1 else start + SlotIndex(Contents(), e.charpos)
      modifies this`idx, this`lastIdx, slots
      ensures Valid() && Outer() == old(Outer())
      ensures ok == (i >= 0 || old(idx) < slots.Length)
      ensures Contents() == if ok then Offered(old(Contents()), e, updateOnly) else old(Contents())
      ensures ok ==> lastIdx == start + SlotIndex(Contents(), e.charpos)
    {
      hide *;
      Parts();
      ghost var c := Contents();
      ContentsAre();
      OfferedIndex(c, e, updateOnly);
      if i < 0 {
        ok := Extend(e);
        Plain(c, e, updateOnly);
      } else {
        OfferedUpdate(c, e, updateOnly);
        SetLevel(i, e.resolvedLevel);
        ok := true;
      }
      ContentsAre();
    }

    lemma Plain(c: seq<BidiIt>, e: BidiIt, updateOnly: bool)
      requires Contiguous(c) && 0 < e.nchars && !updateOnly
      ensures Offered(c, e, updateOnly) == Offered(c, e, false)
    {
    }

    lemma LastHit(c: seq<BidiIt>, e: BidiIt, updateOnly: bool)
      requires Valid() && Contiguous(c) && 0 < e.nchars && (updateOnly ==> SlotIndex(c, e.charpos) >= 0)
      requires Contents() == Offered(c, e, updateOnly) && lastIdx == start + SlotIndex(Contents(), e.charpos)
      ensures start <= lastIdx < idx && Covers(slots[lastIdx], e.charpos)
      ensures slots[lastIdx].resolvedLevel == e.resolvedLevel
    {
      hide *;
      ContentsAre();
      OfferedSlot(c, e, updateOnly, Contents());
      assert slots[lastIdx] == Contents()[lastIdx - start];
    }

    lemma ContentsAre()
      requires Valid()
      ensures Contents() == slots[start..idx] && 0 <= start <= idx <= slots.Length && Contiguous(Contents())
      ensures FramesOk(slots[..start], startStack) && Outer() == Frames(slots[..start], startStack)
    {
    }

    /** Finds the nearest slot q past the last hit, in direction dir, whose level is known and
        lower than `level`; returns q, or the slot just before it if `before`. */
    method FindLevelChange(level: int, dir: int, before: bool) returns (r: int)
      requires Valid() && dir in {-1, 1}
      ensures r == -1 || 0 <= r < idx
      ensures lastIdx != -1 && r != -1 ==>
        var q := if before then r + dir else r;
        && start <= q < idx && Lower(slots[q], level)
        && (if dir < 0 then q < lastIdx else lastIdx < q)
        && forall j :: (if dir < 0 then q < j < lastIdx else lastIdx < j < q) ==> !Lower(slots[j], level)
      ensures lastIdx != -1 && r == -1 ==>
        forall j :: (if dir < 0 then start <= j < lastIdx else lastIdx < j < idx) ==> !Lower(slots[j], level)
    {
      r := -1;
      if idx != 0 {
        var i := if lastIdx < 0 then 0 else lastIdx;
        var incr := if before then 1 else 0;
        if incr == 0 { i := i + dir; }
        if dir < 0 {
          while i >= start + incr
            invariant i <= idx
            invariant lastIdx != -1 ==> start - 1 <= i - incr <= lastIdx - 1
            invariant lastIdx == -1 ==> i <= 0
            invariant lastIdx != -1 ==> forall j :: i - incr < j < lastIdx ==> !Lower(slots[j], level)
          {
            if Lower(slots[i - incr], level) { return i; }
            i := i - 1;
          }
        } else {
          while i < idx - incr
            invariant 0 <= i
            invariant lastIdx != -1 ==> lastIdx + 1 <= i + incr <= idx
            invariant lastIdx != -1 ==> forall j :: lastIdx < j < i + incr ==> !Lower(slots[j], level)
          {
            if Lower(slots[i + incr], level) { return i; }
            i := i + 1;
          }
        }
      }
    }

    /** Looks a position up; `found` is false for a state not resolved yet if only resolved
        ones are wanted. */
    method Find(charpos: int, resolvedOnly: bool, it: BidiIt) returns (found: bool, r: BidiIt)
      requires Valid()
      modifies this`lastIdx
      ensures Valid()
      ensures var i := SlotIndex(Contents(), charpos);
        && found == (i != -1 && (!resolvedOnly || Contents()[i].resolvedLevel >= 0))
        && (found ==> lastIdx == start + i && r == Contents()[i].(scanDir := it.scanDir))
      ensures !found ==> r == it
      ensures !found ==> lastIdx == if old(lastIdx) == -1 && idx > start then idx - 1 else old(lastIdx)
    {
      hide SlotIndex, Contiguous, FramesOk;
      r := it;
      var i := SearchPosition(charpos);
      found := i >= start && (!resolvedOnly || slots[i].resolvedLevel >= 0);
      if found {
        r := slots[i].(scanDir := it.scanDir);
        lastIdx := i;
      }
    }

    /** The level of the slot next to the last hit, in the scan direction. */
    method PeekAtNextLevel(scanDir: int) returns (level: int)
      requires Valid() && start < idx && scanDir in {-1, 1}
      requires scanDir < 0 ==> lastIdx != start
      ensures level == if lastIdx == -1 || (lastIdx == idx - 1 && scanDir > 0) then slots[idx - 1].resolvedLevel
                       else slots[lastIdx + scanDir].resolvedLevel
    {
      if lastIdx == -1 || (lastIdx >= idx - 1 && scanDir > 0) {
        return slots[idx - 1].resolvedLevel;
      }
      level := slots[lastIdx + scanDir].resolvedLevel;
    }

    /** Sets the current frame aside, with the iterator on top of it, and starts an empty one. */
    method PushIt(it: BidiIt)
      requires Valid() && idx < slots.Length
      modifies this`idx, this`lastIdx, this`start, this`startStack, slots
      ensures Valid() && Contents() == [] && lastIdx == -1
      ensures Outer() == old(Outer()) + [Frame(old(Contents()), it)]
    {
      hide Contiguous;
      slots[idx] := it;
      idx := idx + 1;
      startStack := startStack + [start];
      assert slots[..idx][..start] == old(slots[..start]);
      assert slots[..idx][start..idx - 1] == old(Contents());
      assert startStack[..|startStack| - 1] == old(startStack);
      start := idx;
      lastIdx := -1;
      assert slots[start..idx] == [];
      EmptyContiguous();
    }

    /** Undoes the matching PushIt: the iterator and the cached states of the outer frame are
        what they were, whatever has been done to the inner one. */
    method PopIt() returns (it: BidiIt)
      requires Valid() && Outer() != []
      modifies this`idx, this`lastIdx, this`start, this`startStack
      ensures Valid() && lastIdx == -1
      ensures var n := |old(Outer())| - 1;
        && Outer() == old(Outer())[..n]
        && Frame(Contents(), it) == old(Outer())[n]
    {
      idx := start - 1;
      it := slots[idx];
      var n := |startStack| - 1;
      ghost var below := slots[..start];
      start := startStack[n];
      startStack := startStack[..n];
      lastIdx := -1;
      assert below[..start] == slots[..start] && below[start..|below| - 1] == slots[start..idx];
    }
  }

  lemma EmptyContiguous()
    ensures Contiguous([])
  {
  }
}
