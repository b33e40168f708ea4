/** The compaction of the blocks of small strings, in place. */
module StringCompact {
  import opened Lists
  import opened StringData

  /** The k-th record of row i is live, and its string and the record point to each other. */
  ghost predicate LinkedAt(l: Layout, data: map<nat, Option<Loc>>, bytes: map<nat, nat>, i: nat, row: seq<Chunk>,
                           k: nat)
    requires k < |row|
  {
    row[k].owner.Some? ==>
      var s := row[k].owner.value;
      && s in data && data[s] == Some(Loc(i, Off(l, row, k) + l.offset))
      && s in bytes && bytes[s] == row[k].nbytes
  }

  ghost predicate LinkedRow(l: Layout, data: map<nat, Option<Loc>>, bytes: map<nat, nat>, i: nat, row: seq<Chunk>,
                            from: nat) {
    forall k :: from <= k < |row| ==> LinkedAt(l, data, bytes, i, row, k)
  }

  ghost predicate HasOwner(rows: seq<seq<Chunk>>, s: nat) {
    exists i, k :: 0 <= i < |rows| && 0 <= k < |rows[i]| && rows[i][k].owner == Some(s)
  }

  /** Every string that has data has a record. */
  ghost predicate AllOwned(data: map<nat, Option<Loc>>, rows: seq<seq<Chunk>>) {
    forall s :: s in data && data[s].Some? ==> HasOwner(rows, s)
  }

  ghost predicate RowsOk(l: Layout, rows: seq<seq<Chunk>>) {
    forall i, c :: 0 <= i < |rows| && c in rows[i] ==> c.Ok(l)
  }

  /** Distinct live records belong to distinct strings. */
  ghost predicate Apart(rows: seq<seq<Chunk>>) {
    forall i, j, k, m ::
      (&& 0 <= i < |rows| && 0 <= j < |rows| && 0 <= k < |rows[i]| && 0 <= m < |rows[j]|
       && (i != j || k != m) && rows[i][k].owner.Some?) ==>
        rows[i][k].owner != rows[j][m].owner
  }

  lemma {:induction false} OffGrows(l: Layout, row: seq<Chunk>, k: nat, m: nat)
    requires k < m <= |row| && forall c :: c in row ==> c.Ok(l)
    ensures Off(l, row, k) < Off(l, row, m)
  {
    OffNext(l, row, m - 1);
    assert row[m - 1].Ok(l);
    if k < m - 1 { OffGrows(l, row, k, m - 1); }
  }

  /** Since a string points to one place, two live records have different strings. */
  lemma LinkedApart(l: Layout, data: map<nat, Option<Loc>>, bytes: map<nat, nat>, rows: seq<seq<Chunk>>)
    requires RowsOk(l, rows) && forall i :: 0 <= i < |rows| ==> LinkedRow(l, data, bytes, i, rows[i], 0)
    ensures Apart(rows)
  {
    forall i, j, k, m | 0 <= i < |rows| && 0 <= j < |rows| && 0 <= k < |rows[i]| && 0 <= m < |rows[j]|
      && (i != j || k != m) && rows[i][k].owner.Some?
      ensures rows[i][k].owner != rows[j][m].owner
    {
      assert LinkedAt(l, data, bytes, i, rows[i], k) && LinkedAt(l, data, bytes, j, rows[j], m);
      if i == j {
        if k < m { OffGrows(l, rows[i], k, m); } else { OffGrows(l, rows[i], m, k); }
      }
    }
  }

  lemma RestFirst(mem: seq<Cell>, from: nat, row: seq<Chunk>, k: nat)
    requires k < |row| && from + |Flat(row[k..])| <= |mem| && mem[from..from + |Flat(row[k..])|] == Flat(row[k..])
    ensures var c, rest := row[k], Flat(row[k + 1..]);
      && |Flat(row[k..])| == |c.cells| + |rest|
      && mem[from..from + |c.cells|] == c.cells
      && mem[from + |c.cells|..from + |c.cells| + |rest|] == rest
  {
    var c, rest := row[k], Flat(row[k + 1..]);
    assert row[k..] == [c] + row[k + 1..];
    FlatFirst(c, row[k + 1..]);
    var m := mem[from..from + |Flat(row[k..])|];
    assert m == c.cells + rest;
    assert m[..|c.cells|] == c.cells && m[|c.cells|..] == rest;
  }

  /** What a copy leaves: a region after the copied place, and the row before it with the copy. */
  lemma Copied(mem: seq<Cell>, src: seq<Cell>, mem': seq<Cell>, start: nat, to: nat)
    requires start <= to && to + |src| <= |mem| && mem' == mem[..to] + src + mem[to + |src|..]
    ensures |mem'| == |mem| && mem'[start..to + |src|] == mem[start..to] + src
    ensures forall f, g :: to + |src| <= f <= g <= |mem| ==> mem'[f..g] == mem[f..g]
  {
  }

  lemma DoneNext(was: seq<seq<Chunk>>, b: nat, k: nat)
    requires b < |was| && k < |was[b]|
    ensures var before, c := Concat(was[..b]) + was[b][..k], was[b][k];
      Live(Concat(was[..b]) + was[b][..k + 1]) == if c.owner.Some? then Live(before) + [c] else Live(before)
  {
    var before, c := Concat(was[..b]) + was[b][..k], was[b][k];
    assert Concat(was[..b]) + was[b][..k + 1] == before + [c];
    LiveLast(before, c);
  }

  /** A row in which the string s has no record keeps its links when only s moves. */
  lemma OthersLinked(l: Layout, data: map<nat, Option<Loc>>, data': map<nat, Option<Loc>>, bytes: map<nat, nat>,
                     i: nat, row: seq<Chunk>, from: nat, s: nat)
    requires LinkedRow(l, data, bytes, i, row, from)
    requires forall t :: t in data && t != s ==> t in data' && data'[t] == data[t]
    requires forall k :: from <= k < |row| ==> row[k].owner != Some(s)
    ensures LinkedRow(l, data', bytes, i, row, from)
  {
    forall k | from <= k < |row|
      ensures LinkedAt(l, data', bytes, i, row, k)
    {
      assert LinkedAt(l, data, bytes, i, row, k);
    }
  }

  lemma AppendLinked(l: Layout, data: map<nat, Option<Loc>>, bytes: map<nat, nat>, i: nat, row: seq<Chunk>, c: Chunk)
    requires LinkedRow(l, data, bytes, i, row, 0) && c.owner.Some?
    requires c.owner.value in data && data[c.owner.value] == Some(Loc(i, l.start + |Flat(row)| + l.offset))
    requires c.owner.value in bytes && bytes[c.owner.value] == c.nbytes
    ensures LinkedRow(l, data, bytes, i, row + [c], 0)
  {
    var row' := row + [c];
    forall k | 0 <= k < |row'|
      ensures LinkedAt(l, data, bytes, i, row', k)
    {
      OffAppend(l, row, c, if k < |row| then k else |row|);
      if k < |row| { assert LinkedAt(l, data, bytes, i, row, k); } else { assert row[..k] == row; }
    }
  }

  /** The string s has no record in the rows. */
  ghost predicate NoOwner(rows: seq<seq<Chunk>>, s: nat) {
    forall t :: t in Concat(rows) ==> t.owner != Some(s)
  }

  lemma SizeGrows(l: Layout, n: nat, m: nat)
    requires 0 < l.align && n <= m
    ensures l.Size(n) <= l.Size(m)
  {
    var u := if l.offset + n + 1 > l.least then l.offset + n + 1 else l.least;
    var v := if l.offset + m + 1 > l.least then l.offset + m + 1 else l.least;
    var p, q := (u + l.align - 1) / l.align, (v + l.align - 1) / l.align;
    DivGrows(u + l.align - 1, v + l.align - 1, l.align);
    TimesGrows(p, q, l.align);
  }

  lemma DivGrows(a: nat, b: nat, d: nat)
    requires a <= b && 0 < d
    ensures a / d <= b / d
  {
    var p, q := a / d, b / d;
    assert p * d <= a && b < q * d + d;
    TimesGrows(q + 1, p, d);
    assert (q + 1) * d == q * d + d;
  }

  lemma TimesGrows(p: int, q: int, d: nat)
    ensures p <= q ==> p * d <= q * d
  {
  }

  /** The strings that have data keep having it. */
  ghost predicate Same(data: map<nat, Option<Loc>>, data': map<nat, Option<Loc>>) {
    data'.Keys == data.Keys && forall t :: t in data' ==> (data'[t].Some? <==> data[t].Some?)
  }

  lemma SameTwice(a: map<nat, Option<Loc>>, b: map<nat, Option<Loc>>, c: map<nat, Option<Loc>>)
    requires Same(a, b) && Same(b, c)
    ensures Same(a, c)
  {
  }

  class StringHeap {
    const l: Layout
    var blocks: seq<array<Cell>>       // from the oldest to the current one
    var nextFree: seq<nat>
    var data: map<nat, Option<Loc>>    // where the bytes of a string are
    var bytes: map<nat, nat>           // how many bytes it has
    ghost var rows: seq<seq<Chunk>>    // the records of each block

    ghost predicate Shape()
      reads this`blocks, this`nextFree
    {
      && l.Ok() && |nextFree| == |blocks|
      && (forall i :: 0 <= i < |blocks| ==> blocks[i].Length == l.block)
      && (forall i, j :: 0 <= i < j < |blocks| ==> blocks[i] != blocks[j])
    }

    ghost predicate Valid()
      reads this, blocks
    {
      && Shape() && |rows| == |blocks|
      && (forall i :: 0 <= i < |blocks| ==> Tiled(l, blocks[i][..], nextFree[i], rows[i]))
      && (forall i :: 0 <= i < |rows| ==> LinkedRow(l, data, bytes, i, rows[i], 0))
      && AllOwned(data, rows)
    }

    constructor (l: Layout)
      requires l.Ok()
      ensures Valid() && rows == [] && data == map[] && this.l == l
    {
      this.l := l;
      blocks, nextFree, data, bytes, rows := [], [], map[], map[], [];
    }

    /** memmove */
    method Move(tb: nat, to: nat, b: nat, from: nat, size: nat)
      requires Shape() && tb < |blocks| && b < |blocks| && to + size <= l.block && from + size <= l.block
      modifies blocks[tb]
      ensures blocks[tb][..] == old(blocks[tb][..to]) + old(blocks[b][from..from + size]) + old(blocks[tb][to + size..])
    {
      forall k | 0 <= k < size {
        blocks[tb][to + k] := blocks[b][from + k];
      }
    }

    ghost predicate TiledAt(i: nat, row: seq<Chunk>)
      requires Shape() && i < |blocks|
      reads this`blocks, this`nextFree, blocks
    {
      Tiled(l, blocks[i][..], nextFree[i], row)
    }

    /** The row being filled, up to `to`. */
    ghost predicate RowIs(row: seq<Chunk>, tb: nat, to: nat)
      requires Shape() && tb < |blocks|
      reads this`blocks, this`nextFree, blocks
    {
      && to == l.start + |Flat(row)| <= l.block && blocks[tb][l.start..to] == Flat(row)
      && (forall c :: c in row ==> c.Ok(l))
    }

    /** The memory part of Compacting. */
    ghost predicate InPlace(was: seq<seq<Chunk>>, out: seq<seq<Chunk>>, tb: nat, to: nat, b: nat, from: nat, k: nat)
      reads this`blocks, this`nextFree, blocks
    {
      && Shape() && |was| == |blocks| && |out| == tb + 1 && tb <= b < |blocks| && k <= |was[b]|
      && (forall i :: 0 <= i < tb ==> TiledAt(i, out[i])) && RowIs(out[tb], tb, to)
      && from == Off(l, was[b], k) && RestIs(was, b, from, k)
      && (forall i :: b < i < |blocks| ==> TiledAt(i, was[i]))
      && (tb < b || to <= from)
    }

    ghost predicate Linked(was: seq<seq<Chunk>>, out: seq<seq<Chunk>>, tb: nat, b: nat, k: nat)
      requires |out| == tb + 1 && b < |was| && k <= |was[b]|
      reads this`data, this`bytes
    {
      && (forall i :: 0 <= i <= tb ==> LinkedRow(l, data, bytes, i, out[i], 0))
      && LinkedRow(l, data, bytes, b, was[b], k)
      && (forall i :: b < i < |was| ==> LinkedRow(l, data, bytes, i, was[i], 0))
    }

    /** Rows `out` are in place in the blocks before tb and in tb up to `to`; the records of
        block b from the k-th on, and the blocks after it, are still to be done. */
    ghost predicate Compacting(was: seq<seq<Chunk>>, out: seq<seq<Chunk>>, tb: nat, to: nat, b: nat, from: nat, k: nat)
      reads this`blocks, this`nextFree, this`data, this`bytes, blocks
    {
      && InPlace(was, out, tb, to, b, from, k) && Linked(was, out, tb, b, k)
      && RowsOk(l, was) && Apart(was)
    }

    ghost predicate RestIs(was: seq<seq<Chunk>>, b: nat, from: nat, k: nat)
      requires Shape() && b < |blocks| && |was| == |blocks| && k <= |was[b]|
      reads this`blocks, this`nextFree, blocks
    {
      var rest := Flat(was[b][k..]);
      from + |rest| <= l.block && blocks[b][from..from + |rest|] == rest
    }

    /** The record at `from`, read from memory. */
    lemma ReadChunk(was: seq<seq<Chunk>>, b: nat, from: nat, k: nat)
      requires Shape() && b < |blocks| && |was| == |blocks| && k < |was[b]| && RowsOk(l, was)
      requires from == Off(l, was[b], k) && RestIs(was, b, from, k)
      ensures var c := was[b][k];
        && c.Ok(l) && from + |c.cells| <= l.block && blocks[b][from..from + |c.cells|] == c.cells
        && blocks[b][from] == Back(c.owner) && (c.owner.None? ==> blocks[b][from + l.offset] == Count(c.nbytes))
        && RestIs(was, b, from + |c.cells|, k + 1) && from + |c.cells| == Off(l, was[b], k + 1)
    {
      var c := was[b][k];
      assert c in was[b] && c.Ok(l);
      RestFirst(blocks[b][..], from, was[b], k);
      assert blocks[b][..][from..from + |c.cells|] == c.cells;
      assert blocks[b][from] == blocks[b][..][from..from + |c.cells|][0];
      assert blocks[b][from + l.offset] == blocks[b][..][from..from + |c.cells|][l.offset];
      OffNext(l, was[b], k);
    }

    /** A dead record is passed over. */
    lemma SkipDead(was: seq<seq<Chunk>>, out: seq<seq<Chunk>>, tb: nat, to: nat, b: nat, from: nat, k: nat)
      requires Compacting(was, out, tb, to, b, from, k) && k < |was[b]| && was[b][k].owner.None?
      ensures Compacting(was, out, tb, to, b, from + |was[b][k].cells|, k + 1)
    {
      hide Flat, Tiled, Apart, Layout.Ok;
      ReadChunk(was, b, from, k);
    }

    /** When the block that is copied to is full, the next one in the list is taken: there is one,
        because the block that is read from is further on. */
    method NextBlock(ghost was: seq<seq<Chunk>>, ghost out: seq<seq<Chunk>>, tb: nat, to: nat, b: nat, from: nat,
                     ghost k: nat)
      requires Compacting(was, out, tb, to, b, from, k) && k < |was[b]|
      requires to + |was[b][k].cells| > l.block
      modifies this`nextFree
      ensures tb < b && Compacting(was, Begin(out), tb + 1, l.start, b, from, k)
    {
      ReadChunk(was, b, from, k);
      assert tb < b;
      hide Apart, Layout.Ok;
      nextFree := nextFree[tb := to];
      assert blocks[tb][..][l.start..to] == Flat(out[tb]);
      EmptyRow(b, was[b], k);
    }

    lemma EmptyRow(b: nat, row: seq<Chunk>, k: nat)
      requires k <= |row|
      ensures Flat([]) == [] && l.start <= Off(l, row, k) && LinkedRow(l, data, bytes, b, [], 0)
    {
    }

    /** A live record is copied to the end of the row being filled, and its string is told. */
    method Place(ghost was: seq<seq<Chunk>>, ghost out: seq<seq<Chunk>>, tb: nat, to: nat, b: nat, from: nat,
                 ghost k: nat, s: nat, size: nat)
      requires Compacting(was, out, tb, to, b, from, k) && k < |was[b]| && was[b][k].owner == Some(s)
      requires size == |was[b][k].cells| && to + size <= l.block
      requires NoOwner(out, s)
      modifies this`data, blocks
      ensures Compacting(was, Grow(out, was[b][k]), tb, to + size, b, from + size, k + 1)
      ensures Same(old(data), data)
    {
      ChunkLink(was, out, tb, to, b, from, k);
      hide Flat, Apart, StringHeap.Linked, StringHeap.InPlace, RowsOk, NoOwner, Grow;
      if b != tb || from != to {
        CopyRecord(was, out, tb, to, b, from, k, size);
        data := data[s := Some(Loc(tb, to + l.offset))];
      } else {
        InPlaceAlready(was, out, tb, to, b, from, k);
      }
      GrownLinks(old(data), was, out, tb, to, b, from, k, s);
    }

    method CopyRecord(ghost was: seq<seq<Chunk>>, ghost out: seq<seq<Chunk>>, tb: nat, to: nat, b: nat, from: nat,
                      ghost k: nat, size: nat)
      requires InPlace(was, out, tb, to, b, from, k) && k < |was[b]| && RowsOk(l, was)
      requires size == |was[b][k].cells| && to + size <= l.block
      modifies blocks[tb]
      ensures InPlace(was, Grow(out, was[b][k]), tb, to + size, b, from + size, k + 1)
    {
      hide *;
      CopyReady(was, out, tb, to, b, from, k);
      ghost var mem := blocks[tb][..];
      Move(tb, to, b, from, size);
      RowCopied(mem, out[tb], was[b][k], tb, to);
      Untouched(mem, was[b][k].cells, tb, to);
      ghost var there: seq<Cell> := old(blocks[b][..]);
      RestStays(was, b, from + size, k + 1, there);
      forall i | 0 <= i < tb
        ensures TiledAt(i, out[i])
      {
        assert blocks[i] != blocks[tb];
        TiledStays(i, out[i], old(blocks[i][..]));
      }
      forall i | b < i < |blocks|
        ensures TiledAt(i, was[i])
      {
        assert blocks[i] != blocks[tb];
        TiledStays(i, was[i], old(blocks[i][..]));
      }
      CopyMade(was, out, tb, to, b, from, k);
    }

    /** What InPlace says before the copy, and the record that is read. */
    lemma CopyReady(was: seq<seq<Chunk>>, out: seq<seq<Chunk>>, tb: nat, to: nat, b: nat, from: nat, k: nat)
      requires InPlace(was, out, tb, to, b, from, k) && k < |was[b]| && RowsOk(l, was)
      ensures Shape() && |was| == |blocks| && |out| == tb + 1 && tb <= b < |blocks| && (tb < b || to <= from)
      ensures forall i, j :: 0 <= i < j < |blocks| ==> blocks[i] != blocks[j]
      ensures forall i :: 0 <= i < tb ==> Tiled(l, blocks[i][..], nextFree[i], out[i])
      ensures forall i :: b < i < |blocks| ==> Tiled(l, blocks[i][..], nextFree[i], was[i])
      ensures RowIs(out[tb], tb, to) && blocks[tb].Length == blocks[b].Length == l.block
      ensures l.start <= to && blocks[tb][..][l.start..to] == Flat(out[tb]) && to == l.start + |Flat(out[tb])|
      ensures forall c :: c in out[tb] ==> c.Ok(l)
      ensures was[b][k].Ok(l) && from + |was[b][k].cells| <= l.block
      ensures blocks[b][from..from + |was[b][k].cells|] == was[b][k].cells
      ensures from + |was[b][k].cells| == Off(l, was[b], k + 1)
      ensures from + |was[b][k].cells| + |Flat(was[b][k + 1..])| <= l.block
      ensures blocks[b][..][from + |was[b][k].cells|..from + |was[b][k].cells| + |Flat(was[b][k + 1..])|]
        == Flat(was[b][k + 1..])
    {
      ReadChunk(was, b, from, k);
      assert blocks[tb][..][l.start..to] == blocks[tb][l.start..to];
      hide Flat, Off;
      var upto := from + |was[b][k].cells| + |Flat(was[b][k + 1..])|;
      assert blocks[b][..][from + |was[b][k].cells|..upto] == blocks[b][from + |was[b][k].cells|..upto];
    }

    /** The row being filled, with the record copied behind it. */
    lemma RowCopied(mem: seq<Cell>, row: seq<Chunk>, c: Chunk, tb: nat, to: nat)
      requires Shape() && tb < |blocks| && |mem| == blocks[tb].Length == l.block && l.start <= to <= |mem|
      requires mem[l.start..to] == Flat(row) && to == l.start + |Flat(row)| && c.Ok(l) && to + |c.cells| <= l.block
      requires forall d :: d in row ==> d.Ok(l)
      requires blocks[tb][..] == mem[..to] + c.cells + mem[to + |c.cells|..]
      ensures RowIs(row + [c], tb, to + |c.cells|)
    {
      FlatLast(row, c);
      hide Flat, Layout.Ok, Chunk.Ok;
      Copied(mem, c.cells, blocks[tb][..], l.start, to);
      assert blocks[tb][..][l.start..to + |c.cells|] == blocks[tb][l.start..to + |c.cells|];
    }

    /** Behind the copy the memory is as it was. */
    lemma Untouched(mem: seq<Cell>, src: seq<Cell>, tb: nat, to: nat)
      requires tb < |blocks| && to + |src| <= |mem|
      requires blocks[tb][..] == mem[..to] + src + mem[to + |src|..]
      ensures blocks[tb].Length == |mem|
      ensures forall i :: to + |src| <= i < |mem| ==> blocks[tb][i] == mem[i]
    {
      forall i | to + |src| <= i < |mem|
        ensures blocks[tb][i] == mem[i]
      {
        assert blocks[tb][..][i] == blocks[tb][i];
      }
    }

    lemma RestStays(was: seq<seq<Chunk>>, b: nat, from: nat, k: nat, mem: seq<Cell>)
      requires Shape() && b < |blocks| && |was| == |blocks| && k <= |was[b]| && blocks[b].Length == |mem| == l.block
      requires from + |Flat(was[b][k..])| <= |mem| && mem[from..from + |Flat(was[b][k..])|] == Flat(was[b][k..])
      requires forall i :: from <= i < |mem| ==> blocks[b][i] == mem[i]
      ensures RestIs(was, b, from, k)
    {
      hide Flat;
    }

    lemma TiledStays(i: nat, row: seq<Chunk>, mem: seq<Cell>)
      requires Shape() && i < |blocks| && blocks[i][..] == mem && Tiled(l, mem, nextFree[i], row)
      ensures TiledAt(i, row)
    {
    }

    lemma CopyMade(was: seq<seq<Chunk>>, out: seq<seq<Chunk>>, tb: nat, to: nat, b: nat, from: nat, k: nat)
      requires Shape() && |was| == |blocks| && |out| == tb + 1 && tb <= b < |blocks| && k < |was[b]|
      requires tb < b || to <= from
      requires forall i :: 0 <= i < tb ==> TiledAt(i, out[i])
      requires forall i :: b < i < |blocks| ==> TiledAt(i, was[i])
      requires RowIs(out[tb] + [was[b][k]], tb, to + |was[b][k].cells|)
      requires RestIs(was, b, from + |was[b][k].cells|, k + 1) && from + |was[b][k].cells| == Off(l, was[b], k + 1)
      ensures InPlace(was, Grow(out, was[b][k]), tb, to + |was[b][k].cells|, b, from + |was[b][k].cells|, k + 1)
    {
      hide StringHeap.RowIs, StringHeap.RestIs, StringHeap.TiledAt, Off, StringHeap.Shape;
    }

    lemma InPlaceAlready(was: seq<seq<Chunk>>, out: seq<seq<Chunk>>, tb: nat, to: nat, b: nat, from: nat, k: nat)
      requires InPlace(was, out, tb, to, b, from, k) && k < |was[b]| && RowsOk(l, was) && b == tb && from == to
      ensures InPlace(was, Grow(out, was[b][k]), tb, to + |was[b][k].cells|, b, from + |was[b][k].cells|, k + 1)
    {
      ReadChunk(was, b, from, k);
      var c := was[b][k];
      FlatLast(out[tb], c);
      Abut(blocks[tb][..], l.start, to, to + |c.cells|);
      hide Flat, Layout.Ok, RowsOk, Tiled, Off, Chunk.Ok;
    }

    lemma Abut(m: seq<Cell>, a: nat, b: nat, c: nat)
      requires a <= b <= c <= |m|
      ensures m[a..c] == m[a..b] + m[b..c]
    {
    }

    lemma GrownLinks(data0: map<nat, Option<Loc>>, was: seq<seq<Chunk>>, out: seq<seq<Chunk>>, tb: nat, to: nat,
                     b: nat, from: nat, k: nat, s: nat)
      requires |out| == tb + 1 && b < |was| && k < |was[b]| && Apart(was) && was[b][k].owner == Some(s)
      requires to == l.start + |Flat(out[tb])| && from == Off(l, was[b], k)
      requires forall i :: 0 <= i <= tb ==> LinkedRow(l, data0, bytes, i, out[i], 0)
      requires LinkedRow(l, data0, bytes, b, was[b], k)
      requires forall i :: b < i < |was| ==> LinkedRow(l, data0, bytes, i, was[i], 0)
      requires if b == tb && from == to then data == data0 else data == data0[s := Some(Loc(tb, to + l.offset))]
      requires NoOwner(out, s)
      ensures Linked(was, Grow(out, was[b][k]), tb, b, k + 1)
    {
      assert LinkedAt(l, data0, bytes, b, was[b], k);
      hide Flat, Off, LinkedRow, NoOwner, Apart, Grow;
      PlacedLinks(data0, was, out, tb, to, b, k, s);
    }

    lemma PlacedLinks(data0: map<nat, Option<Loc>>, was: seq<seq<Chunk>>, out: seq<seq<Chunk>>, tb: nat, to: nat,
                      b: nat, k: nat, s: nat)
      requires |out| == tb + 1 && b < |was| && k < |was[b]| && Apart(was) && was[b][k].owner == Some(s)
      requires to == l.start + |Flat(out[tb])|
      requires forall i :: 0 <= i <= tb ==> LinkedRow(l, data0, bytes, i, out[i], 0)
      requires LinkedRow(l, data0, bytes, b, was[b], k)
      requires forall i :: b < i < |was| ==> LinkedRow(l, data0, bytes, i, was[i], 0)
      requires forall t :: t in data0 && t != s ==> t in data && data[t] == data0[t]
      requires s in data && data[s] == Some(Loc(tb, to + l.offset))
      requires NoOwner(out, s)
      ensures Linked(was, Grow(out, was[b][k]), tb, b, k + 1)
    {
      var out' := Grow(out, was[b][k]);
      hide Flat, Concat;
      forall i | 0 <= i <= tb
        ensures LinkedRow(l, data, bytes, i, out'[i], 0)
      {
        forall m | 0 <= m < |out[i]|
          ensures out[i][m].owner != Some(s)
        {
          ConcatIn(out, out[i][m]);
        }
        OthersLinked(l, data0, data, bytes, i, out[i], 0, s);
        if i == tb {
          assert LinkedAt(l, data0, bytes, b, was[b], k);
          AppendLinked(l, data, bytes, tb, out[tb], was[b][k]);
        }
      }
      assert LinkedRow(l, data0, bytes, b, was[b], k + 1);
      OthersLinked(l, data0, data, bytes, b, was[b], k + 1, s);
      forall i | b < i < |was|
        ensures LinkedRow(l, data, bytes, i, was[i], 0)
      {
        OthersLinked(l, data0, data, bytes, i, was[i], 0, s);
      }
    }

    /** The rows in place are what packing gives for the live records seen. */
    ghost predicate Moving(was: seq<seq<Chunk>>, out: seq<seq<Chunk>>, tb: nat, to: nat, b: nat, from: nat, k: nat)
      reads this`blocks, this`nextFree, this`data, this`bytes, blocks
    {
      Compacting(was, out, tb, to, b, from, k) && out == PackedTo(was, b, k)
    }

    /** The live records before the k-th of row b, packed. */
    ghost function PackedTo(was: seq<seq<Chunk>>, b: nat, k: nat): (rows: seq<seq<Chunk>>)
      requires b < |was| && k <= |was[b]|
      ensures rows != []
    {
      Packed(l, Live(Concat(was[..b]) + was[b][..k]))
    }

    lemma PackedToNext(was: seq<seq<Chunk>>, b: nat, k: nat)
      requires b < |was| && k < |was[b]|
      ensures PackedTo(was, b, k + 1) ==
        if was[b][k].owner.Some? then PackNext(l, PackedTo(was, b, k), was[b][k]) else PackedTo(was, b, k)
    {
      DoneNext(was, b, k);
      PackedLast(l, Live(Concat(was[..b]) + was[b][..k]), was[b][k]);
    }

    /** One record. */
    method MoveChunk(ghost was: seq<seq<Chunk>>, ghost out: seq<seq<Chunk>>, tb: nat, to: nat, b: nat, from: nat,
                     ghost k: nat)
        returns (ghost out': seq<seq<Chunk>>, tb': nat, to': nat, from': nat)
      requires Moving(was, out, tb, to, b, from, k) && k < |was[b]|
      modifies this`data, this`nextFree, blocks
      ensures Moving(was, out', tb', to', b, from', k + 1)
      ensures Same(old(data), data)
    {
      hide *;
      var s, size := ReadSize(was, out, tb, to, b, from, k);
      from' := from + size;
      if s.Some? {
        out', tb', to' := LiveRound(was, out, tb, to, b, from, k, s.value, size);
      } else {
        out', tb', to' := out, tb, to;
        DeadRound(was, out, tb, to, b, from, k);
      }
    }

    method LiveRound(ghost was: seq<seq<Chunk>>, ghost out: seq<seq<Chunk>>, tb: nat, to: nat, b: nat, from: nat,
                     ghost k: nat, s: nat, size: nat)
        returns (ghost out': seq<seq<Chunk>>, tb': nat, to': nat)
      requires Moving(was, out, tb, to, b, from, k) && k < |was[b]| && was[b][k].owner == Some(s)
      requires size == |was[b][k].cells|
      modifies this`data, this`nextFree, blocks
      ensures Moving(was, out', tb', to', b, from + size, k + 1) && Same(old(data), data)
    {
      hide *;
      MovingIs(was, out, tb, to, b, from, k);
      PackedToNext(was, b, k);
      NotYet(was, b, k, out);
      out', tb', to' := MoveLive(was, out, tb, to, b, from, k, s, size);
      MovingMade(was, out', tb', to', b, from + size, k + 1);
    }

    lemma DeadRound(was: seq<seq<Chunk>>, out: seq<seq<Chunk>>, tb: nat, to: nat, b: nat, from: nat, k: nat)
      requires Moving(was, out, tb, to, b, from, k) && k < |was[b]| && was[b][k].owner.None?
      ensures Moving(was, out, tb, to, b, from + |was[b][k].cells|, k + 1) && Same(data, data)
    {
      hide *;
      MovingIs(was, out, tb, to, b, from, k);
      PackedToNext(was, b, k);
      SkipDead(was, out, tb, to, b, from, k);
      MovingMade(was, out, tb, to, b, from + |was[b][k].cells|, k + 1);
    }

    lemma MovingIs(was: seq<seq<Chunk>>, out: seq<seq<Chunk>>, tb: nat, to: nat, b: nat, from: nat, k: nat)
      requires Moving(was, out, tb, to, b, from, k)
      ensures Compacting(was, out, tb, to, b, from, k) && Apart(was) && b < |was| && k <= |was[b]|
      ensures out == PackedTo(was, b, k)
      ensures Same(data, data)
    {
    }

    lemma MovingMade(was: seq<seq<Chunk>>, out: seq<seq<Chunk>>, tb: nat, to: nat, b: nat, from: nat, k: nat)
      requires Compacting(was, out, tb, to, b, from, k) && b < |was| && k <= |was[b]| && out == PackedTo(was, b, k)
      ensures Moving(was, out, tb, to, b, from, k)
    {
    }

    /** Whose record it is, and its size. */
    method ReadSize(ghost was: seq<seq<Chunk>>, ghost out: seq<seq<Chunk>>, ghost tb: nat, ghost to: nat, b: nat,
                    from: nat, ghost k: nat)
        returns (s: Option<nat>, size: nat)
      requires Moving(was, out, tb, to, b, from, k) && k < |was[b]|
      ensures s == was[b][k].owner && size == |was[b][k].cells|
    {
      ReadChunk(was, b, from, k);
      ChunkLink(was, out, tb, to, b, from, k);
      hide StringHeap.Compacting, Flat, Layout.Size;
      s := blocks[b][from].s;
      var nbytes := if s.Some? then bytes[s.value] else blocks[b][from + l.offset].n;
      size := l.Size(nbytes);
    }

    method PlaceNext(ghost was: seq<seq<Chunk>>, ghost out: seq<seq<Chunk>>, tb: nat, to: nat, b: nat, from: nat,
                     ghost k: nat, s: nat, size: nat)
      requires Compacting(was, out, tb, to, b, from, k) && k < |was[b]| && was[b][k].owner == Some(s)
      requires size == |was[b][k].cells| && to + size > l.block && NoOwner(out, s)
      modifies this`data, this`nextFree, blocks
      ensures Compacting(was, Grow(Begin(out), was[b][k]), tb + 1, l.start + size, b, from + size, k + 1)
      ensures Same(old(data), data)
    {
      hide *;
      ChunkLink(was, out, tb, to, b, from, k);
      NotYetMore(out, s);
      NextBlock(was, out, tb, to, b, from, k);
      Place(was, Begin(out), tb + 1, l.start, b, from, k, s, size);
    }

    method MoveLive(ghost was: seq<seq<Chunk>>, ghost out: seq<seq<Chunk>>, tb: nat, to: nat, b: nat, from: nat,
                    ghost k: nat, s: nat, size: nat)
        returns (ghost out': seq<seq<Chunk>>, tb': nat, to': nat)
      requires Compacting(was, out, tb, to, b, from, k) && k < |was[b]| && was[b][k].owner == Some(s)
      requires size == |was[b][k].cells| && NoOwner(out, s)
      modifies this`data, this`nextFree, blocks
      ensures Compacting(was, out', tb', to', b, from + size, k + 1) && Same(old(data), data)
      ensures out != [] && out' == PackNext(l, out, was[b][k])
    {
      hide *;
      ChunkLink(was, out, tb, to, b, from, k);
      ghost var c := was[b][k];
      PackNextIs(out, c);
      if to + size > l.block {
        PlaceNext(was, out, tb, to, b, from, k, s, size);
        out', tb', to' := Grow(Begin(out), c), tb + 1, l.start + size;
      } else {
        Place(was, out, tb, to, b, from, k, s, size);
        out', tb', to' := Grow(out, c), tb, to + size;
      }
    }

    lemma PackNextIs(out: seq<seq<Chunk>>, c: Chunk)
      requires out != []
      ensures PackNext(l, out, c) ==
        if l.start + |Flat(out[|out| - 1])| + |c.cells| <= l.block then Grow(out, c) else Grow(Begin(out), c)
    {
    }

    lemma ChunkLink(was: seq<seq<Chunk>>, out: seq<seq<Chunk>>, tb: nat, to: nat, b: nat, from: nat, k: nat)
      requires Compacting(was, out, tb, to, b, from, k) && k < |was[b]|
      ensures LinkedAt(l, data, bytes, b, was[b], k) && was[b][k].Ok(l) && to == l.start + |Flat(out[tb])|
      ensures |out| == tb + 1
      ensures l.start + |was[b][k].cells| <= l.block && b < |was|
    {
      assert was[b][k] in was[b];
      ReadChunk(was, b, from, k);
    }

    lemma NotYet(was: seq<seq<Chunk>>, b: nat, k: nat, out: seq<seq<Chunk>>)
      requires Apart(was) && b < |was| && k < |was[b]| && was[b][k].owner.Some?
      requires out == PackedTo(was, b, k)
      ensures NoOwner(out, was[b][k].owner.value)
    {
      var before := Concat(was[..b]) + was[b][..k];
      PackedSame(l, Live(before));
      hide Packed, Live, Concat;
      forall t | t in Concat(out)
        ensures t.owner != was[b][k].owner
      {
        LiveIn(before, t);
        ConcatIn(was[..b], t);
        if t in was[b][..k] {
          var m :| 0 <= m < k && was[b][m] == t;
        } else {
          var i :| 0 <= i < |was[..b]| && t in was[..b][i];
          var m :| 0 <= m < |was[i]| && was[i][m] == t;
        }
      }
    }

    lemma NotYetMore(out: seq<seq<Chunk>>, s: nat)
      requires NoOwner(out, s)
      ensures NoOwner(Begin(out), s)
    {
      ConcatLast(out, []);
    }

    method MoveOne(ghost was: seq<seq<Chunk>>, ghost out: seq<seq<Chunk>>, tb: nat, to: nat, b: nat, from: nat,
                   ghost k: nat, ghost data0: map<nat, Option<Loc>>)
        returns (ghost out': seq<seq<Chunk>>, tb': nat, to': nat, from': nat)
      requires Moving(was, out, tb, to, b, from, k) && k < |was[b]| && Same(data0, data)
      modifies this`data, this`nextFree, blocks
      ensures Moving(was, out', tb', to', b, from', k + 1) && Same(data0, data)
      ensures from' == Off(l, was[b], k + 1)
    {
      hide StringHeap.Compacting, StringHeap.PackedTo, Same, Off;
      ghost var d := data;
      out', tb', to', from' := MoveChunk(was, out, tb, to, b, from, k);
      SameTwice(data0, d, data);
      OffOf(was, out', tb', to', b, from', k + 1);
    }

    lemma BlockReady(was: seq<seq<Chunk>>, out: seq<seq<Chunk>>, tb: nat, to: nat, b: nat)
      requires Moving(was, out, tb, to, b, l.start, 0)
      ensures b < |was| && b < |nextFree| && l.start == Off(l, was[b], 0) && RowsOk(l, was) && Same(data, data)
    {
    }

    /** All the records of a block. */
    method CompactBlock(ghost was: seq<seq<Chunk>>, ghost out: seq<seq<Chunk>>, tb: nat, to: nat, b: nat)
        returns (ghost out': seq<seq<Chunk>>, tb': nat, to': nat, ghost from': nat)
      requires Moving(was, out, tb, to, b, l.start, 0) && nextFree[b] == Off(l, was[b], |was[b]|)
      modifies this`data, this`nextFree, blocks
      ensures Moving(was, out', tb', to', b, from', |was[b]|) && Same(old(data), data)
    {
      hide *;
      BlockReady(was, out, tb, to, b);
      var from, end := l.start, nextFree[b];
      out', tb', to' := out, tb, to;
      ghost var k := 0;
      while from < end
        invariant 0 <= k <= |was[b]| && Moving(was, out', tb', to', b, from, k)
        invariant from == Off(l, was[b], k) && end == Off(l, was[b], |was[b]|)
        invariant Same(old(data), data)
        decreases |was[b]| - k
      {
        BeforeEnd(was, b, k);
        out', tb', to', from := MoveOne(was, out', tb', to', b, from, k, old(data));
        k := k + 1;
      }
      AtEnd(was, b, k);
      from' := from;
    }

    /** All blocks up to b are read: the next one is as it was. */
    lemma NextSource(was: seq<seq<Chunk>>, out: seq<seq<Chunk>>, tb: nat, to: nat, b: nat, from: nat)
      requires b + 1 < |was| && Moving(was, out, tb, to, b, from, |was[b]|)
      ensures |was| == |blocks| == |nextFree|
      ensures Moving(was, out, tb, to, b + 1, l.start, 0) && nextFree[b + 1] == Off(l, was[b + 1], |was[b + 1]|)
    {
      hide *;
      MovingIs(was, out, tb, to, b, from, |was[b]|);
      PackedToRow(was, b);
      NextRow(was, out, tb, to, b, from);
      MovingMade(was, out, tb, to, b + 1, l.start, 0);
    }

    lemma PackedToRow(was: seq<seq<Chunk>>, b: nat)
      requires b + 1 < |was|
      ensures PackedTo(was, b + 1, 0) == PackedTo(was, b, |was[b]|)
    {
      hide Packed, Live;
      assert was[..b + 1] == was[..b] + [was[b]];
      ConcatLast(was[..b], was[b]);
      assert was[b][..|was[b]|] == was[b];
      assert Concat(was[..b + 1]) + was[b + 1][..0] == Concat(was[..b]) + was[b][..|was[b]|];
    }

    lemma NextRow(was: seq<seq<Chunk>>, out: seq<seq<Chunk>>, tb: nat, to: nat, b: nat, from: nat)
      requires b + 1 < |was| && Compacting(was, out, tb, to, b, from, |was[b]|)
      ensures |was| == |blocks| == |nextFree|
      ensures Compacting(was, out, tb, to, b + 1, l.start, 0) && nextFree[b + 1] == Off(l, was[b + 1], |was[b + 1]|)
    {
      EndIs(was, b + 1);
      RestAll(was, b + 1);
      hide Off, Flat, Tiled, Apart, RowsOk, Layout.Ok, LinkedRow;
    }

    lemma RestAll(was: seq<seq<Chunk>>, b: nat)
      requires Shape() && b < |blocks| && |was| == |blocks| && Tiled(l, blocks[b][..], nextFree[b], was[b])
      ensures RestIs(was, b, l.start, 0) && l.start == Off(l, was[b], 0)
    {
      assert was[b][0..] == was[b];
      assert blocks[b][..][l.start..nextFree[b]] == blocks[b][l.start..nextFree[b]];
    }

    lemma FirstSource(was: seq<seq<Chunk>>)
      requires Valid() && blocks != [] && was == rows
      ensures |was| == |blocks| == |nextFree| && AllOwned(data, was)
      ensures Moving(was, [[]], 0, l.start, 0, l.start, 0) && nextFree[0] == Off(l, was[0], |was[0]|)
    {
      LinkedApart(l, data, bytes, was);
      EndIs(was, 0);
      RestAll(was, 0);
      assert Concat(was[..0]) + was[0][..0] == [];
      hide Apart, Layout.Ok;
    }

    lemma EndIs(was: seq<seq<Chunk>>, b: nat)
      requires Shape() && |was| == |blocks| && b < |blocks| && Tiled(l, blocks[b][..], nextFree[b], was[b])
      ensures nextFree[b] == Off(l, was[b], |was[b]|) && l.start == Off(l, was[b], 0)
    {
      assert was[b][..|was[b]|] == was[b];
      assert |blocks[b][..][l.start..nextFree[b]]| == nextFree[b] - l.start;
    }

    lemma BeforeEnd(was: seq<seq<Chunk>>, b: nat, k: nat)
      requires b < |was| && k <= |was[b]| && Off(l, was[b], k) < Off(l, was[b], |was[b]|)
      ensures k < |was[b]|
    {
    }

    lemma AtEnd(was: seq<seq<Chunk>>, b: nat, k: nat)
      requires b < |was| && k <= |was[b]| && Off(l, was[b], k) >= Off(l, was[b], |was[b]|) && RowsOk(l, was)
      ensures k == |was[b]|
    {
      if k < |was[b]| { OffGrows(l, was[b], k, |was[b]|); }
    }

    lemma OffOf(was: seq<seq<Chunk>>, out: seq<seq<Chunk>>, tb: nat, to: nat, b: nat, from: nat, k: nat)
      requires Moving(was, out, tb, to, b, from, k)
      ensures b < |was| && k <= |was[b]| && from == Off(l, was[b], k) && RowsOk(l, was)
    {
    }

    /** What is left when every block was read: the rows in place are all there is. */
    lemma AllDone(was: seq<seq<Chunk>>, out: seq<seq<Chunk>>, tb: nat, to: nat, b: nat, from: nat,
                  data0: map<nat, Option<Loc>>)
      requires b + 1 == |was| && Moving(was, out, tb, to, b, from, |was[b]|) && Same(data0, data)
      requires AllOwned(data0, was)
      ensures out == Packed(l, Live(Concat(was)))
      ensures AllOwned(data, out)
    {
      assert was == was[..b] + [was[b]] && was[b][..|was[b]|] == was[b];
      ConcatLast(was[..b], was[b]);
      PackedSame(l, Live(Concat(was)));
      hide Packed, Live, Concat;
      forall s | s in data && data[s].Some?
        ensures HasOwner(out, s)
      {
        var i, k :| 0 <= i < |was| && 0 <= k < |was[i]| && was[i][k].owner == Some(s);
        OwnerStays(was, out, i, k, s);
      }
    }

    lemma OwnerStays(was: seq<seq<Chunk>>, out: seq<seq<Chunk>>, i: nat, k: nat, s: nat)
      requires i < |was| && k < |was[i]| && was[i][k].owner == Some(s) && Concat(out) == Live(Concat(was))
      ensures HasOwner(out, s)
    {
      ConcatIn(was, was[i][k]);
      LiveIn(Concat(was), was[i][k]);
      ConcatIn(out, was[i][k]);
      var j :| 0 <= j < |out| && was[i][k] in out[j];
      var m :| 0 <= m < |out[j]| && out[j][m] == was[i][k];
    }

    /** The bytes of a string, as its pointer finds them. */
    ghost function StringBytes(s: nat): seq<Cell>
      requires Shape()
      reads this`blocks, this`nextFree, this`data, this`bytes, blocks
    {
      if s in data && data[s].Some? && s in bytes && data[s].value.block < |blocks|
         && data[s].value.at + bytes[s] + 1 <= l.block
      then blocks[data[s].value.block][data[s].value.at..data[s].value.at + bytes[s] + 1]
      else []
    }

    lemma BytesAre(i: nat, k: nat)
      requires Valid() && i < |rows| && k < |rows[i]| && rows[i][k].owner.Some?
      ensures rows[i][k].Ok(l) && StringBytes(rows[i][k].owner.value) == Text(l, rows[i][k])
    {
      var row, c := rows[i], rows[i][k];
      assert c in row;
      assert LinkedAt(l, data, bytes, i, row, k);
      FlatPart(l, row, k);
      PartOf(blocks[i][..], nextFree[i], row, Off(l, row, k), c);
    }

    lemma PartOf(mem: seq<Cell>, next: nat, row: seq<Chunk>, off: nat, c: Chunk)
      requires Tiled(l, mem, next, row) && c.Ok(l) && l.start <= off && off - l.start + |c.cells| <= |Flat(row)|
      requires Flat(row)[off - l.start..][..|c.cells|] == c.cells
      ensures l.offset + c.nbytes < |c.cells| && off + |c.cells| <= |mem|
      ensures mem[off + l.offset..off + l.offset + c.nbytes + 1] == Text(l, c)
    {
      hide Flat, Layout.Size;
      Slice(mem, l.start, next, off - l.start, |c.cells|);
      assert c.cells == mem[off..off + |c.cells|];
      CellsText(c, mem, off);
    }

    lemma CellsText(c: Chunk, mem: seq<Cell>, off: nat)
      requires c.Ok(l) && off + |c.cells| <= |mem| && c.cells == mem[off..off + |c.cells|]
      ensures mem[off + l.offset..off + l.offset + c.nbytes + 1] == Text(l, c)
    {
      hide Layout.Size;
      Slice(mem, off, off + |c.cells|, l.offset, c.nbytes + 1);
    }

    /** A slice of a slice. */
    lemma Slice(m: seq<Cell>, from: nat, to: nat, a: nat, n: nat)
      requires from + a + n <= to <= |m|
      ensures m[from..to][a..][..n] == m[from + a..from + a + n] && m[from..to][a..a + n] == m[from + a..from + a + n]
    {
    }

    /** A string whose record is the same record as before has the bytes it had. */
    lemma BytesStay(was: seq<seq<Chunk>>, before: map<nat, seq<Cell>>)
      requires Valid() && RowsOk(l, was)
      requires forall i, k :: 0 <= i < |was| && 0 <= k < |was[i]| && was[i][k].owner.Some? ==>
        was[i][k].owner.value in before && before[was[i][k].owner.value] == Text(l, was[i][k])
      requires forall i, k :: 0 <= i < |rows| && 0 <= k < |rows[i]| ==> Recorded(was, rows[i][k])
      ensures forall s :: s in data && data[s].Some? ==> s in before && StringBytes(s) == before[s]
    {
      forall s | s in data && data[s].Some?
        ensures s in before && StringBytes(s) == before[s]
      {
        var i, k :| 0 <= i < |rows| && 0 <= k < |rows[i]| && rows[i][k].owner == Some(s);
        BytesAre(i, k);
        assert Recorded(was, rows[i][k]);
        var j, m :| 0 <= j < |was| && 0 <= m < |was[j]| && was[j][m] == rows[i][k];
      }
    }

    ghost predicate Recorded(rows: seq<seq<Chunk>>, c: Chunk) {
      exists i, k :: 0 <= i < |rows| && 0 <= k < |rows[i]| && rows[i][k] == c
    }

    method CompactRows()
      requires Valid()
      modifies this, blocks
      ensures Valid() && Same(old(data), data) && bytes == old(bytes)
      ensures rows == if old(rows) == [] then [] else Packed(l, Live(Concat(old(rows))))
      ensures |blocks| <= |old(blocks)| && blocks == old(blocks)[..|blocks|]
    {
      hide *;
      SameLengths();
      if |blocks| == 0 {
        return;
      }
      ghost var was := rows;
      FirstSource(was);
      var tb, to, out, from := CompactBlocks(was);
      AllDone(was, out, tb, to, |was| - 1, from, old(data));
      Finish(was, out, tb, to, |was| - 1, from);
    }

    lemma SameLengths()
      requires Valid()
      ensures |rows| == |blocks| == |nextFree| && Same(data, data)
    {
    }

    method CompactBlocks(ghost was: seq<seq<Chunk>>)
        returns (tb: nat, to: nat, ghost out: seq<seq<Chunk>>, ghost from: nat)
      requires |was| == |blocks| == |nextFree| > 0
      requires Moving(was, [[]], 0, l.start, 0, l.start, 0) && nextFree[0] == Off(l, was[0], |was[0]|)
      modifies this`data, this`nextFree, blocks
      ensures Moving(was, out, tb, to, |was| - 1, from, |was[|was| - 1]|) && Same(old(data), data)
    {
      hide *;
      BlockReady(was, [[]], 0, l.start, 0);
      var b := 0;
      tb, to := 0, l.start;
      out, from := [[]], l.start;
      while true
        invariant 0 <= b < |was| == |blocks| == |nextFree| && Moving(was, out, tb, to, b, l.start, 0)
        invariant nextFree[b] == Off(l, was[b], |was[b]|) && Same(old(data), data)
        decreases |blocks| - b
      {
        ghost var d := data;
        out, tb, to, from := CompactBlock(was, out, tb, to, b);
        SameTwice(old(data), d, data);
        if b + 1 == |blocks| { return; }
        NextSource(was, out, tb, to, b, from);
        b := b + 1;
      }
    }

    /** The block being filled becomes the current one; those after it are freed. */
    method Finish(ghost was: seq<seq<Chunk>>, ghost out: seq<seq<Chunk>>, tb: nat, to: nat, ghost b: nat,
                  ghost from: nat)
      requires b < |was| && Moving(was, out, tb, to, b, from, |was[b]|)
      requires AllOwned(data, out)
      modifies this`blocks, this`nextFree, this`rows
      ensures Valid() && rows == out && |blocks| <= |old(blocks)| && blocks == old(blocks)[..|blocks|]
    {
      hide StringHeap.PackedTo, Flat, Apart, Layout.Ok, HasOwner, LinkedRow, RowsOk, StringHeap.RestIs;
      assert blocks[tb][..][l.start..to] == Flat(out[tb]);
      blocks := blocks[..tb + 1];
      nextFree := nextFree[..tb + 1][tb := to];
      rows := out;
    }

    lemma OldBytes(before: map<nat, seq<Cell>>)
      requires Valid() && before == map s | s in data && data[s].Some? :: StringBytes(s)
      ensures RowsOk(l, rows)
      ensures forall i, k :: 0 <= i < |rows| && 0 <= k < |rows[i]| && rows[i][k].owner.Some? ==>
        rows[i][k].owner.value in before && before[rows[i][k].owner.value] == Text(l, rows[i][k])
    {
      forall i, k | 0 <= i < |rows| && 0 <= k < |rows[i]| && rows[i][k].owner.Some?
        ensures rows[i][k].owner.value in before && before[rows[i][k].owner.value] == Text(l, rows[i][k])
      {
        assert LinkedAt(l, data, bytes, i, rows[i], k);
        BytesAre(i, k);
      }
    }

    lemma PackedRecorded(was: seq<seq<Chunk>>, out: seq<seq<Chunk>>, i: nat, k: nat)
      requires out == Packed(l, Live(Concat(was))) && i < |out| && k < |out[i]|
      ensures Recorded(was, out[i][k]) && out[i][k].owner.Some?
    {
      var c := out[i][k];
      PackedSame(l, Live(Concat(was)));
      hide Packed, Live, Concat;
      ConcatIn(out, c);
      LiveIn(Concat(was), c);
      ConcatIn(was, c);
      var j :| 0 <= j < |was| && c in was[j];
      var m :| 0 <= m < |was[j]| && was[j][m] == c;
    }

    /** Slides the live records together, from the oldest block on, and frees the blocks left over:
        the live records are packed in their order, none is dead, and every string's bytes are found
        where its pointer says. */
    method Compact()
      requires Valid()
      modifies this, blocks
      ensures Valid() && Same(old(data), data) && bytes == old(bytes)
      ensures rows == if old(rows) == [] then [] else Packed(l, Live(Concat(old(rows))))
      ensures forall i, k :: 0 <= i < |rows| && 0 <= k < |rows[i]| ==> rows[i][k].owner.Some?
      ensures forall s :: s in data && data[s].Some? ==> StringBytes(s) == old(StringBytes(s))
      ensures |blocks| <= |old(blocks)| && blocks == old(blocks)[..|blocks|]
    {
      ghost var was := rows;
      ghost var before := map s | s in data && data[s].Some? :: StringBytes(s);
      OldBytes(before);
      hide Packed, Live, Concat, StringHeap.Valid, StringHeap.StringBytes, RowsOk, StringHeap.Recorded, Same;
      CompactRows();
      forall i, k | 0 <= i < |rows| && 0 <= k < |rows[i]|
        ensures Recorded(was, rows[i][k]) && rows[i][k].owner.Some?
      {
        PackedRecorded(was, rows, i, k);
      }
      BytesStay(was, before);
    }

    // ---------- Strings that die, and new ones ----------

    /** A dead string's record keeps its place and its size until the next compaction. */
    method FreeString(s: nat) returns (ghost i: nat, ghost k: nat)
      requires Valid() && s in data && data[s].Some?
      modifies this`data, this`rows, blocks
      ensures i < |old(rows)| && k < |old(rows)[i]| && old(rows)[i][k].owner == Some(s) && old(rows)[i][k].Ok(l)
      ensures Valid() && data == old(data)[s := None]
      ensures rows == old(rows)[i := old(rows)[i][k := Dead(l, old(rows)[i][k])]]
    {
      hide *;
      Parts();
      i, k := RecordOf(s);
      FreeReady(i, k, s);
      ghost var was, data0 := rows, data;
      Clear(data[s].value.block, data[s].value.at - l.offset, bytes[s], was, k);
      data := data[s := None];
      rows := Freed(was, i, k);
      FreedLinks(data0, data, was, i, k, s);
      FreedOwners(was, i, k, s, data0);
      FreedIs(was, i, k);
      Whole();
    }

    lemma RecordOf(s: nat) returns (i: nat, k: nat)
      requires Valid() && s in data && data[s].Some?
      ensures i < |rows| && k < |rows[i]| && rows[i][k].owner == Some(s)
    {
      i, k :| 0 <= i < |rows| && 0 <= k < |rows[i]| && rows[i][k].owner == Some(s);
    }

    lemma Parts()
      requires Valid()
      ensures Shape() && AllTiled(rows) && AllLinked(data, bytes, rows) && AllOwned(data, rows)
      ensures RowsOk(l, rows) && Apart(rows) && |rows| == |blocks| == |nextFree|
    {
      LinkedApart(l, data, bytes, rows);
    }

    lemma Whole()
      requires Shape() && AllTiled(rows) && AllLinked(data, bytes, rows) && AllOwned(data, rows)
      ensures Valid()
    {
    }

    ghost predicate AllTiled(rs: seq<seq<Chunk>>)
      reads this`blocks, this`nextFree, blocks
    {
      |rs| == |blocks| == |nextFree| && forall i :: 0 <= i < |blocks| ==> Tiled(l, blocks[i][..], nextFree[i], rs[i])
    }

    ghost predicate AllLinked(data: map<nat, Option<Loc>>, bytes: map<nat, nat>, rs: seq<seq<Chunk>>) {
      forall i :: 0 <= i < |rs| ==> LinkedRow(l, data, bytes, i, rs[i], 0)
    }

    /** The rows with the k-th record of row i dead. */
    ghost function Freed(was: seq<seq<Chunk>>, i: nat, k: nat): seq<seq<Chunk>>
      requires i < |was| && k < |was[i]| && was[i][k].Ok(l)
    {
      was[i := was[i][k := Dead(l, was[i][k])]]
    }

    lemma FreedIs(was: seq<seq<Chunk>>, i: nat, k: nat)
      requires i < |was| && k < |was[i]| && was[i][k].Ok(l)
      ensures Freed(was, i, k) == was[i := was[i][k := Dead(l, was[i][k])]]
    {
    }

    method Clear(b: nat, off: nat, n: nat, ghost was: seq<seq<Chunk>>, ghost k: nat)
      requires Shape() && AllTiled(was)
      requires b < |was| && b < |blocks| && k < |was[b]| && was[b][k].Ok(l) && n == was[b][k].nbytes
      requires off == Off(l, was[b], k) && off + |was[b][k].cells| <= l.block
      modifies blocks[b]
      ensures AllTiled(Freed(was, b, k))
    {
      ghost var mem := blocks[b][..];
      hide Flat, Off, Layout.Size, Tiled;
      blocks[b][off + l.offset] := Count(n);
      blocks[b][off] := Back(None);
      assert blocks[b][..] == mem[off + l.offset := Count(n)][off := Back(None)];
      DeadTiled(l, mem, nextFree[b], was[b], k, blocks[b][..]);
      forall j | 0 <= j < |blocks| && j != b
        ensures Tiled(l, blocks[j][..], nextFree[j], was[j])
      {
        assert blocks[j] != blocks[b];
      }
    }

    lemma FreedLinks(data0: map<nat, Option<Loc>>, data': map<nat, Option<Loc>>, was: seq<seq<Chunk>>, i: nat,
                     k: nat, s: nat)
      requires RowsOk(l, was) && Apart(was) && i < |was| && k < |was[i]| && was[i][k].owner == Some(s)
      requires was[i][k].Ok(l)
      requires AllLinked(data0, bytes, was) && data' == data0[s := None]
      ensures AllLinked(data', bytes, Freed(was, i, k))
    {
      var d := Dead(l, was[i][k]);
      var rows' := Freed(was, i, k);
      forall j | 0 <= j < |rows'|
        ensures LinkedRow(l, data', bytes, j, rows'[j], 0)
      {
        forall m | 0 <= m < |rows'[j]|
          ensures LinkedAt(l, data', bytes, j, rows'[j], m)
        {
          assert LinkedAt(l, data0, bytes, j, was[j], m);
          if j == i { OffReplace(l, was[i], k, d, m); }
        }
      }
    }

    lemma FreedOwners(was: seq<seq<Chunk>>, i: nat, k: nat, s: nat, data0: map<nat, Option<Loc>>)
      requires i < |was| && k < |was[i]| && was[i][k].owner == Some(s) && was[i][k].Ok(l)
      requires AllOwned(data0, was)
      ensures AllOwned(data0[s := None], Freed(was, i, k))
    {
      var rows' := Freed(was, i, k);
      forall t | t in data0 && data0[t].Some? && t != s
        ensures HasOwner(rows', t)
      {
        var j, m :| 0 <= j < |was| && 0 <= m < |was[j]| && was[j][m].owner == Some(t);
        assert rows'[j][m].owner == Some(t);
      }
    }

    lemma FreeReady(i: nat, k: nat, s: nat)
      requires Valid() && i < |rows| && k < |rows[i]| && rows[i][k].owner == Some(s)
      ensures s in data && data[s] == Some(Loc(i, Off(l, rows[i], k) + l.offset)) && s in bytes
      ensures bytes[s] == rows[i][k].nbytes
      ensures i < |blocks| && blocks[i].Length == l.block && Off(l, rows[i], k) + |rows[i][k].cells| <= l.block
      ensures rows[i][k].Ok(l) && 0 < l.offset < |rows[i][k].cells|
    {
      assert LinkedAt(l, data, bytes, i, rows[i], k);
      assert rows[i][k] in rows[i];
      FlatPart(l, rows[i], k);
      assert |blocks[i][..][l.start..nextFree[i]]| == nextFree[i] - l.start;
    }

    /** A new block at the end of the list. */
    method AddBlock()
      requires Valid()
      modifies this`blocks, this`nextFree, this`rows
      ensures Valid() && rows == Begin(old(rows)) && nextFree == old(nextFree) + [l.start]
      ensures blocks != [] && fresh(blocks[|blocks| - 1]) && blocks == old(blocks) + [blocks[|blocks| - 1]]
    {
      hide Layout.Size, LinkedRow;
      var b := new Cell[l.block](_ => Byte(0));
      assert forall i :: 0 <= i < |blocks| ==> blocks[i] != b;
      assert b[..][l.start..l.start] == Flat([]);
      assert LinkedRow(l, data, bytes, |rows|, [], 0) by { NoLinks(|rows|); }
      ghost var was: seq<seq<Chunk>> := rows;
      blocks := blocks + [b];
      nextFree := nextFree + [l.start];
      rows := Begin(rows);
      forall s | s in data && data[s].Some?
        ensures HasOwner(rows, s)
      {
        var i, k :| 0 <= i < |was| && 0 <= k < |was[i]| && was[i][k].owner == Some(s);
        assert rows[i][k].owner == Some(s);
      }
    }

    lemma NoLinks(i: nat)
      ensures LinkedRow(l, data, bytes, i, [], 0)
    {
    }

    /** Gives a string a record for n bytes at the end of the current block, or in a new one. */
    method AllocateData(s: nat, n: nat, clear: bool) returns (ghost c: Chunk)
      requires Valid() && n <= l.large && (s !in data || data[s].None?)
      modifies this, blocks
      ensures Valid() && data.Keys == old(data).Keys + {s} && data[s].Some?
      ensures forall t :: t in old(data) && t != s ==> data[t] == old(data)[t]
      ensures bytes == old(bytes)[s := n]
      ensures c.Ok(l) && c.owner == Some(s) && c.nbytes == n && Text(l, c)[n] == Byte(0)
      ensures clear ==> forall q :: 0 <= q < n ==> Text(l, c)[q] == Byte(0)
      ensures rows == if old(rows) == [] then Grow(Begin(old(rows)), c) else PackNext(l, old(rows), c)
    {
      hide *;
      SizeReady(n);
      var needed := l.Size(n);
      ghost var was := rows;
      LastEnd();
      if |blocks| == 0 || l.block < nextFree[|blocks| - 1] + needed {
        AddBlock();
        LastEnd();
      }
      c := Append(s, n, needed, clear);
      if was != [] { PackNextIs(was, c); }
    }

    lemma SizeReady(n: nat)
      requires Valid() && n <= l.large
      ensures l.Ok() && l.start + l.Size(n) <= l.block
    {
      SizeBounds(l, n);
      SizeGrows(l, n, l.large);
    }

    lemma LastEnd()
      requires Valid()
      ensures |blocks| == |rows| == |nextFree|
      ensures blocks != [] ==> nextFree[|blocks| - 1] == l.start + |Flat(rows[|rows| - 1])|
    {
      if blocks != [] {
        var i := |blocks| - 1;
        assert |blocks[i][..][l.start..nextFree[i]]| == nextFree[i] - l.start;
      }
    }

    /** Writes a record at the end of the current block. */
    method WriteRecord(b: nat, off: nat, s: nat, n: nat, needed: nat, clear: bool) returns (ghost c: Chunk)
      requires Shape() && AllTiled(rows)
      requires b + 1 == |blocks| == |nextFree| == |rows| && off == nextFree[b] && off + needed <= l.block
      requires n <= l.large && needed == l.Size(n)
      modifies blocks[b]
      ensures c.Ok(l) && c.owner == Some(s) && c.nbytes == n && |c.cells| == needed
      ensures Text(l, c)[n] == Byte(0) && (clear ==> forall q :: 0 <= q < n ==> Text(l, c)[q] == Byte(0))
      ensures forall j :: 0 <= j < b ==> Tiled(l, blocks[j][..], nextFree[j], rows[j])
      ensures Tiled(l, blocks[b][..], off + needed, rows[b] + [c])
    {
      SizeBounds(l, n);
      ghost var mem := blocks[b][..];
      NextIn(l, mem, off, rows[b]);
      hide Flat, Tiled, Layout.Size;
      Fill(blocks[b], off, s, n, needed, clear);
      c := Chunk(Some(s), n, blocks[b][off..off + needed]);
      TextZero(c, blocks[b][..], off, n, clear);
      assert blocks[b][..][off..off + needed] == c.cells;
      Head(mem, blocks[b][..], l.start, off);
      AppendTiled(l, mem, off, rows[b], c, blocks[b][..]);
      forall j | 0 <= j < b
        ensures Tiled(l, blocks[j][..], nextFree[j], rows[j])
      {
        assert old(Tiled(l, blocks[j][..], nextFree[j], rows[j]));
        assert blocks[j] != blocks[b] && blocks[j][..] == old(blocks[j][..]);
      }
    }

    method Fill(a: array<Cell>, off: nat, s: nat, n: nat, size: nat, clear: bool)
      requires 0 < l.offset && l.offset + n < size && off + size <= a.Length
      modifies a
      ensures a[..off] == old(a[..off]) && a[off] == Back(Some(s)) && a[off + l.offset + n] == Byte(0)
      ensures clear ==> forall q :: off + l.offset <= q < off + l.offset + n ==> a[q] == Byte(0)
    {
      if clear {
        forall q | 0 <= q < n {
          a[off + l.offset + q] := Byte(0);
        }
      }
      a[off] := Back(Some(s));
      a[off + l.offset + n] := Byte(0);
    }

    lemma TextZero(c: Chunk, mem: seq<Cell>, off: nat, n: nat, clear: bool)
      requires c.Ok(l) && n == c.nbytes && off + |c.cells| <= |mem| && c.cells == mem[off..off + |c.cells|]
      requires l.offset + n < |c.cells| && mem[off + l.offset + n] == Byte(0)
      requires clear ==> forall q :: off + l.offset <= q < off + l.offset + n ==> mem[q] == Byte(0)
      ensures Text(l, c)[n] == Byte(0) && (clear ==> forall q :: 0 <= q < n ==> Text(l, c)[q] == Byte(0))
    {
      hide Chunk.Ok;
      forall q | 0 <= q <= n
        ensures Text(l, c)[q] == mem[off + l.offset + q]
      {
        assert c.cells[l.offset + q] == mem[off..off + |c.cells|][l.offset + q];
      }
    }

    lemma Head(m: seq<Cell>, m': seq<Cell>, from: nat, to: nat)
      requires |m'| == |m| && from <= to <= |m| && m'[..to] == m[..to]
      ensures m'[from..to] == m[from..to]
    {
      assert m'[from..to] == m'[..to][from..] && m[from..to] == m[..to][from..];
    }

    lemma NextIn(l: Layout, mem: seq<Cell>, next: nat, cs: seq<Chunk>)
      requires Tiled(l, mem, next, cs)
      ensures l.start <= next <= l.block == |mem|
    {
    }

    /** The links of the rows with the new record. */
    lemma NewLinks(was: seq<seq<Chunk>>, data0: map<nat, Option<Loc>>, bytes0: map<nat, nat>, c: Chunk, s: nat)
      requires was != [] && c.owner == Some(s) && (s !in data0 || data0[s].None?)
      requires AllLinked(data0, bytes0, was) && AllOwned(data0, was)
      requires data == data0[s := Some(Loc(|was| - 1, l.start + |Flat(was[|was| - 1])| + l.offset))]
      requires bytes == bytes0[s := c.nbytes]
      ensures AllLinked(data, bytes, Grow(was, c)) && AllOwned(data, Grow(was, c))
    {
      var b, rows' := |was| - 1, Grow(was, c);
      hide Flat, Off;
      forall i | 0 <= i < |was|
        ensures LinkedRow(l, data, bytes, i, rows'[i], 0)
      {
        forall k | 0 <= k < |was[i]|
          ensures LinkedAt(l, data, bytes, i, was[i], k)
        {
          assert LinkedAt(l, data0, bytes0, i, was[i], k);
        }
        if i == b { AppendLinked(l, data, bytes, b, was[b], c); }
      }
      forall t | t in data && data[t].Some?
        ensures HasOwner(rows', t)
      {
        if t == s {
          assert rows'[b][|was[b]|].owner == Some(s);
        } else {
          var i, k :| 0 <= i < |was| && 0 <= k < |was[i]| && was[i][k].owner == Some(t);
          assert rows'[i][k].owner == Some(t);
        }
      }
    }

    method Append(s: nat, n: nat, needed: nat, clear: bool) returns (ghost c: Chunk)
      requires Valid() && n <= l.large && (s !in data || data[s].None?) && needed == l.Size(n)
      requires rows != [] && blocks != [] && |nextFree| == |blocks| && nextFree[|blocks| - 1] + needed <= l.block
      modifies this`nextFree, this`data, this`bytes, this`rows, blocks
      ensures Valid() && rows == Grow(old(rows), c) && |c.cells| == needed
      ensures c.Ok(l) && c.owner == Some(s) && c.nbytes == n && Text(l, c)[n] == Byte(0)
      ensures clear ==> forall q :: 0 <= q < n ==> Text(l, c)[q] == Byte(0)
      ensures bytes == old(bytes)[s := n] && data.Keys == old(data).Keys + {s} && data[s].Some?
      ensures forall t :: t in old(data) && t != s ==> data[t] == old(data)[t]
    {
      hide *;
      Parts();
      LastEnd();
      var b := |blocks| - 1;
      var off := nextFree[b];
      c := WriteRecord(b, off, s, n, needed, clear);
      ghost var data0, bytes0, was := data, bytes, rows;
      nextFree := nextFree[b := off + needed];
      GrownTiled(was, c);
      data := data[s := Some(Loc(b, off + l.offset))];
      bytes := bytes[s := n];
      rows := Grow(rows, c);
      NewLinks(was, data0, bytes0, c, s);
      Whole();
    }

    lemma GrownTiled(was: seq<seq<Chunk>>, c: Chunk)
      requires |was| == |blocks| == |nextFree| > 0 && l.Ok()
      requires forall j :: 0 <= j < |was| - 1 ==> Tiled(l, blocks[j][..], nextFree[j], was[j])
      requires Tiled(l, blocks[|was| - 1][..], nextFree[|was| - 1], was[|was| - 1] + [c])
      ensures AllTiled(Grow(was, c))
    {
      hide Tiled;
    }
  }
}
