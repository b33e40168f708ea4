/** The bytes of small strings: blocks of memory tiled by records, the allocation of a record,
    and the compaction that slides the live records together. */
module StringData {
  import opened Lists

  /** What the compiler and the allocator fix: where the records of a block start, where the bytes
      of a record start, the least size of a record, the alignment, the size of a block, and the
      longest small string. */
  datatype Layout = Layout(start: nat, offset: nat, least: nat, align: nat, block: nat, large: nat)
  {
    ghost predicate Ok() {
      0 < offset < least && 0 < align && start + Size(large) <= block
    }

    /** The size of a record for n bytes, with the terminating null. */
    function Size(n: nat): nat
      requires 0 < align
    {
      var unaligned := if offset + n + 1 > least then offset + n + 1 else least;
      (unaligned + align - 1) / align * align
    }
  }

  /** One byte, or the pointer or the number that starts there. */
  datatype Cell = Byte(b: int) | Back(s: Option<nat>) | Count(n: nat)

  /** A record: a live one points back to its string, a dead one holds its number of bytes. */
  datatype Chunk = Chunk(owner: Option<nat>, nbytes: nat, cells: seq<Cell>)
  {
    ghost predicate Ok(l: Layout) {
      && l.Ok() && nbytes <= l.large && |cells| == l.Size(nbytes) && l.offset + nbytes < |cells| && l.least <= |cells|
      && cells[0] == Back(owner)
      && (owner.None? ==> cells[l.offset] == Count(nbytes))
    }
  }

  /** The bytes of a live record's string, and its null. */
  ghost function Text(l: Layout, c: Chunk): seq<Cell>
    requires c.Ok(l)
  {
    c.cells[l.offset..l.offset + c.nbytes + 1]
  }

  /** Where the bytes of a string are. */
  datatype Loc = Loc(block: nat, at: nat)

  /** The size of a record is the least multiple of the alignment that has room for the bytes and
      their null, and for a record at all. */
  lemma SizeBounds(l: Layout, n: nat)
    requires 0 < l.align
    ensures l.offset + n < l.Size(n) && l.least <= l.Size(n) && l.Size(n) % l.align == 0
    ensures l.Size(n) < l.align + l.least || l.Size(n) < l.align + l.offset + n + 1
  {
    var u := if l.offset + n + 1 > l.least then l.offset + n + 1 else l.least;
    var q, r := (u + l.align - 1) / l.align, (u + l.align - 1) % l.align;
    assert q * l.align + r == u + l.align - 1;
    Multiple(q, l.align);
  }

  lemma Between(d: int, a: nat)
    requires 0 <= d * a < a
    ensures d * a == 0
  {
    if d != 0 {
      assert d <= -1 || d >= 1;
      if d >= 1 { Larger(d, a); } else { Larger(-d, a); }
    }
  }

  lemma Larger(d: int, a: nat)
    requires d >= 1
    ensures d * a >= a
  {
  }

  lemma Multiple(q: nat, a: nat)
    requires 0 < a
    ensures q * a % a == 0
  {
    var k, r := q * a / a, q * a % a;
    assert k * a + r == q * a;
    assert (q - k) * a == r;
    Between(q - k, a);
  }

  // ---------- Records in a row ----------

  ghost function Flat(cs: seq<Chunk>): seq<Cell> {
    if cs == [] then [] else Flat(cs[..|cs| - 1]) + cs[|cs| - 1].cells
  }

  lemma FlatLast(cs: seq<Chunk>, c: Chunk)
    ensures Flat(cs + [c]) == Flat(cs) + c.cells
  {
    assert (cs + [c])[..|cs|] == cs;
  }

  lemma {:induction false} FlatJoin(a: seq<Chunk>, b: seq<Chunk>)
    ensures Flat(a + b) == Flat(a) + Flat(b)
  {
    if b == [] {
      assert a + b == a;
    } else {
      var n := |b| - 1;
      assert (a + b)[..|a + b| - 1] == a + b[..n];
      FlatJoin(a, b[..n]);
    }
  }

  lemma FlatFirst(c: Chunk, cs: seq<Chunk>)
    ensures Flat([c] + cs) == c.cells + Flat(cs)
  {
    FlatJoin([c], cs);
    assert Flat([c]) == c.cells by { FlatLast([], c); assert [] + [c] == [c]; }
  }

  /** Where the k-th record starts. */
  ghost function Off(l: Layout, cs: seq<Chunk>, k: nat): nat
    requires k <= |cs|
  {
    l.start + |Flat(cs[..k])|
  }

  lemma OffNext(l: Layout, cs: seq<Chunk>, k: nat)
    requires k < |cs|
    ensures Off(l, cs, k + 1) == Off(l, cs, k) + |cs[k].cells|
  {
    assert cs[..k + 1] == cs[..k] + [cs[k]];
    FlatLast(cs[..k], cs[k]);
  }

  /** The k-th record's part of a row. */
  lemma {:induction false} FlatPart(l: Layout, cs: seq<Chunk>, k: nat)
    requires k < |cs|
    ensures Off(l, cs, k) - l.start + |cs[k].cells| <= |Flat(cs)|
    ensures Flat(cs)[Off(l, cs, k) - l.start..][..|cs[k].cells|] == cs[k].cells
  {
    var a, c, b := cs[..k], cs[k], cs[k + 1..];
    assert cs == a + ([c] + b);
    FlatJoin(a, [c] + b);
    FlatFirst(c, b);
  }

  lemma OffAppend(l: Layout, cs: seq<Chunk>, c: Chunk, k: nat)
    requires k <= |cs|
    ensures Off(l, cs + [c], k) == Off(l, cs, k)
  {
    assert (cs + [c])[..k] == cs[..k];
  }

  /** The block's memory up to `next` is a row of records. */
  ghost predicate Tiled(l: Layout, mem: seq<Cell>, next: nat, cs: seq<Chunk>) {
    && |mem| == l.block && l.start <= next <= l.block && mem[l.start..next] == Flat(cs)
    && forall c :: c in cs ==> c.Ok(l)
  }

  // ---------- Live records ----------

  ghost function Live(cs: seq<Chunk>): seq<Chunk> {
    if cs == [] then []
    else Live(cs[..|cs| - 1]) + if cs[|cs| - 1].owner.Some? then [cs[|cs| - 1]] else []
  }

  ghost function Concat(ss: seq<seq<Chunk>>): seq<Chunk> {
    if ss == [] then [] else Concat(ss[..|ss| - 1]) + ss[|ss| - 1]
  }

  lemma {:induction false} LiveIn(cs: seq<Chunk>, c: Chunk)
    ensures c in Live(cs) <==> c in cs && c.owner.Some?
  {
    if cs != [] {
      LiveIn(cs[..|cs| - 1], c);
      assert cs == cs[..|cs| - 1] + [cs[|cs| - 1]];
    }
  }

  lemma LiveLast(cs: seq<Chunk>, c: Chunk)
    ensures Live(cs + [c]) == Live(cs) + if c.owner.Some? then [c] else []
  {
    assert (cs + [c])[..|cs|] == cs;
  }

  lemma {:induction false} ConcatIn(ss: seq<seq<Chunk>>, c: Chunk)
    ensures c in Concat(ss) <==> exists i :: 0 <= i < |ss| && c in ss[i]
  {
    if ss != [] {
      var n := |ss| - 1;
      ConcatIn(ss[..n], c);
      if exists i :: 0 <= i < |ss| && c in ss[i] {
        var i :| 0 <= i < |ss| && c in ss[i];
        if i < n { assert c in ss[..n][i]; }
      }
      if c in Concat(ss[..n]) {
        var i :| 0 <= i < |ss[..n]| && c in ss[..n][i];
        assert c in ss[i];
      }
    }
  }

  lemma ConcatLast(ss: seq<seq<Chunk>>, cs: seq<Chunk>)
    ensures Concat(ss + [cs]) == Concat(ss) + cs
  {
    assert (ss + [cs])[..|ss|] == ss;
  }

  // ---------- What the compaction gives ----------

  /** The last row gets another record. */
  ghost function Grow(rows: seq<seq<Chunk>>, c: Chunk): seq<seq<Chunk>>
    requires rows != []
  {
    rows[|rows| - 1 := rows[|rows| - 1] + [c]]
  }

  /** A new row is begun. */
  ghost function Begin(rows: seq<seq<Chunk>>): (r: seq<seq<Chunk>>)
    ensures r != []
  {
    rows + [[]]
  }

  /** Appending to the last row. */
  lemma ConcatGrow(ss: seq<seq<Chunk>>, c: Chunk)
    requires ss != []
    ensures Concat(Grow(ss, c)) == Concat(ss) + [c]
  {
    var n := |ss| - 1;
    var t := Grow(ss, c);
    assert t[..n] == ss[..n];
    assert Concat(ss[..n]) + (ss[n] + [c]) == (Concat(ss[..n]) + ss[n]) + [c];
  }

  /** Puts a record at the end of the last row, or starts a row with it if it does not fit. */
  ghost function PackNext(l: Layout, rows: seq<seq<Chunk>>, c: Chunk): seq<seq<Chunk>>
    requires rows != []
  {
    if l.start + |Flat(rows[|rows| - 1])| + |c.cells| <= l.block then Grow(rows, c) else Grow(Begin(rows), c)
  }

  /** The records packed in order into as few rows as they fill one after the other. */
  ghost function Packed(l: Layout, cs: seq<Chunk>): (rows: seq<seq<Chunk>>)
    ensures rows != []
  {
    if cs == [] then [[]] else PackNext(l, Packed(l, cs[..|cs| - 1]), cs[|cs| - 1])
  }

  lemma PackedLast(l: Layout, cs: seq<Chunk>, c: Chunk)
    ensures Packed(l, cs + [c]) == PackNext(l, Packed(l, cs), c)
  {
    assert (cs + [c])[..|cs|] == cs;
  }

  ghost predicate Tight(l: Layout, rows: seq<seq<Chunk>>) {
    && (forall i :: 0 <= i < |rows| ==> rows[i] != [] && l.start + |Flat(rows[i])| <= l.block)
    && forall i :: 0 <= i < |rows| - 1 && rows[i + 1] != [] ==>
         l.start + |Flat(rows[i])| + |rows[i + 1][0].cells| > l.block
  }

  lemma {:induction false} TightNext(l: Layout, rows: seq<seq<Chunk>>, c: Chunk)
    requires rows != [] && l.start + |c.cells| <= l.block && (rows == [[]] || Tight(l, rows))
    ensures Tight(l, PackNext(l, rows, c))
  {
    var m := |rows| - 1;
    FlatLast(rows[m], c);
    FlatLast([], c);
    assert [] + [c] == [c] && Flat([]) == [];
    hide Flat;
    var rows' := PackNext(l, rows, c);
    assert forall i :: 0 <= i < m ==> rows'[i] == rows[i];
    if |rows'| == |rows| {
      assert rows'[m] == rows[m] + [c];
    } else {
      assert rows'[m] == rows[m] && rows'[m + 1] == [c];
    }
  }

  lemma {:induction false} PackedIsTight(l: Layout, cs: seq<Chunk>)
    requires cs != [] && forall c :: c in cs ==> l.start + |c.cells| <= l.block
    ensures Tight(l, Packed(l, cs))
  {
    hide Flat, Tight, PackNext;
    var n := |cs| - 1;
    assert cs[n] in cs && forall c :: c in cs[..n] ==> c in cs;
    if n > 0 { PackedIsTight(l, cs[..n]); }
    TightNext(l, Packed(l, cs[..n]), cs[n]);
  }

  /** A row is filled before the next is begun: every row fits in a block, and the first record of
      a row would not have fitted in the row before it. */
  lemma {:induction false} PackedTight(l: Layout, cs: seq<Chunk>)
    requires cs != [] && forall c :: c in cs ==> l.start + |c.cells| <= l.block
    ensures var rows := Packed(l, cs);
      && (forall i :: 0 <= i < |rows| ==> rows[i] != [] && l.start + |Flat(rows[i])| <= l.block)
      && forall i :: 0 <= i < |rows| - 1 && rows[i + 1] != [] ==>
        l.start + |Flat(rows[i])| + |rows[i + 1][0].cells| > l.block
  {
    PackedIsTight(l, cs);
    hide Flat, Packed;
  }

  /** Packing changes neither the records nor their order. */
  lemma {:induction false} PackedSame(l: Layout, cs: seq<Chunk>)
    ensures Concat(Packed(l, cs)) == cs
  {
    if cs == [] {
      var none: seq<seq<Chunk>> := [];
      ConcatLast(none, []);
      assert none + [[]] == [[]];
    } else {
      var n := |cs| - 1;
      PackedSame(l, cs[..n]);
      var rows := Packed(l, cs[..n]);
      ConcatGrow(rows, cs[n]);
      ConcatLast(rows, []);
      ConcatGrow(Begin(rows), cs[n]);
    }
  }

  // ---------- A record that dies ----------

  /** The size goes where the bytes were, and the pointer back is cleared. */
  ghost function Dead(l: Layout, c: Chunk): Chunk
    requires 0 < l.offset < |c.cells|
  {
    Chunk(None, c.nbytes, c.cells[l.offset := Count(c.nbytes)][0 := Back(None)])
  }

  /** A row in which a record is replaced by one of the same size. */
  lemma {:induction false} FlatReplace(cs: seq<Chunk>, k: nat, c: Chunk)
    requires k < |cs| && |c.cells| == |cs[k].cells|
    ensures |Flat(cs[..k])| + |c.cells| <= |Flat(cs)|
    ensures Flat(cs[k := c]) == Flat(cs)[..|Flat(cs[..k])|] + c.cells + Flat(cs)[|Flat(cs[..k])| + |c.cells|..]
  {
    var x, y := cs[..k], cs[k + 1..];
    assert cs == x + ([cs[k]] + y) && cs[k := c] == x + ([c] + y);
    FlatJoin(x, [cs[k]] + y);
    FlatJoin(x, [c] + y);
    FlatFirst(cs[k], y);
    FlatFirst(c, y);
  }

  lemma {:induction false} OffReplace(l: Layout, cs: seq<Chunk>, k: nat, c: Chunk, m: nat)
    requires k < |cs| && |c.cells| == |cs[k].cells| && m <= |cs|
    ensures Off(l, cs[k := c], m) == Off(l, cs, m)
  {
    if m <= k {
      assert cs[k := c][..m] == cs[..m];
    } else {
      assert cs[k := c][..m] == cs[..m][k := c];
      FlatReplace(cs[..m], k, c);
    }
  }

  lemma DeadTiled(l: Layout, mem: seq<Cell>, next: nat, cs: seq<Chunk>, k: nat, mem': seq<Cell>)
    requires Tiled(l, mem, next, cs) && k < |cs| && cs[k].Ok(l)
    requires Off(l, cs, k) + |cs[k].cells| <= |mem|
    requires mem' == mem[Off(l, cs, k) + l.offset := Count(cs[k].nbytes)][Off(l, cs, k) := Back(None)]
    ensures Tiled(l, mem', next, cs[k := Dead(l, cs[k])])
  {
    var c, off := cs[k], Off(l, cs, k);
    var d, a := Dead(l, c), off - l.start;
    FlatReplace(cs, k, d);
    FlatPart(l, cs, k);
    hide Flat, Layout.Size;
    DeadCells(mem, mem', l.start, next, a, c.cells, d.cells, l.offset, c.nbytes);
  }

  /** Two cells changed inside a stretch of memory. */
  lemma DeadCells(mem: seq<Cell>, mem': seq<Cell>, start: nat, next: nat, a: nat, cs: seq<Cell>, ds: seq<Cell>,
                  offset: nat, n: nat)
    requires start <= next <= |mem| && 0 < offset < |cs| && a + |cs| <= next - start
    requires mem[start..next][a..][..|cs|] == cs && ds == cs[offset := Count(n)][0 := Back(None)]
    requires mem' == mem[start + a + offset := Count(n)][start + a := Back(None)]
    ensures mem'[start..next] == mem[start..next][..a] + ds + mem[start..next][a + |cs|..]
  {
    var f, f' := mem[start..next], mem'[start..next];
    assert f' == f[a + offset := Count(n)][a := Back(None)];
    assert f == f[..a] + cs + f[a + |cs|..];
  }

  /** A record written where a row ends. */
  lemma AppendTiled(l: Layout, mem: seq<Cell>, next: nat, cs: seq<Chunk>, c: Chunk, mem': seq<Cell>)
    requires Tiled(l, mem, next, cs) && c.Ok(l) && next + |c.cells| <= l.block
    requires |mem'| == |mem| && mem'[l.start..next] == mem[l.start..next] && mem'[next..next + |c.cells|] == c.cells
    ensures Tiled(l, mem', next + |c.cells|, cs + [c])
  {
    FlatLast(cs, c);
    assert mem'[l.start..next + |c.cells|] == mem'[l.start..next] + mem'[next..next + |c.cells|];
  }
}
