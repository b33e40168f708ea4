/** The list of live buffers by name, and names that are not in use. */
module BufferNames {
  import opened Lists

  datatype Entry = Entry(name: string, buffer: nat)

  /** The first entry of a name; -1 if there is none. */
  function Find(alist: seq<Entry>, name: string): (i: int)
    ensures -1 <= i < |alist|
    ensures i >= 0 ==> alist[i].name == name
    ensures i == -1 ==> forall k :: 0 <= k < |alist| ==> alist[k].name != name
  {
    if alist == [] then -1
    else if alist[0].name == name then 0
    else var i := Find(alist[1..], name); if i < 0 then -1 else i + 1
  }

  predicate Used(alist: seq<Entry>, name: string) { Find(alist, name) >= 0 }

  ghost function Names(alist: seq<Entry>): set<string> { set e | e in alist :: e.name }

  lemma UsedIs(alist: seq<Entry>, name: string)
    ensures Used(alist, name) <==> name in Names(alist)
  {
    if Used(alist, name) { assert alist[Find(alist, name)] in alist; }
  }

  lemma {:induction false} FewNames(alist: seq<Entry>)
    ensures |Names(alist)| <= |alist|
  {
    if alist != [] {
      FewNames(alist[1..]);
      assert Names(alist) == Names(alist[1..]) + {alist[0].name};
    }
  }

  // ---------- Numbered names ----------

  function Digit(d: nat): char
    requires d < 10
  {
    '0' + d as char
  }

  function Decimal(n: nat): (s: string)
    ensures s != []
  {
    if n < 10 then [Digit(n)] else Decimal(n / 10) + [Digit(n % 10)]
  }

  /** The number that a numeral stands for. */
  function Reads(s: string): int {
    if s == [] then 0 else 10 * Reads(s[..|s| - 1]) + (s[|s| - 1] as int - '0' as int)
  }

  /** A numeral is of digits, without a needless zero in front, and stands for its number. */
  lemma {:induction false} DecimalReads(n: nat)
    ensures Reads(Decimal(n)) == n
    ensures forall c :: c in Decimal(n) ==> '0' <= c <= '9'
    ensures n > 0 ==> Decimal(n)[0] != '0'
  {
    if n < 10 {
      assert Decimal(n)[..0] == [];
    } else {
      DecimalReads(n / 10);
      assert Decimal(n)[..|Decimal(n)| - 1] == Decimal(n / 10);
    }
  }

  lemma {:induction false} DecimalOnce(m: nat, n: nat)
    requires Decimal(m) == Decimal(n)
    ensures m == n
  {
    DecimalReads(m);
    DecimalReads(n);
  }

  function Numbered(base: string, k: nat): string { base + "<" + Decimal(k) + ">" }

  /** The number stands in angle brackets after the name. */
  lemma NumberedIs(base: string, k: nat)
    ensures var s := Numbered(base, k);
      && |base| + 2 < |s| && s[..|base|] == base && s[|base|] == '<' && s[|s| - 1] == '>'
      && Reads(s[|base| + 1..|s| - 1]) == k
  {
    DecimalReads(k);
    var s := Numbered(base, k);
    assert s[|base| + 1..|s| - 1] == Decimal(k);
  }

  lemma NumberedOnce(base: string, j: nat, k: nat)
    requires Numbered(base, j) == Numbered(base, k)
    ensures j == k
  {
    var s, n := Numbered(base, j), |base| + 1;
    assert s[n..|s| - 1] == Decimal(j) && s[n..|s| - 1] == Decimal(k);
    DecimalOnce(j, k);
  }

  /** The numbered names from 2 on, up to n. */
  ghost function Series(base: string, n: nat): set<string> {
    if n <= 2 then {} else Series(base, n - 1) + {Numbered(base, n - 1)}
  }

  lemma {:induction false} SeriesSize(base: string, n: nat)
    requires 2 <= n
    ensures |Series(base, n)| == n - 2
    ensures forall s :: s in Series(base, n) ==> exists k: nat :: 2 <= k < n && s == Numbered(base, k)
  {
    if n > 2 {
      SeriesSize(base, n - 1);
      if Numbered(base, n - 1) in Series(base, n - 1) {
        var k: nat :| 2 <= k < n - 1 && Numbered(base, n - 1) == Numbered(base, k);
        NumberedOnce(base, n - 1, k);
      }
    }
  }

  /** Pigeonhole: the numbered names in use are not more than there are buffers. */
  lemma NotAllUsed(alist: seq<Entry>, base: string, n: nat)
    requires 2 <= n && forall k: nat :: 2 <= k < n ==> Used(alist, Numbered(base, k))
    ensures n - 2 <= |alist|
  {
    SeriesSize(base, n);
    FewNames(alist);
    forall s | s in Series(base, n)
      ensures s in Names(alist)
    {
      var k: nat :| 2 <= k < n && s == Numbered(base, k);
      UsedIs(alist, s);
    }
    SubsetSize(Series(base, n), Names(alist));
  }

  /** The name may be given: it is the one to be ignored, or not in use. */
  predicate Free(alist: seq<Entry>, ignore: Option<string>, name: string) {
    ignore == Some(name) || !Used(alist, name)
  }

  /** The first numbered name that may be given. */
  ghost predicate FirstFree(alist: seq<Entry>, ignore: Option<string>, base: string, name: string) {
    exists k: nat :: 2 <= k && name == Numbered(base, k) && Free(alist, ignore, name)
      && forall j: nat :: 2 <= j < k ==> !Free(alist, ignore, Numbered(base, j))
  }

  /** The name itself if it may be given, and otherwise a numbered one.  Names with a leading
      space get a random number first. */
  ghost predicate Generated(alist: seq<Entry>, ignore: Option<string>, name: string, random: nat, r: string) {
    if Free(alist, ignore, name) then r == name
    else
      var hidden := name != [] && name[0] == ' ';
      var base := if hidden then name + "-" + Decimal(random % 1000000) else name;
      if hidden && !Used(alist, base) then r == base else FirstFree(alist, ignore, base, r)
  }

  method Generate(alist: seq<Entry>, name: string, ignore: Option<string>, random: nat) returns (r: string)
    ensures Free(alist, ignore, r) && name <= r && Generated(alist, ignore, name, random, r)
  {
    if ignore == Some(name) || !Used(alist, name) {
      return name;
    }
    var base := name;
    if name != [] && name[0] == ' ' {
      base := name + "-" + Decimal(random % 1000000);
      if !Used(alist, base) {
        return base;
      }
    }
    r := FirstNumbered(alist, ignore, base);
    assert name <= base <= r;
  }

  method FirstNumbered(alist: seq<Entry>, ignore: Option<string>, base: string) returns (r: string)
    ensures FirstFree(alist, ignore, base, r) && base <= r && Free(alist, ignore, r)
  {
    var count: nat := 2;
    r := Numbered(base, count);
    while !Free(alist, ignore, r)
      invariant 2 <= count && r == Numbered(base, count)
      invariant forall j: nat :: 2 <= j < count ==> !Free(alist, ignore, Numbered(base, j))
      decreases |alist| + 2 - count
    {
      NotAllUsed(alist, base, count + 1);
      count := count + 1;
      r := Numbered(base, count);
    }
  }
}
