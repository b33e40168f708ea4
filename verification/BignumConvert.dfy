/** Machine integers, limbs and Lisp integers: storing, reading back, and the
    choice between fixnum and bignum.  An Mpz is GMP's signed limb array; what
    GMP's own functions do is taken from GMP's documentation. */
module BignumConvert {
  import opened Powers
  import opened BignumLimbs

  /** Widths in bits, and whether the fast paths through `long` are compiled in. */
  datatype Machine = Machine(limbBits: nat, intmaxBits: nat, longBits: nat, fixnumBits: nat, faster: bool) {
    predicate Ok() {
      1 <= limbBits && 2 <= longBits <= intmaxBits && 2 <= fixnumBits < intmaxBits
    }

    function Base(): nat {
      Pow(2, limbBits)
    }

    predicate InIntmax(v: int) {
      1 <= intmaxBits && InSigned(v, intmaxBits)
    }

    predicate InUintmax(v: int) {
      0 <= v < Pow(2, intmaxBits)
    }

    predicate InFixnum(v: int) {
      1 <= fixnumBits && InSigned(v, fixnumBits)
    }

    predicate InLong(v: int) {
      1 <= longBits && InSigned(v, longBits)
    }

    predicate InUlong(v: int) {
      0 <= v < Pow(2, longBits)
    }
  }

  predicate InSigned(v: int, bits: nat)
    requires 1 <= bits
  {
    0 - Pow(2, bits - 1) <= v < Pow(2, bits - 1)
  }

  datatype LispInteger = Fixnum(value: int) | Bignum(number: int) | OverflowError

  function Signed(negative: bool, magnitude: nat): int {
    if negative then 0 - magnitude else magnitude
  }

  function Abs(v: int): nat {
    if v < 0 then -v else v
  }

  /** The limbs of a number: no limb too wide, no zero on top. */
  predicate Normal(limbs: seq<nat>, base: nat) {
    && Limbs(limbs, base)
    && (|limbs| > 0 ==> limbs[|limbs| - 1] > 0)
  }

  /** The number of limbs GMP has to provide for a machine integer. */
  function MaxLimbs(width: nat, limbBits: nat): nat
    requires 1 <= limbBits
  {
    (width + limbBits - 1) / limbBits
  }

  /** The first i limbs, read as zeros past the end. */
  function Low(limbs: seq<nat>, i: nat, base: nat): nat {
    Val(limbs[..if i < |limbs| then i else |limbs|], base)
  }

  // ---- One step of the storing loop ----

  /** Dividing by the limb base moves one limb out of u. */
  lemma StoreStep(s: seq<nat>, u: nat, base: nat)
    requires 1 < base
    ensures u % base < base
    ensures Val(s + [u % base], base) + Pow(base, |s| + 1) * (u / base) == Val(s, base) + Pow(base, |s|) * u
  {
    ValSnoc(s, u % base, base);
    assert Pow(base, |s| + 1) == base * Pow(base, |s|);
    Split(Pow(base, |s|), base, u);
  }

  lemma Split(p: nat, base: nat, u: nat)
    requires 0 < base
    ensures p * (u % base) + base * p * (u / base) == p * u
  {
    assert u == u % base + base * (u / base);
    assert p * u == p * (u % base) + p * (base * (u / base));
    assert p * (base * (u / base)) == base * p * (u / base);
  }

  /** What is left of a value of `width` bits after n limbs has width - n * B bits. */
  lemma Remains(u: nat, base: nat, limbBits: nat, width: nat)
    requires base == Pow(2, limbBits) && 0 < base
    requires u < Pow(2, width)
    ensures limbBits <= width ==> u / base < Pow(2, width - limbBits)
    ensures width <= limbBits ==> u < base
  {
    if limbBits <= width {
      PowSum(2, limbBits, width - limbBits);
      DivBound(u, base, Pow(2, width - limbBits));
    }
    if width <= limbBits {
      PowMonotone(2, width, limbBits);
    }
  }

  lemma DivBound(u: nat, base: nat, q: nat)
    requires 0 < base && u < base * q
    ensures u / base < q
  {
    if q <= u / base {
      Times(base, q, u / base);
    }
  }

  /** What the storing loop keeps: nothing is left, or what is left fits into
      the bits that n limbs do not cover. */
  predicate Fits(rest: nat, n: nat, limbBits: nat, width: nat) {
    rest == 0 || (limbBits * n <= width && rest < Pow(2, width - limbBits * n))
  }

  lemma FitsNext(rest: nat, n: nat, base: nat, limbBits: nat, width: nat, next: nat)
    requires base == Pow(2, limbBits) && 1 < base && Fits(rest, n, limbBits, width)
    requires next == if limbBits < width then rest / base else 0
    ensures Fits(next, n + 1, limbBits, width)
    ensures next == rest / base
    ensures rest > 0 ==> next < rest
  {
    if rest > 0 {
      var covered := limbBits * n;
      assert limbBits * (n + 1) == covered + limbBits;
      NextLeft(rest, base, limbBits, width - covered, next);
      LimbsSoFar(limbBits, n);
      if width <= limbBits {
        PowMonotone(2, width - covered, limbBits);
        SmallQuotient(rest, base);
      }
      Shrinks(rest, base);
    }
  }

  lemma LimbsSoFar(limbBits: nat, n: nat)
    ensures 0 <= limbBits * n
  {
  }

  lemma NextLeft(rest: nat, base: nat, limbBits: nat, left: nat, next: nat)
    requires base == Pow(2, limbBits) && 1 < base && rest < Pow(2, left)
    requires next == rest / base || next == 0
    ensures next == 0 || (limbBits <= left && next < Pow(2, left - limbBits))
  {
    hide *;
    Remains(rest, base, limbBits, left);
    if left <= limbBits {
      SmallQuotient(rest, base);
    }
  }

  lemma SmallQuotient(u: nat, base: nat)
    requires u < base
    ensures u / base == 0
  {
  }

  lemma Shrinks(u: nat, base: nat)
    requires 0 < u && 1 < base
    ensures u / base < u
  {
    Times(u, 2, base);
    DivBound(u, base, u);
  }

  /** While something is left there is room for its limb. */
  lemma FitsRoom(rest: nat, n: nat, limbBits: nat, width: nat)
    requires 1 <= limbBits && Fits(rest, n, limbBits, width) && rest > 0
    ensures n < MaxLimbs(width, limbBits)
  {
    assert Pow(2, 0) == 1;
    assert limbBits * n + 1 <= width;
    DivAbove(width + limbBits - 1, limbBits, n);
  }

  lemma DivAbove(x: nat, d: nat, n: nat)
    requires 1 <= d && d * n + d <= x
    ensures n < x / d
  {
    assert x < d * (x / d) + d;
    if x / d <= n {
      Times(d, x / d, n);
    }
  }

  // ---- One step of the reading loop ----

  lemma LowStep(limbs: seq<nat>, i: nat, base: nat)
    ensures Low(limbs, i + 1, base) == Low(limbs, i, base) + (if i < |limbs| then limbs[i] else 0) * Pow(base, i)
  {
    if i < |limbs| {
      assert limbs[..i + 1] == limbs[..i] + [limbs[i]];
      ValSnoc(limbs[..i], limbs[i], base);
    }
  }

  lemma LowAtMost(limbs: seq<nat>, i: nat, base: nat)
    ensures Low(limbs, i, base) <= Val(limbs, base)
  {
    ValPrefix(limbs, if i < |limbs| then i else |limbs|, base);
  }

  /** Once the shift covers every bit, the limbs read make up the whole number. */
  lemma LowWhole(limbs: seq<nat>, i: nat, base: nat, limbBits: nat, bits: nat)
    requires base == Pow(2, limbBits) && 1 < base && Normal(limbs, base)
    requires Val(limbs, base) < Pow(2, bits) && bits <= limbBits * i
    ensures Low(limbs, i, base) == Val(limbs, base)
  {
    assert limbs[..|limbs|] == limbs;
    if i < |limbs| {
      TopNonzero(limbs, base);
      PowMonotone(base, i, |limbs| - 1);
      ShiftIsPow(limbBits, i);
      PowMonotone(2, bits, limbBits * i);
    }
  }

  lemma BaseFacts(limbBits: nat)
    requires 1 <= limbBits
    ensures 2 <= Pow(2, limbBits)
  {
    PowMonotone(2, 1, limbBits);
    assert Pow(2, 1) == 2 * Pow(2, 0);
  }

  // ---- The signed limb array ----

  class Mpz {
    const machine: Machine
    var limb: array<nat>
    /** Limbs in use, negative for a negative number. */
    var size: int

    ghost predicate Valid()
      reads this, limb
    {
      machine.Ok() && Abs(size) <= limb.Length && Normal(limb[..Abs(size)], machine.Base())
    }

    function Used(): (limbs: seq<nat>)
      requires Abs(size) <= limb.Length
      reads this, limb
    {
      limb[..Abs(size)]
    }

    function Magnitude(): nat
      requires Abs(size) <= limb.Length
      reads this, limb
    {
      Val(Used(), machine.Base())
    }

    function Value(): int
      requires Abs(size) <= limb.Length
      reads this, limb
    {
      Signed(size < 0, Magnitude())
    }

    constructor (machine: Machine)
      requires machine.Ok()
      ensures Valid() && Value() == 0 && this.machine == machine && fresh(limb)
    {
      this.machine := machine;
      limb := new nat[0];
      size := 0;
    }

    /** GMP's limb i, zero past the end. */
    function GetLimb(i: nat): nat
      requires Abs(size) <= limb.Length
      reads this, limb
    {
      if i < Abs(size) then limb[i] else 0
    }

    /** GMP sets the size after limbs were written, dropping zeros on top. */
    method LimbsFinish(n: int)
      requires machine.Ok() && Abs(n) <= limb.Length && Limbs(limb[..Abs(n)], machine.Base())
      modifies this`size
      ensures Valid()
      ensures Value() == Signed(n < 0, Val(limb[..Abs(n)], machine.Base()))
    {
      var used: nat := Abs(n);
      while 0 < used && limb[used - 1] == 0
        invariant used <= Abs(n)
        invariant Val(limb[..used], machine.Base()) == Val(limb[..Abs(n)], machine.Base())
      {
        DropZero(limb[..used], machine.Base());
        assert limb[..used][..used - 1] == limb[..used - 1];
        used := used - 1;
      }
      size := Signed(n < 0, used);
      Finished(n, used);
    }

    /** The number with the n limbs written, without the zeros on top. */
    lemma Finished(n: int, used: nat)
      requires machine.Ok() && Abs(n) <= limb.Length && Limbs(limb[..Abs(n)], machine.Base())
      requires used <= Abs(n) && (used > 0 ==> limb[used - 1] != 0)
      requires Val(limb[..used], machine.Base()) == Val(limb[..Abs(n)], machine.Base())
      requires size == Signed(n < 0, used)
      ensures Valid()
      ensures Value() == Signed(n < 0, Val(limb[..Abs(n)], machine.Base()))
    {
      assert Abs(size) == used;
      assert forall i :: 0 <= i < used ==> limb[..used][i] == limb[..Abs(n)][i];
    }

    /** The storing loop: one limb of u at a time, at least one. */
    method WriteLimbs(u: nat, width: nat) returns (n: nat)
      requires machine.Ok() && u < Pow(2, width) && 1 <= width
      modifies this`limb
      ensures fresh(limb) && 1 <= n <= limb.Length
      ensures Limbs(limb[..n], machine.Base()) && Val(limb[..n], machine.Base()) == u
    {
      hide *;
      BaseOk(machine);
      var base := machine.Base();
      limb := new nat[MaxLimbs(width, machine.limbBits)];
      WriteStart(u, machine.limbBits, width, base);
      assert limb[..0] == [];
      n := 0;
      var rest, again := u, true;
      while again
        invariant n <= limb.Length && fresh(limb)
        invariant limb.Length == MaxLimbs(width, machine.limbBits)
        invariant Limbs(limb[..n], base)
        invariant Val(limb[..n], base) + Pow(base, n) * rest == u
        invariant Fits(rest, n, machine.limbBits, width)
        invariant again ==> n < limb.Length
        invariant !again ==> rest == 0 && 0 < n
        decreases if again then rest + 1 else 0
      {
        ghost var before := limb[..n];
        StoreStep(before, rest, base);
        limb[n] := rest % base;
        LimbsSnoc(before, rest % base, base);
        assert limb[..n + 1] == before + [rest % base];
        ghost var was := rest;
        rest := if machine.limbBits < width then rest / base else 0;
        FitsNext(was, n, base, machine.limbBits, width, rest);
        n := n + 1;
        again := rest != 0;
        if again {
          FitsRoom(rest, n, machine.limbBits, width);
        }
      }
      assert Pow(base, n) * rest == 0;
    }

    /** mpz_set_intmax_slow: the magnitude is taken in unsigned arithmetic, so
        the most negative number needs no special case. */
    method SetIntmaxSlow(v: int)
      requires machine.Ok() && machine.InIntmax(v)
      modifies this
      ensures Valid() && Value() == v && fresh(limb)
    {
      hide *;
      var modulus := Pow(2, machine.intmaxBits);
      Magnitudes(v, machine);
      var u := v % modulus;
      if v < 0 {
        u := (modulus - u) % modulus;
      }
      var n := WriteLimbs(u, machine.intmaxBits);
      AbsSame(n);
      LimbsFinish(Signed(v < 0, n));
      SignedLimbs(v, n, u);
    }

    method SetUintmaxSlow(v: nat)
      requires machine.Ok() && machine.InUintmax(v)
      modifies this
      ensures Valid() && Value() == v && fresh(limb)
    {
      var n := WriteLimbs(v, machine.intmaxBits);
      LimbsFinish(n);
    }

    /** GMP's mpz_set_si and mpz_set_ui, which store a long. */
    method SetLong(v: int)
      requires machine.Ok() && (machine.InLong(v) || machine.InUlong(v))
      modifies this
      ensures Valid() && Value() == v && fresh(limb)
    {
      hide *;
      LongMagnitude(v, machine);
      var n := WriteLimbs(Abs(v), machine.longBits);
      AbsSame(n);
      LimbsFinish(Signed(v < 0, n));
      SignedLimbs(v, n, Abs(v));
    }

    method SetIntmax(v: int)
      requires machine.Ok() && machine.InIntmax(v)
      modifies this
      ensures Valid() && Value() == v && fresh(limb)
    {
      if machine.faster && machine.InLong(v) {
        SetLong(v);
      } else {
        SetIntmaxSlow(v);
      }
    }

    method SetUintmax(v: nat)
      requires machine.Ok() && machine.InUintmax(v)
      modifies this
      ensures Valid() && Value() == v && fresh(limb)
    {
      if machine.faster && machine.InUlong(v) {
        SetLong(v);
      } else {
        SetUintmaxSlow(v);
      }
    }

    /** The reading loop: add up shifted limbs until every bit is covered.  No
        limb, no shifted limb and no sum exceeds max, so a machine integer that
        can hold max holds them all. */
    method SumLimbs(bits: nat, ghost max: nat) returns (v: nat)
      requires Valid() && bits == Bits(Magnitude()) && Magnitude() <= max
      ensures v == Magnitude()
    {
      hide *;
      UsedNormal();
      BaseOk(machine);
      BitsExact(Magnitude());
      var base := machine.Base();
      var i: nat, shift: nat := 0, 0;
      v := 0;
      LowNone(Used(), base);
      while shift < bits
        invariant shift == machine.limbBits * i
        invariant v == Low(Used(), i, base)
        decreases bits - shift
      {
        var limb := GetLimb(i);
        ReadStep(i, shift, limb, v, max);
        v := v + limb * Pow(2, shift);
        shift := shift + machine.limbBits;
        i := i + 1;
      }
      LowWhole(Used(), i, base, machine.limbBits, bits);
    }

    lemma UsedNormal()
      requires Valid()
      ensures Abs(size) <= limb.Length && Normal(Used(), machine.Base())
      ensures Magnitude() == Val(Used(), machine.Base())
      ensures Value() == Signed(size < 0, Magnitude()) && machine.Ok()
      ensures size < 0 ==> 0 < Magnitude()
    {
      if Abs(size) > 0 {
        TopNonzero(Used(), machine.Base());
        BaseFacts(machine.limbBits);
        PowPositive(machine.Base(), Abs(size) - 1);
      }
    }

    lemma ReadStep(i: nat, shift: nat, limb: nat, v: nat, max: nat)
      requires Valid() && shift == machine.limbBits * i && limb == GetLimb(i)
      requires v == Low(Used(), i, machine.Base()) && Magnitude() <= max
      ensures v + limb * Pow(2, shift) == Low(Used(), i + 1, machine.Base())
      ensures limb <= limb * Pow(2, shift) <= v + limb * Pow(2, shift) <= max
      ensures shift + machine.limbBits == machine.limbBits * (i + 1)
    {
      hide *;
      LimbIs(i);
      LowStep(Used(), i, machine.Base());
      LowAtMost(Used(), i + 1, machine.Base());
      ShiftIsPow(machine.limbBits, i);
      PowPositive(2, shift);
      Scaled(limb, Pow(2, shift));
      NextShift(machine.limbBits, i);
    }

    lemma Scaled(limb: nat, p: nat)
      requires 1 <= p
      ensures limb <= limb * p
    {
      Times(limb, 1, p);
    }

    lemma NextShift(bits: nat, i: nat)
      ensures bits * i + bits == bits * (i + 1)
    {
    }

    lemma LimbIs(i: nat)
      requires Valid()
      ensures Abs(size) <= limb.Length && GetLimb(i) == if i < |Used()| then Used()[i] else 0
      ensures machine.Base() == Pow(2, machine.limbBits) && Magnitude() == Val(Used(), machine.Base())
    {
    }

    lemma Ranges(v: int)
      requires machine.Ok()
      ensures machine.InIntmax(v) <==> 0 - Pow(2, machine.intmaxBits - 1) <= v < Pow(2, machine.intmaxBits - 1)
      ensures machine.InUintmax(v) <==> 0 <= v < Pow(2, machine.intmaxBits)
      ensures machine.InFixnum(v) <==> 0 - Pow(2, machine.fixnumBits - 1) <= v < Pow(2, machine.fixnumBits - 1)
    {
    }

    /** mpz_to_intmax: reading succeeds exactly when the number fits. */
    method ToIntmax() returns (ok: bool, v: int)
      requires Valid()
      ensures ok <==> machine.InIntmax(Value())
      ensures ok <==> 0 - Pow(2, machine.intmaxBits - 1) <= Value() < Pow(2, machine.intmaxBits - 1)
      ensures ok ==> v == Value()
    {
      hide *;
      UsedNormal();
      WidthFacts(machine);
      Ranges(Value());
      if machine.faster {
        if machine.InLong(Value()) {
          return true, Value();
        }
        if machine.intmaxBits <= machine.longBits {
          return false, 0;
        }
      }
      ok, v := ToIntmaxSlow();
    }

    method ToIntmaxSlow() returns (ok: bool, v: int)
      requires Valid()
      ensures ok <==> machine.InIntmax(Value())
      ensures ok ==> v == Value()
    {
      hide *;
      UsedNormal();
      WidthFacts(machine);
      SlowCases(Magnitude(), size < 0, machine);
      var bits := Bits(Magnitude());
      if bits < machine.intmaxBits {
        var magnitude := SumLimbs(bits, Pow(2, machine.intmaxBits - 1) - 1);
        return true, Signed(size < 0, magnitude);
      }
      if bits == machine.intmaxBits && size < 0 && LowestBit(Magnitude()) == machine.intmaxBits - 1 {
        return true, 0 - Pow(2, machine.intmaxBits - 1);
      }
      return false, 0;
    }

    method ToUintmax() returns (ok: bool, v: nat)
      requires Valid()
      ensures ok <==> machine.InUintmax(Value())
      ensures ok <==> 0 <= Value() < Pow(2, machine.intmaxBits)
      ensures ok ==> v == Value()
    {
      hide *;
      UsedNormal();
      Ranges(Value());
      WidthFacts(machine);
      SlowCases(Magnitude(), size < 0, machine);
      v := 0;
      if machine.faster {
        if machine.InUlong(Value()) {
          return true, Value();
        }
        if machine.intmaxBits <= machine.longBits {
          return false, 0;
        }
      }
      if size < 0 {
        return false, 0;
      }
      var bits := Bits(Magnitude());
      if machine.intmaxBits < bits {
        return false, 0;
      }
      v := SumLimbs(bits, Pow(2, machine.intmaxBits) - 1);
      ok := true;
    }

    /** make_integer_mpz: a fixnum exactly when the value is in fixnum range,
        whether found through long, through the limbs, or not at all. */
    method MakeInteger(integerWidth: nat) returns (r: LispInteger)
      requires Valid()
      ensures r.Fixnum? <==> machine.InFixnum(Value())
      ensures r.Fixnum? <==> 0 - Pow(2, machine.fixnumBits - 1) <= Value() < Pow(2, machine.fixnumBits - 1)
      ensures r.OverflowError? <==> integerWidth < Bits(Magnitude()) && 2 * machine.intmaxBits < Bits(Magnitude())
      ensures Same(r, Value())
    {
      hide *;
      UsedNormal();
      Ranges(Value());
      FixnumFacts(machine, Magnitude(), size < 0);
      if machine.faster && machine.InLong(Value()) && machine.InFixnum(Value()) {
        MakeFixnum(Value());
        return Fixnum(Value());
      }
      var bits := Bits(Magnitude());
      var longCovers := !machine.InFixnum(0 - Pow(2, machine.longBits - 1))
        && !machine.InFixnum(Pow(2, machine.longBits - 1) - 1);
      if !(machine.faster && longCovers) && bits <= machine.fixnumBits {
        var magnitude := SumLimbs(bits, Pow(2, machine.fixnumBits) - 1);
        var v := Signed(size < 0, magnitude);
        if machine.InFixnum(v) {
          MakeFixnum(v);
          return Fixnum(v);
        }
      }
      r := MakeBignumBits(bits, integerWidth);
    }

    /** make_bignum_bits: integer-width counts as at least twice the machine width. */
    method MakeBignumBits(bits: nat, integerWidth: nat) returns (r: LispInteger)
      requires Valid() && bits == Bits(Magnitude())
      ensures !r.Fixnum? && Same(r, Value())
      ensures r.OverflowError? <==> integerWidth < bits && 2 * machine.intmaxBits < bits
    {
      r := if integerWidth < bits && 2 * machine.intmaxBits < bits then OverflowError else Bignum(Value());
    }

    /** bignum_to_intmax: zero reports failure, which no bignum can be. */
    method BignumToIntmax() returns (v: int)
      requires Valid() && !machine.InFixnum(Value())
      ensures v == if machine.InIntmax(Value()) then Value() else 0
      ensures v == 0 <==> !machine.InIntmax(Value())
    {
      var ok;
      ok, v := ToIntmax();
      PowPositive(2, machine.fixnumBits - 1);
      v := if ok then v else 0;
    }

    /** make_bigint, for a machine integer outside fixnum range. */
    method MakeBigint(n: int, integerWidth: nat) returns (r: LispInteger)
      requires machine.Ok() && machine.InIntmax(n) && !machine.InFixnum(n)
      modifies this
      ensures r == Bignum(n)
    {
      SetIntmax(n);
      UsedNormal();
      SlowCases(Magnitude(), size < 0, machine);
      r := MakeBignumBits(Bits(Magnitude()), integerWidth);
    }

    /** make_neg_biguint: mpz_neg only changes the sign of the size. */
    method MakeNegBiguint(n: nat, integerWidth: nat) returns (r: LispInteger)
      requires machine.Ok() && machine.InUintmax(n) && !machine.InFixnum(0 - n)
      modifies this
      ensures r == Bignum(0 - n)
    {
      SetUintmax(n);
      NegReady(n);
      size := 0 - size;
      r := MakeBignumBits(Bits(Magnitude()), integerWidth);
    }

    lemma NegReady(n: nat)
      requires Valid() && Value() == n && machine.InUintmax(n)
      ensures size >= 0 && Magnitude() == n && Bits(n) <= 2 * machine.intmaxBits
    {
      UsedNormal();
      SlowCases(Magnitude(), size < 0, machine);
    }
  }

  /** Two numbers of one machine with the same value are held in the same limbs
      under the same size, so every way of storing a value stores the same. */
  lemma Canonical(x: Mpz, y: Mpz)
    requires x.Valid() && y.Valid() && x.machine == y.machine && x.Value() == y.Value()
    ensures x.size == y.size && x.Used() == y.Used()
  {
    x.UsedNormal();
    y.UsedNormal();
    BaseFacts(x.machine.limbBits);
    LimbsUnique(x.Used(), y.Used(), x.machine.Base());
  }

  /** The Lisp integer made, unless making it was refused, is the value. */
  predicate Same(r: LispInteger, v: int) {
    && (r.Fixnum? ==> r.value == v)
    && (r.Bignum? ==> r.number == v)
  }

  lemma MakeFixnum(v: int)
    ensures Fixnum(v).Fixnum? && Same(Fixnum(v), v)
  {
  }

  lemma DropZero(s: seq<nat>, base: nat)
    requires |s| > 0 && s[|s| - 1] == 0
    ensures Val(s[..|s| - 1], base) == Val(s, base)
  {
  }

  lemma BaseOk(machine: Machine)
    requires machine.Ok()
    ensures machine.Base() == Pow(2, machine.limbBits) && 1 < machine.Base() && 1 <= machine.limbBits
  {
    BaseFacts(machine.limbBits);
  }

  lemma WriteStart(u: nat, limbBits: nat, width: nat, base: nat)
    requires 1 <= limbBits && 1 <= width && u < Pow(2, width)
    ensures Fits(u, 0, limbBits, width)
    ensures Limbs([], base) && Val([], base) + Pow(base, 0) * u == u
    ensures 0 < MaxLimbs(width, limbBits)
  {
    DivAbove(width + limbBits - 1, limbBits, 0);
  }

  lemma LimbsSnoc(s: seq<nat>, limb: nat, base: nat)
    requires Limbs(s, base) && limb < base
    ensures Limbs(s + [limb], base)
  {
  }

  /** Unsigned negation gives the magnitude, also of the most negative number. */
  lemma Magnitudes(v: int, machine: Machine)
    requires machine.Ok() && machine.InIntmax(v)
    ensures 0 < Pow(2, machine.intmaxBits) && 1 <= machine.intmaxBits
    ensures v >= 0 ==> v % Pow(2, machine.intmaxBits) == v
    ensures v < 0 ==> (Pow(2, machine.intmaxBits) - v % Pow(2, machine.intmaxBits)) % Pow(2, machine.intmaxBits) == -v
    ensures Abs(v) < Pow(2, machine.intmaxBits)
    ensures Abs(v) == if v < 0 then -v else v
  {
    var half := Pow(2, machine.intmaxBits - 1);
    PowPositive(2, machine.intmaxBits - 1);
    var m := Pow(2, machine.intmaxBits);
    assert m == 2 * half;
    Residue(v, m);
  }

  lemma Residue(v: int, m: nat)
    requires 0 < m && v < m && 0 < m + v
    ensures v >= 0 ==> v % m == v
    ensures v < 0 ==> v % m == v + m && (m - v % m) % m == -v
  {
    if v < 0 {
      assert (v + m) % m == v % m;
    }
  }

  lemma AbsSame(n: nat)
    ensures Abs(Signed(true, n)) == n && Abs(Signed(false, n)) == n
  {
  }

  lemma SignedLimbs(v: int, n: nat, u: nat)
    requires u == Abs(v)
    ensures Signed(v < 0, u) == v
    ensures n > 0 ==> (Signed(v < 0, n) < 0 <==> v < 0)
  {
  }

  lemma LongMagnitude(v: int, machine: Machine)
    requires machine.Ok() && (machine.InLong(v) || machine.InUlong(v))
    ensures Abs(v) < Pow(2, machine.longBits) && 1 <= machine.longBits
  {
    PowPositive(2, machine.longBits - 1);
    assert Pow(2, machine.longBits) == 2 * Pow(2, machine.longBits - 1);
  }

  lemma LowNone(limbs: seq<nat>, base: nat)
    ensures Low(limbs, 0, base) == 0
  {
  }

  /** How the ranges of the machine's types nest. */
  lemma WidthFacts(machine: Machine)
    requires machine.Ok()
    ensures forall v: int :: machine.InLong(v) ==> machine.InIntmax(v)
    ensures forall v: int :: machine.InUlong(v) ==> machine.InUintmax(v)
    ensures machine.intmaxBits <= machine.longBits ==> (forall v: int :: machine.InIntmax(v) ==> machine.InLong(v))
    ensures machine.intmaxBits <= machine.longBits ==> (forall v: int :: machine.InUintmax(v) ==> machine.InUlong(v))
    ensures forall v: int :: machine.InUlong(v) ==> 0 <= v
    ensures 2 <= machine.intmaxBits
    ensures 0 < Pow(2, machine.intmaxBits - 1) < Pow(2, machine.intmaxBits)
  {
    PowMonotone(2, machine.longBits - 1, machine.intmaxBits - 1);
    PowMonotone(2, machine.longBits, machine.intmaxBits);
    PowPositive(2, machine.intmaxBits - 1);
    assert Pow(2, machine.intmaxBits) == 2 * Pow(2, machine.intmaxBits - 1);
  }

  /** What the bit count and the lowest bit say about the ranges. */
  lemma SlowCases(magnitude: nat, negative: bool, machine: Machine)
    requires machine.Ok() && (negative ==> 0 < magnitude)
    ensures Bits(magnitude) < machine.intmaxBits <==> magnitude < Pow(2, machine.intmaxBits - 1)
    ensures Bits(magnitude) <= machine.intmaxBits <==> magnitude < Pow(2, machine.intmaxBits)
    ensures Bits(magnitude) == machine.intmaxBits ==>
        0 < magnitude
          && (LowestBit(magnitude) == machine.intmaxBits - 1 <==> magnitude == Pow(2, machine.intmaxBits - 1))
    ensures machine.InIntmax(Signed(negative, magnitude)) <==>
        magnitude < Pow(2, machine.intmaxBits - 1) || (negative && magnitude == Pow(2, machine.intmaxBits - 1))
    ensures machine.InUintmax(Signed(negative, magnitude)) <==> !negative && magnitude < Pow(2, machine.intmaxBits)
    ensures Signed(true, magnitude) == 0 - magnitude && Signed(false, magnitude) == magnitude
  {
    var k: nat := machine.intmaxBits - 1;
    BitsFit(magnitude, k);
    BitsFit(magnitude, k + 1);
    PowMonotone(2, k, k + 1);
    if Bits(magnitude) == k + 1 {
      LowestIsTop(magnitude, k);
    }
  }

  /** A fixnum has few enough bits to be read from the limbs, and if long
      reaches past both ends of the fixnums, it is a long. */
  lemma FixnumFacts(machine: Machine, magnitude: nat, negative: bool)
    requires machine.Ok()
    ensures 2 <= machine.longBits && 2 <= machine.fixnumBits && 1 <= Pow(2, machine.fixnumBits)
    ensures Bits(magnitude) <= machine.fixnumBits <==> magnitude < Pow(2, machine.fixnumBits)
    ensures machine.InFixnum(Signed(negative, magnitude)) ==> Bits(magnitude) <= machine.fixnumBits
    ensures (!machine.InFixnum(0 - Pow(2, machine.longBits - 1))
      && !machine.InFixnum(Pow(2, machine.longBits - 1) - 1)) ==>
        (forall v: int :: machine.InFixnum(v) ==> machine.InLong(v))
    ensures machine.InFixnum(Signed(negative, magnitude)) ==>
        Bits(magnitude) <= 2 * machine.intmaxBits
  {
    PowPositive(2, machine.fixnumBits - 1);
    PowPositive(2, machine.longBits - 1);
    assert Pow(2, machine.fixnumBits) == 2 * Pow(2, machine.fixnumBits - 1);
    BitsFit(magnitude, machine.fixnumBits);
  }
}
