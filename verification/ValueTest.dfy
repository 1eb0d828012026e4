/** The value test of a predicate, as the writer and the reader each make it. */
module ValueTest {
  datatype Op = Lt | Le | Gt | Ge | Eq | Ne

  /** A number as the comparisons see it. */
  datatype Number = NaN | Infinite(positive: bool) | Finite(x: real)

  predicate Less(a: Number, b: Number) {
    if a.NaN? || b.NaN? || a == b then false
    else if a.Finite? && b.Finite? then a.x < b.x
    else a == Infinite(false) || b == Infinite(true)
  }

  predicate Equal(a: Number, b: Number) { a == b && !a.NaN? }

  predicate Compare(op: Op, a: Number, b: Number) {
    match op
    case Lt => Less(a, b)
    case Le => Less(a, b) || Equal(a, b)
    case Gt => Less(b, a)
    case Ge => Less(b, a) || Equal(a, b)
    case Eq => Equal(a, b)
    case Ne => !Equal(a, b)
  }

  /** The operators on numbers: among finite ones, those of the reals; one of less,
      equal and greater holds unless one is not a number; and each other operator is
      what it is of these. */
  lemma CompareIs(a: Number, b: Number)
    ensures a.Finite? && b.Finite? ==> (Compare(Lt, a, b) <==> a.x < b.x) && (Compare(Eq, a, b) <==> a.x == b.x)
    ensures a.Finite? ==> Compare(Lt, a, Infinite(true)) && Compare(Lt, Infinite(false), a)
    ensures Compare(Gt, a, b) <==> Compare(Lt, b, a)
    ensures Compare(Le, a, b) <==> Compare(Lt, a, b) || Compare(Eq, a, b)
    ensures Compare(Ge, a, b) <==> Compare(Le, b, a)
    ensures Compare(Ne, a, b) <==> !Compare(Eq, a, b)
    ensures a.NaN? || b.NaN? ==> !Compare(Le, a, b)
    ensures !a.NaN? && !b.NaN? ==> (Compare(Lt, a, b) <==> !Compare(Ge, a, b))
    ensures Compare(Lt, a, b) ==> !Compare(Gt, a, b)
  {
  }

  /** The greatest whole number not beyond c, seen from zero. */
  lemma TowardZeroIs(c: real)
    ensures var t := TowardZero(Finite(c));
      && HasValue(Integer, t) && -1.0 < c - t.x < 1.0
      && (c >= 0.0 ==> 0.0 <= t.x <= c) && (c <= 0.0 ==> c <= t.x <= 0.0)
  {
    var n := (if c >= 0.0 then c else -c).Floor;
    assert (n as real).Floor == n && (-n as real).Floor == -n;
  }

  /** How a type holds numbers: whole ones, or those that its rounding keeps. */
  datatype Class = Integer | Float(round: Number -> Number)

  predicate HasValue(cls: Class, a: Number) {
    match cls
    case Integer => a.Finite? && a.x == a.x.Floor as real
    case Float(round) => round(a) == a
  }

  function TowardZero(c: Number): Number {
    if !c.Finite? then c else Finite(if c.x >= 0.0 then c.x.Floor as real else -((-c.x).Floor as real))
  }

  /** The writer brings data and constant into one type: 64-bit integers for whole
      numbers, and for all others doubles, which the constant already is. */
  function WriterConstant(cls: Class, c: Number): Number { if cls.Integer? then TowardZero(c) else c }

  /** The reader compares in the type of the data, and its constant takes that type. */
  function ReaderConstant(cls: Class, c: Number): Number { if cls.Integer? then TowardZero(c) else cls.round(c) }

  /** A rounding keeps order, what it yields, and what is not a number. */
  ghost predicate Rounds(cls: Class) {
    cls.Float? ==>
      && (forall a, b | Compare(Le, a, b) :: Compare(Le, cls.round(a), cls.round(b)))
      && (forall a :: cls.round(cls.round(a)) == cls.round(a))
      && cls.round(NaN) == NaN
  }

  /** Both ends judge every number of the type alike. */
  ghost predicate TestsAlike(cls: Class, op: Op, c: Number) {
    forall a | HasValue(cls, a) :: Compare(op, a, WriterConstant(cls, c)) <==> Compare(op, a, ReaderConstant(cls, c))
  }

  /** The constant is not rounded past the numbers the operator sets apart. */
  predicate RoundsHarmlessly(cls: Class, op: Op, c: Number) {
    cls.Float? ==>
      match op
      case Gt => !Less(c, cls.round(c))
      case Le => !Less(c, cls.round(c))
      case Lt => !Less(cls.round(c), c)
      case Ge => !Less(cls.round(c), c)
      case Eq => cls.round(c) == c
      case Ne => cls.round(c) == c
  }

  /** The two ends judge alike exactly if the constant is rounded harmlessly --
      always, on whole numbers. */
  lemma TestsAlikeIff(cls: Class, op: Op, c: Number)
    requires Rounds(cls)
    ensures TestsAlike(cls, op, c) <==> RoundsHarmlessly(cls, op, c)
  {
    if cls.Float? {
      var r := cls.round(c);
      assert !c.NaN? ==> Compare(Le, c, c) && !r.NaN?;
      assert HasValue(cls, r);
      if TestsAlike(cls, op, c) {
        assert Compare(op, r, c) <==> Compare(op, r, r);
      }
      if RoundsHarmlessly(cls, op, c) {
        forall a | HasValue(cls, a) ensures Compare(op, a, c) <==> Compare(op, a, r) {
          assert Compare(Le, a, c) ==> Compare(Le, cls.round(a), r);
          assert Compare(Le, c, a) ==> Compare(Le, r, cls.round(a));
        }
      }
    }
  }

  /** They do under every operator exactly if the type has the constant. */
  lemma AlikeUnderAllIff(cls: Class, c: Number)
    requires Rounds(cls)
    ensures (forall op :: TestsAlike(cls, op, c)) <==> cls.Integer? || cls.round(c) == c
  {
    forall op ensures TestsAlike(cls, op, c) <==> RoundsHarmlessly(cls, op, c) { TestsAlikeIff(cls, op, c); }
    hide TestsAlike;
    if forall op :: TestsAlike(cls, op, c) {
      assert TestsAlike(cls, Eq, c);
    }
  }

  // ----- Two encodings -----

  function Power(e: int): real
    decreases if e < 0 then -e else e
  {
    if e == 0 then 1.0 else if e > 0 then 2.0 * Power(e - 1) else Power(e + 1) / 2.0
  }

  /** Four bytes, the least significant one first. */
  function Word(b: seq<nat>): nat
    requires |b| == 4
  {
    b[0] + 0x100 * b[1] + 0x1_0000 * b[2] + 0x100_0000 * b[3]
  }

  function Signed32(b: seq<nat>): int
    requires |b| == 4
  {
    if Word(b) < 0x8000_0000 then Word(b) else Word(b) - 0x1_0000_0000
  }

  /** What four bytes hold as binary32 (section 3.4 of IEEE 754-2019). */
  function Float32(b: seq<nat>): Number
    requires |b| == 4
  {
    var w := Word(b);
    var exponent, fraction := w / 0x80_0000 % 0x100, w % 0x80_0000;
    if exponent == 255 then (if fraction == 0 then Infinite(w < 0x8000_0000) else NaN)
    else
      var size := if exponent == 0 then fraction as real / 8388608.0 * Power(-126)
                  else (1.0 + fraction as real / 8388608.0) * Power(exponent - 127);
      Finite(if w < 0x8000_0000 then size else -size)
  }

  /** Binary32's rounding between 1/16 and 1/8, where its numbers are 1/2^27 apart. */
  function ToGrid(x: real): real { (x * 134217728.0 + 0.5).Floor as real / 134217728.0 }

  function OnGrid(a: Number): Number { if a.Finite? then Finite(ToGrid(a.x)) else a }

  const GRID := Float(a => OnGrid(a))

  lemma GridRounds()
    ensures Rounds(GRID)
  {
    forall x, y: real | x <= y ensures ToGrid(x) <= ToGrid(y) {
      var a, b := x * 134217728.0 + 0.5, y * 134217728.0 + 0.5;
      assert a <= b;
      assert a.Floor <= b.Floor;
    }
    forall x ensures ToGrid(ToGrid(x)) == ToGrid(x) {
      var n := (x * 134217728.0 + 0.5).Floor;
      assert ToGrid(x) * 134217728.0 == n as real;
      assert (n as real + 0.5).Floor == n;
    }
    hide ToGrid;
  }

  /** The double nearest to one tenth, and the bytes of the binary32 nearest to that. */
  const TENTH := Finite(3602879701896397.0 / 36028797018963968.0)
  const TENTH32: seq<nat> := [0xCD, 0xCC, 0xCC, 0x3D]

  lemma TenthRoundsUp()
    ensures Float32(TENTH32) == ReaderConstant(GRID, TENTH) && Less(TENTH, Float32(TENTH32))
    ensures HasValue(GRID, Float32(TENTH32))
  {
    assert Word(TENTH32) == 0x3DCC_CCCD;
    assert Power(-4) == 1.0 / 16.0 by {
      assert Power(-1) == 0.5 && Power(-2) == 0.25 && Power(-3) == 0.125;
    }
    assert Float32(TENTH32) == Finite(13421773.0 / 134217728.0);
    assert ToGrid(TENTH.x) == 13421773.0 / 134217728.0;
  }

  const ONE32: seq<nat> := [0, 0, 0x80, 0x3F]

  lemma OneAsBinary32()
    ensures Float32(ONE32) == Finite(1.0) && Signed32(ONE32) == 1065353216
  {
    assert Word(ONE32) == 0x3F80_0000 && Power(0) == 1.0;
  }
}
