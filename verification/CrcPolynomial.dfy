/** CRC-32 as its standard defines it: the register is the remainder of the message,
    as a polynomial with coefficients modulo two, divided by the IEEE 802.3
    generator. A polynomial is the set of its exponents. */
module CrcPolynomial {
  import opened Base
  import opened Crc32

  type Poly = set<nat>

  /** x^32 + x^26 + x^23 + x^22 + x^16 + x^12 + x^11 + x^10 + x^8 + x^7 + x^5 + x^4 + x^2 + x + 1 */
  const GENERATOR: Poly := {32, 26, 23, 22, 16, 12, 11, 10, 8, 7, 5, 4, 2, 1, 0}

  function Plus(a: Poly, b: Poly): Poly {
    (a - b) + (b - a)
  }

  /** Times x^n. */
  function Times(a: Poly, n: nat): Poly {
    set e | e in a :: e + n
  }

  /** A multiple of the generator, by the terms of the quotient. */
  function Multiple(quotient: seq<nat>): Poly
    decreases |quotient|
  {
    if quotient == [] then {} else Plus(Times(GENERATOR, quotient[0]), Multiple(quotient[1..]))
  }

  /** Equal up to a multiple of the generator. */
  ghost predicate Congruent(a: Poly, b: Poly) {
    exists quotient :: a == Plus(b, Multiple(quotient))
  }

  // ------------------------------------------------------------------
  // Congruence
  // ------------------------------------------------------------------

  lemma TimesAt(a: Poly, n: nat, e: nat)
    ensures e in Times(a, n) <==> e >= n && e - n in a
  {
    if e >= n && e - n in a {
      assert e - n + n in Times(a, n);
    }
  }

  lemma TimesDistributes(a: Poly, b: Poly, n: nat)
    ensures Times(Plus(a, b), n) == Plus(Times(a, n), Times(b, n))
  {
    forall e: nat
      ensures e in Times(Plus(a, b), n) <==> e in Plus(Times(a, n), Times(b, n))
    {
      TimesAt(Plus(a, b), n, e);
      TimesAt(a, n, e);
      TimesAt(b, n, e);
    }
  }

  lemma TimesTwice(a: Poly, m: nat, n: nat)
    ensures Times(Times(a, m), n) == Times(a, m + n)
  {
    forall e: nat
      ensures e in Times(Times(a, m), n) <==> e in Times(a, m + n)
    {
      TimesAt(Times(a, m), n, e);
      if e >= n {
        TimesAt(a, m, e - n);
      }
      TimesAt(a, m + n, e);
    }
  }

  lemma {:induction false} MultiplesAdd(first: seq<nat>, second: seq<nat>)
    ensures Multiple(first + second) == Plus(Multiple(first), Multiple(second))
    decreases |first|
  {
    if first == [] {
      assert first + second == second;
    } else {
      assert (first + second)[1..] == first[1..] + second;
      MultiplesAdd(first[1..], second);
    }
  }

  function Raised(quotient: seq<nat>, n: nat): seq<nat> {
    seq(|quotient|, i requires 0 <= i < |quotient| => quotient[i] + n)
  }

  lemma {:induction false} MultiplesShift(quotient: seq<nat>, n: nat)
    ensures Times(Multiple(quotient), n) == Multiple(Raised(quotient, n))
    decreases |quotient|
  {
    if quotient == [] {
      assert Times({}, n) == {} && Raised(quotient, n) == [];
    } else {
      MultiplesShift(quotient[1..], n);
      TimesDistributes(Times(GENERATOR, quotient[0]), Multiple(quotient[1..]), n);
      TimesTwice(GENERATOR, quotient[0], n);
      assert Raised(quotient, n)[1..] == Raised(quotient[1..], n);
    }
  }

  lemma Reflexive(a: Poly)
    ensures Congruent(a, a)
  {
    assert Multiple([]) == {};
    assert a == Plus(a, Multiple([]));
  }

  lemma Transitive(a: Poly, b: Poly, c: Poly)
    requires Congruent(a, b) && Congruent(b, c)
    ensures Congruent(a, c)
  {
    var p :| a == Plus(b, Multiple(p));
    var q :| b == Plus(c, Multiple(q));
    MultiplesAdd(q, p);
    assert a == Plus(c, Multiple(q + p));
  }

  lemma SumsAreCongruent(a: Poly, b: Poly, c: Poly)
    requires Congruent(a, b)
    ensures Congruent(Plus(a, c), Plus(b, c))
  {
    var q :| a == Plus(b, Multiple(q));
    assert Plus(a, c) == Plus(Plus(b, c), Multiple(q));
  }

  lemma ProductsAreCongruent(a: Poly, b: Poly, n: nat)
    requires Congruent(a, b)
    ensures Congruent(Times(a, n), Times(b, n))
  {
    var q :| a == Plus(b, Multiple(q));
    TimesDistributes(b, Multiple(q), n);
    MultiplesShift(q, n);
    assert Times(a, n) == Plus(Times(b, n), Multiple(Raised(q, n)));
  }

  // ------------------------------------------------------------------
  // The register
  // ------------------------------------------------------------------

  /** The first bit of the register is its highest coefficient. */
  predicate Coefficient(r: Register, e: nat) {
    e < 32 && r[31 - e]
  }

  function OfRegister(r: Register): Poly {
    set e: nat | e < 32 && Coefficient(r, e)
  }

  const ALL: Poly := set e: nat | 0 <= e < 32

  lemma CoefficientsFrom24()
    ensures forall e :: 24 <= e < 32 ==> (Polynomial()[31 - e] <==> e in GENERATOR)
  {
    assert Pow2(0) == 0x1 && Polynomial()[0] == false;
    assert Pow2(1) == 0x2 && Polynomial()[1] == false;
    assert Pow2(2) == 0x4 && Polynomial()[2] == false;
    assert Pow2(3) == 0x8 && Polynomial()[3] == false;
    assert Pow2(4) == 0x10 && Polynomial()[4] == false;
    assert Pow2(5) == 0x20 && Polynomial()[5] == true;
    assert Pow2(6) == 0x40 && Polynomial()[6] == false;
    assert Pow2(7) == 0x80 && Polynomial()[7] == false;
  }

  lemma CoefficientsFrom16()
    ensures forall e :: 16 <= e < 24 ==> (Polynomial()[31 - e] <==> e in GENERATOR)
  {
    assert Pow2(8) == 0x100 && Polynomial()[8] == true;
    assert Pow2(9) == 0x200 && Polynomial()[9] == true;
    assert Pow2(10) == 0x400 && Polynomial()[10] == false;
    assert Pow2(11) == 0x800 && Polynomial()[11] == false;
    assert Pow2(12) == 0x1000 && Polynomial()[12] == false;
    assert Pow2(13) == 0x2000 && Polynomial()[13] == false;
    assert Pow2(14) == 0x4000 && Polynomial()[14] == false;
    assert Pow2(15) == 0x8000 && Polynomial()[15] == true;
  }

  lemma CoefficientsFrom8()
    ensures forall e :: 8 <= e < 16 ==> (Polynomial()[31 - e] <==> e in GENERATOR)
  {
    assert Pow2(8) == 0x100;
    assert Pow2(15) == 0x8000;
    assert Pow2(16) == 0x10000 && Polynomial()[16] == false;
    assert Pow2(17) == 0x20000 && Polynomial()[17] == false;
    assert Pow2(18) == 0x40000 && Polynomial()[18] == false;
    assert Pow2(19) == 0x80000 && Polynomial()[19] == true;
    assert Pow2(20) == 0x100000 && Polynomial()[20] == true;
    assert Pow2(21) == 0x200000 && Polynomial()[21] == true;
    assert Pow2(22) == 0x400000 && Polynomial()[22] == false;
    assert Pow2(23) == 0x800000 && Polynomial()[23] == true;
  }

  lemma CoefficientsFrom0()
    ensures forall e :: 0 <= e < 8 ==> (Polynomial()[31 - e] <==> e in GENERATOR)
  {
    assert Pow2(8) == 0x100;
    assert Pow2(16) == 0x10000;
    assert Pow2(23) == 0x800000;
    assert Pow2(24) == 0x1000000 && Polynomial()[24] == true;
    assert Pow2(25) == 0x2000000 && Polynomial()[25] == false;
    assert Pow2(26) == 0x4000000 && Polynomial()[26] == true;
    assert Pow2(27) == 0x8000000 && Polynomial()[27] == true;
    assert Pow2(28) == 0x10000000 && Polynomial()[28] == false;
    assert Pow2(29) == 0x20000000 && Polynomial()[29] == true;
    assert Pow2(30) == 0x40000000 && Polynomial()[30] == true;
    assert Pow2(31) == 0x80000000 && Polynomial()[31] == true;
  }

  /** The constant the loop mixes in is the generator without its highest term. */
  lemma PolynomialIsTheGenerator(e: nat)
    requires e < 32
    ensures Polynomial()[31 - e] <==> e in GENERATOR
  {
    CoefficientsFrom24();
    CoefficientsFrom16();
    CoefficientsFrom8();
    CoefficientsFrom0();
  }

  lemma XorAdds(x: Register, y: Register)
    ensures OfRegister(Xor(x, y)) == Plus(OfRegister(x), OfRegister(y))
  {
  }

  lemma StepAt(r: Register, e: nat)
    requires e < 32
    ensures e in OfRegister(Step(r)) <==> (e >= 1 && r[32 - e]) != (r[0] && e in GENERATOR)
  {
    PolynomialIsTheGenerator(e);
  }

  /** What one step takes away from x times the register. */
  function Taken(r: Register): Poly {
    if r[0] then GENERATOR else {}
  }

  lemma StepDividesAt(r: Register, e: nat)
    ensures e in Times(OfRegister(r), 1) <==> e in Plus(OfRegister(Step(r)), Taken(r))
  {
    TimesAt(OfRegister(r), 1, e);
    if e < 32 {
      StepAt(r, e);
    } else if e == 32 {
      assert 32 in GENERATOR;
    } else {
      assert e !in GENERATOR;
    }
  }

  /** One step multiplies by x and divides by the generator. */
  lemma StepDivides(r: Register)
    ensures Congruent(Times(OfRegister(r), 1), OfRegister(Step(r)))
  {
    var q := if r[0] then [0] else [];
    OnceTheGenerator();
    assert Multiple(q) == Taken(r);
    forall e: nat
      ensures e in Times(OfRegister(r), 1) <==> e in Plus(OfRegister(Step(r)), Taken(r))
    {
      StepDividesAt(r, e);
    }
    assert Times(OfRegister(r), 1) == Plus(OfRegister(Step(r)), Multiple(q));
  }

  lemma OnceTheGenerator()
    ensures Multiple([0]) == GENERATOR
  {
    assert [0][1..] == [];
    forall e: nat
      ensures e in Times(GENERATOR, 0) <==> e in GENERATOR
    {
      TimesAt(GENERATOR, 0, e);
    }
    assert Plus(GENERATOR, {}) == GENERATOR;
  }

  lemma {:induction false} StepsDivide(r: Register, n: nat)
    ensures Congruent(Times(OfRegister(r), n), OfRegister(Steps(r, n)))
    decreases n
  {
    if n == 0 {
      assert Times(OfRegister(r), 0) == OfRegister(r);
      Reflexive(OfRegister(r));
    } else {
      var before := Steps(r, n - 1);
      StepsDivide(r, n - 1);
      ProductsAreCongruent(Times(OfRegister(r), n - 1), OfRegister(before), 1);
      TimesTwice(OfRegister(r), n - 1, 1);
      StepDivides(before);
      Transitive(Times(OfRegister(r), n), Times(OfRegister(before), 1), OfRegister(Step(before)));
    }
  }

  // ------------------------------------------------------------------
  // The message
  // ------------------------------------------------------------------

  /** A byte, its lowest bit first: that bit is the highest coefficient. */
  function OfByte(b: Byte): Poly {
    set e: nat | e < 8 && BitFromTop(b, e)
  }

  predicate BitFromTop(b: Byte, e: nat) {
    e < 8 && Bit(b, 7 - e)
  }

  predicate Bit(b: Byte, i: nat)
    requires i < 8
  {
    match i
    case 0 => b & 0x01 == 0x01
    case 1 => b & 0x02 == 0x02
    case 2 => b & 0x04 == 0x04
    case 3 => b & 0x08 == 0x08
    case 4 => b & 0x10 == 0x10
    case 5 => b & 0x20 == 0x20
    case 6 => b & 0x40 == 0x40
    case 7 => b & 0x80 == 0x80
  }

  /** The bytes in order, the first one highest. */
  function OfMessage(bytes: Bytes): Poly
    decreases |bytes|
  {
    if bytes == [] then {} else Plus(Times(OfByte(bytes[0]), 8 * (|bytes| - 1)), OfMessage(bytes[1..]))
  }

  lemma LowBit(b: Byte, i: nat)
    requires i < 32
    ensures Low(b)[i] <==> i < 8 && Bit(b, i)
  {
    Masks(b);
  }

  lemma Masks(b: Byte)
    ensures b & 0x01 == 0x01 <==> b & 1 != 0
    ensures b & 0x02 == 0x02 <==> b & 2 != 0
    ensures b & 0x04 == 0x04 <==> b & 4 != 0
    ensures b & 0x08 == 0x08 <==> b & 8 != 0
    ensures b & 0x10 == 0x10 <==> b & 16 != 0
    ensures b & 0x20 == 0x20 <==> b & 32 != 0
    ensures b & 0x40 == 0x40 <==> b & 64 != 0
    ensures b & 0x80 == 0x80 <==> b & 128 != 0
  {
  }

  lemma LowIsTheByte(b: Byte)
    ensures OfRegister(Low(b)) == Times(OfByte(b), 24)
  {
    forall e: nat
      ensures e in OfRegister(Low(b)) <==> e in Times(OfByte(b), 24)
    {
      TimesAt(OfByte(b), 24, e);
      if e < 32 {
        LowBit(b, 31 - e);
      }
    }
  }

  lemma AbsorbDivides(crc: Register, b: Byte)
    ensures Congruent(Plus(Times(OfRegister(crc), 8), Times(OfByte(b), 32)), OfRegister(Absorb(crc, b)))
  {
    StepsDivide(Xor(crc, Low(b)), 8);
    XorAdds(crc, Low(b));
    LowIsTheByte(b);
    TimesDistributes(OfRegister(crc), Times(OfByte(b), 24), 8);
    TimesTwice(OfByte(b), 24, 8);
  }

  /** What was read so far and one byte more, as one message. */
  lemma MessageGrows(crc: Poly, first: Poly, rest: Poly, m: nat)
    ensures Plus(Times(Plus(Times(crc, 8), Times(first, 32)), m), Times(rest, 32)) ==
            Plus(Times(crc, 8 + m), Times(Plus(Times(first, m), rest), 32))
  {
    var a, b, c := Times(crc, 8 + m), Times(first, 32 + m), Times(rest, 32);
    assert Times(Plus(Times(crc, 8), Times(first, 32)), m) == Plus(a, b) by {
      TimesDistributes(Times(crc, 8), Times(first, 32), m);
      TimesTwice(crc, 8, m);
      TimesTwice(first, 32, m);
    }
    assert Times(Plus(Times(first, m), rest), 32) == Plus(b, c) by {
      TimesDistributes(Times(first, m), rest, 32);
      TimesTwice(first, m, 32);
    }
    PlusAssociates(a, b, c);
  }

  lemma NothingRead(crc: Poly)
    ensures Congruent(Plus(Times(crc, 0), Times({}, 32)), crc)
  {
    assert Times(crc, 0) == crc && Times({}, 32) == {};
    assert Plus(crc, {}) == crc;
    Reflexive(crc);
  }

  lemma Continues(crc: Poly, first: Poly, rest: Poly, next: Poly, end: Poly, m: nat)
    requires Congruent(Plus(Times(crc, 8), Times(first, 32)), next)
    requires Congruent(Plus(Times(next, m), Times(rest, 32)), end)
    ensures Congruent(Plus(Times(crc, 8 + m), Times(Plus(Times(first, m), rest), 32)), end)
  {
    var read := Plus(Times(crc, 8), Times(first, 32));
    ProductsAreCongruent(read, next, m);
    SumsAreCongruent(Times(read, m), Times(next, m), Times(rest, 32));
    MessageGrows(crc, first, rest, m);
    Transitive(Plus(Times(read, m), Times(rest, 32)), Plus(Times(next, m), Times(rest, 32)), end);
  }

  lemma PlusAssociates(a: Poly, b: Poly, c: Poly)
    ensures Plus(Plus(a, b), c) == Plus(a, Plus(b, c))
  {
  }

  /** The register after a message: the remainder of the seed before the message,
      both raised as the standard raises them. */
  lemma {:induction false} UpdateDivides(crc: Register, bytes: Bytes)
    ensures Divides(crc, bytes, Update(crc, bytes))
    decreases |bytes|
  {
    if bytes == [] {
      NothingRead(OfRegister(crc));
    } else {
      UpdateDivides(Absorb(crc, bytes[0]), bytes[1..]);
      OneByteMore(crc, bytes[0], bytes[1..], Update(crc, bytes));
      assert [bytes[0]] + bytes[1..] == bytes;
    }
  }

  /** Everything read, against the register it leaves. */
  ghost predicate Divides(crc: Register, bytes: Bytes, end: Register) {
    Congruent(Plus(Times(OfRegister(crc), 8 * |bytes|), Times(OfMessage(bytes), 32)), OfRegister(end))
  }

  lemma MessageOf(b: Byte, rest: Bytes)
    ensures OfMessage([b] + rest) == Plus(Times(OfByte(b), 8 * |rest|), OfMessage(rest))
  {
    assert ([b] + rest)[1..] == rest;
  }

  lemma OneByteMore(crc: Register, b: Byte, rest: Bytes, end: Register)
    requires Divides(Absorb(crc, b), rest, end)
    ensures Divides(crc, [b] + rest, end)
  {
    AbsorbDivides(crc, b);
    Continues(OfRegister(crc), OfByte(b), OfMessage(rest), OfRegister(Absorb(crc, b)), OfRegister(end), 8 * |rest|);
    MessageOf(b, rest);
    assert 8 * |[b] + rest| == 8 * |rest| + 8;
  }

  /** The checksum of any content is the complement of the remainder: of degree
      under 32, and congruent to 32 ones before the content, raised by 32. */
  lemma ChecksumIsTheRemainder(bytes: Bytes)
    ensures var remainder := Plus(OfRegister(Checksum(bytes)), ALL);
            && (forall e :: e in remainder ==> e < 32)
            && Congruent(Plus(Times(ALL, 8 * |bytes|), Times(OfMessage(bytes), 32)), remainder)
  {
    UpdateDivides(Ones(), bytes);
    OnesAreAll();
    XorAdds(Update(Ones(), bytes), Ones());
    PlusCancels(OfRegister(Update(Ones(), bytes)), ALL);
  }

  lemma OnesAreAll()
    ensures OfRegister(Ones()) == ALL
  {
  }

  lemma PlusCancels(a: Poly, b: Poly)
    ensures Plus(Plus(a, b), b) == a
  {
  }

  /** Bit `i` of the number recorded is the coefficient of x^(31 - i). */
  lemma {:induction false} ValueBit(bits: seq<bool>, i: nat)
    requires i < |bits|
    ensures Value(bits) / Pow2(i) % 2 == 1 <==> bits[i]
    decreases i
  {
    if i > 0 {
      ValueBit(bits[1..], i - 1);
      Halve(Value(bits), Pow2(i - 1));
      assert Value(bits) / 2 == Value(bits[1..]);
    }
  }

  lemma Halve(n: nat, p: nat)
    requires p > 0
    ensures n / (2 * p) == n / 2 / p
  {
    var q, r := n / 2 / p, n / 2 % p;
    assert n / 2 == q * p + r;
    assert n == 2 * (q * p + r) + n % 2;
    assert n == (2 * p) * q + (2 * r + n % 2) && 2 * r + n % 2 < 2 * p;
    DivisionIs(n, 2 * p, q, 2 * r + n % 2);
  }

  lemma {:induction false} ProductsGrow(d: nat, a: nat, b: nat)
    ensures a <= b ==> d * a <= d * b
    decreases b
  {
    if a < b {
      ProductsGrow(d, a, b - 1);
      assert d * b == d * (b - 1) + d;
    }
  }

  lemma DivisionIs(n: nat, d: nat, q: nat, r: nat)
    requires d > 0 && n == d * q + r && r < d
    ensures n / d == q
  {
    var k := n / d;
    assert n == d * k + n % d;
    assert d * (k + 1) == d * k + d && d * (q + 1) == d * q + d;
    ProductsGrow(d, k + 1, q);
    ProductsGrow(d, q + 1, k);
  }
}
