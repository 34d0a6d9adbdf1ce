/** The bit-by-bit IEEE CRC-32 of the archive writer. The 32-bit register is its
    sequence of bits, least significant first: shifting right drops the first. */
module Crc32 {
  import opened Base
  import Blocks

  type Register = r: seq<bool> | |r| == 32 witness seq(32, _ => false)

  function Falses(n: nat): (bits: seq<bool>)
    ensures |bits| == n
  {
    seq(n, i => false)
  }

  function Xor(x: Register, y: Register): Register {
    seq(32, i requires 0 <= i < 32 => x[i] != y[i])
  }

  function Pow2(n: nat): (p: nat)
    ensures p > 0
  {
    if n == 0 then 1 else 2 * Pow2(n - 1)
  }

  /** The number a sequence of bits denotes. */
  function Value(bits: seq<bool>): nat
    decreases |bits|
  {
    if bits == [] then 0 else (if bits[0] then 1 else 0) + 2 * Value(bits[1..])
  }

  /** The bits of the reversed polynomial 0xEDB88320. */
  function Polynomial(): Register {
    seq(32, i requires 0 <= i < 32 => 0xEDB8_8320 / Pow2(i) % 2 == 1)
  }

  /** All ones: the seed, and what the final complement mixes in. */
  function Ones(): Register {
    seq(32, i requires 0 <= i < 32 => true)
  }

  /** A byte in the low end of the register. */
  function Low(b: Byte): Register {
    ByteBits(b) + Falses(24)
  }

  function ByteBits(b: Byte): (bits: seq<bool>)
    ensures |bits| == 8
  {
    [b & 1 != 0, b & 2 != 0, b & 4 != 0, b & 8 != 0, b & 16 != 0, b & 32 != 0, b & 64 != 0, b & 128 != 0]
  }

  function Step(crc: Register): Register {
    if crc[0] then Xor(crc[1..] + [false], Polynomial()) else crc[1..] + [false]
  }

  function Steps(crc: Register, n: nat): Register
    decreases n, crc
  {
    if n == 0 then crc else Step(Steps(crc, n - 1))
  }

  /** One byte: eight steps of the register with the byte mixed in. */
  function Absorb(crc: Register, byte: Byte): Register {
    Steps(Xor(crc, Low(byte)), 8)
  }

  function Update(crc: Register, bytes: Bytes): Register
    decreases |bytes|
  {
    if bytes == [] then crc else Update(Absorb(crc, bytes[0]), bytes[1..])
  }

  function Checksum(bytes: Bytes): Register {
    Xor(Update(Ones(), bytes), Ones())
  }

  method UpdateBytes(initial: Register, bytes: Bytes) returns (crc: Register)
    ensures crc == Update(initial, bytes)
  {
    crc := initial;
    for i := 0 to |bytes|
      invariant Update(initial, bytes) == Update(crc, bytes[i..])
    {
      assert bytes[i..][0] == bytes[i] && bytes[i..][1..] == bytes[i + 1..];
      crc := Xor(crc, Low(bytes[i]));
      ghost var start := crc;
      for k := 0 to 8
        invariant crc == Steps(start, k)
      {
        var shifted := crc[1..] + [false];
        crc := if crc[0] then Xor(shifted, Polynomial()) else shifted;
      }
    }
  }

  /** Chunking is invisible. */
  lemma {:induction false} UpdateConcat(crc: Register, first: Bytes, second: Bytes)
    ensures Update(crc, first + second) == Update(Update(crc, first), second)
    decreases |first|
  {
    if first == [] {
      assert first + second == second;
    } else {
      assert (first + second)[1..] == first[1..] + second;
      UpdateConcat(Absorb(crc, first[0]), first[1..], second);
    }
  }

  /** `crc32_and_size` over the chunks that successive reads return: the checksum
      and size of their concatenation, refused beyond 32 bits. */
  method ChecksumAndSize(chunks: seq<Bytes>) returns (result: Result<(Register, nat), string>)
    ensures var content := Blocks.Concat(chunks);
            result == if |content| <= U32_MAX then Ok((Checksum(content), |content|)) else Err("folder is too large to archive")
  {
    var crc := Ones();
    var size := 0;
    var i := 0;
    while i < |chunks|
      invariant 0 <= i <= |chunks|
      invariant crc == Update(Ones(), Blocks.Concat(chunks[..i])) && size == |Blocks.Concat(chunks[..i])|
    {
      Blocks.JoinAt(Blocks.Whole, chunks, i);
      UpdateConcat(Ones(), Blocks.Concat(chunks[..i]), chunks[i]);
      crc := UpdateBytes(crc, chunks[i]);
      size := size + |chunks[i]|;
      i := i + 1;
    }
    assert chunks[..i] == chunks;
    if size > U32_MAX {
      return Err("folder is too large to archive");
    }
    return Ok((Xor(crc, Ones()), size));
  }

  // ------------------------------------------------------------------
  // The register map is a bijection
  // ------------------------------------------------------------------

  lemma XorCancels(x: Register, y: Register)
    ensures Xor(Xor(x, y), y) == x
  {
  }

  /** The top bit tells whether the polynomial was mixed in. */
  function Unstep(crc: Register): Register {
    if crc[31] then [true] + Xor(crc, Polynomial())[..31] else [false] + crc[..31]
  }

  lemma TopOfPolynomial()
    ensures Polynomial()[31]
  {
    PowersOfTwo();
    assert Polynomial()[31] == (0xEDB8_8320 / Pow2(31) % 2 == 1);
  }

  lemma PowersOfTwo()
    ensures Pow2(31) == 0x8000_0000
  {
    assert Pow2(15) == 0x8000;
    assert Pow2(23) == 0x80_0000;
  }

  lemma XorAt(x: Register, y: Register, i: nat)
    requires i < 32
    ensures Xor(x, y)[i] == (x[i] != y[i])
  {
  }

  lemma StepInverts(crc: Register)
    ensures Unstep(Step(crc)) == crc
  {
    var shifted := crc[1..] + [false];
    assert shifted[..31] == crc[1..] && crc == [crc[0]] + crc[1..];
    if crc[0] {
      TopOfPolynomial();
      XorAt(shifted, Polynomial(), 31);
      XorCancels(shifted, Polynomial());
      assert Step(crc) == Xor(shifted, Polynomial());
    } else {
      assert Step(crc) == shifted;
    }
  }

  lemma UnstepInverts(crc: Register)
    ensures Step(Unstep(crc)) == crc
  {
    if crc[31] {
      var mixed := Xor(crc, Polynomial());
      TopOfPolynomial();
      XorAt(crc, Polynomial(), 31);
      XorCancels(crc, Polynomial());
      assert mixed == mixed[..31] + [false];
      assert ([true] + mixed[..31])[1..] == mixed[..31];
      assert Unstep(crc) == [true] + mixed[..31];
    } else {
      assert crc == crc[..31] + [false];
      assert ([false] + crc[..31])[1..] == crc[..31];
      assert Unstep(crc) == [false] + crc[..31];
    }
  }

  function Unsteps(crc: Register, n: nat): Register
    decreases n, crc
  {
    if n == 0 then crc else Unsteps(Unstep(crc), n - 1)
  }

  lemma {:induction false} StepsInvert(crc: Register, n: nat)
    ensures Unsteps(Steps(crc, n), n) == crc
    decreases n
  {
    if n > 0 {
      StepInverts(Steps(crc, n - 1));
      StepsInvert(crc, n - 1);
    }
  }

  lemma {:induction false} UnstepsInvert(crc: Register, n: nat)
    ensures Steps(Unsteps(crc, n), n) == crc
    decreases n
  {
    if n > 0 {
      UnstepsInvert(Unstep(crc), n - 1);
      UnstepInverts(crc);
    }
  }

  /** The state before `bytes`, recovered from the state after them. */
  function Rewind(crc: Register, bytes: Bytes): Register
    decreases |bytes|
  {
    if bytes == [] then crc
    else Xor(Unsteps(Rewind(crc, bytes[1..]), 8), Low(bytes[0]))
  }

  /** For any fixed bytes, updating is a bijection of the 32-bit state. */
  lemma {:induction false} UpdateIsBijective(crc: Register, bytes: Bytes)
    ensures Rewind(Update(crc, bytes), bytes) == crc
    ensures Update(Rewind(crc, bytes), bytes) == crc
    decreases |bytes|
  {
    if bytes != [] {
      var b := Low(bytes[0]);
      UpdateIsBijective(Absorb(crc, bytes[0]), bytes[1..]);
      StepsInvert(Xor(crc, b), 8);
      XorCancels(crc, b);
      var before := Rewind(crc, bytes[1..]);
      XorCancels(Unsteps(before, 8), b);
      UnstepsInvert(before, 8);
      UpdateIsBijective(crc, bytes[1..]);
    }
  }

  // ------------------------------------------------------------------
  // Burst detection
  // ------------------------------------------------------------------

  /** The register shifted left, its vacated low bits clear. */
  function Up(y: Register, n: nat): Register
    requires n <= 32
  {
    Falses(n) + y[..32 - n]
  }

  predicate Clear(y: Register, n: nat)
    requires n <= 32
  {
    forall i :: 32 - n <= i < 32 ==> !y[i]
  }

  /** Steps are linear over bits that are merely shifted along. */
  lemma StepShifts(x: Register, y: Register)
    requires !y[31]
    ensures Step(Xor(x, Up(y, 1))) == Xor(Step(x), y)
  {
    var mixed := Xor(x, Up(y, 1));
    assert mixed[0] == x[0];
    assert mixed[1..] + [false] == Xor(x[1..] + [false], y);
  }

  lemma {:induction false} StepsShift(x: Register, y: Register, n: nat)
    requires n <= 32 && Clear(y, n)
    ensures Steps(Xor(x, Up(y, n)), n) == Xor(Steps(x, n), y)
    decreases n
  {
    if n == 0 {
      assert Up(y, 0) == y;
    } else {
      assert Up(y, n) == Up(Up(y, 1), n - 1);
      StepsShift(x, Up(y, 1), n - 1);
      StepShifts(Steps(x, n - 1), y);
    }
  }

  lemma {:induction false} StepsAdd(x: Register, m: nat, n: nat)
    ensures Steps(Steps(x, m), n) == Steps(x, m + n)
    decreases n
  {
    if n > 0 {
      StepsAdd(x, m, n - 1);
    }
  }

  function Bits(bytes: Bytes): (bits: seq<bool>)
    ensures |bits| == 8 * |bytes|
    decreases |bytes|
  {
    if bytes == [] then [] else ByteBits(bytes[0]) + Bits(bytes[1..])
  }

  /** Up to four bytes as the word the register meets them as. */
  function Word(bytes: Bytes): Register
    requires |bytes| <= 4
  {
    Bits(bytes) + Falses(32 - 8 * |bytes|)
  }

  lemma ByteBitsAreInjective(a: Byte, b: Byte)
    requires ByteBits(a) == ByteBits(b)
    ensures a == b
  {
    assert ByteBits(a)[0] == ByteBits(b)[0] && ByteBits(a)[1] == ByteBits(b)[1];
    assert ByteBits(a)[2] == ByteBits(b)[2] && ByteBits(a)[3] == ByteBits(b)[3];
    assert ByteBits(a)[4] == ByteBits(b)[4] && ByteBits(a)[5] == ByteBits(b)[5];
    assert ByteBits(a)[6] == ByteBits(b)[6] && ByteBits(a)[7] == ByteBits(b)[7];
  }

  lemma {:induction false} BitsAreInjective(u: Bytes, v: Bytes)
    requires |u| == |v| && Bits(u) == Bits(v)
    ensures u == v
    decreases |u|
  {
    if u != [] {
      assert ByteBits(u[0]) == Bits(u)[..8] && ByteBits(v[0]) == Bits(v)[..8];
      assert Bits(u[1..]) == Bits(u)[8..] && Bits(v[1..]) == Bits(v)[8..];
      ByteBitsAreInjective(u[0], v[0]);
      BitsAreInjective(u[1..], v[1..]);
      assert u == [u[0]] + u[1..] && v == [v[0]] + v[1..];
    }
  }

  lemma WordGrows(bytes: Bytes)
    requires 0 < |bytes| <= 4
    ensures Clear(Word(bytes[1..]), 8)
    ensures forall x: Register :: Xor(Xor(x, Low(bytes[0])), Up(Word(bytes[1..]), 8)) == Xor(x, Word(bytes))
  {
    var first, rest := Low(bytes[0]), Up(Word(bytes[1..]), 8);
    assert Word(bytes) == ByteBits(bytes[0]) + Word(bytes[1..])[..24];
    forall x: Register
      ensures Xor(Xor(x, first), rest) == Xor(x, Word(bytes))
    {
      assert Xor(Xor(x, first), rest) == Xor(x, Word(bytes));
    }
  }

  /** Absorbing up to four bytes one by one is mixing in their word at once. */
  lemma {:induction false} UpdateIsWordwise(crc: Register, bytes: Bytes)
    requires |bytes| <= 4
    ensures Update(crc, bytes) == Steps(Xor(crc, Word(bytes)), 8 * |bytes|)
    decreases |bytes|
  {
    if bytes == [] {
      assert Xor(crc, Word(bytes)) == crc;
    } else {
      var mixed := Xor(crc, Low(bytes[0]));
      UpdateIsWordwise(Absorb(crc, bytes[0]), bytes[1..]);
      WordGrows(bytes);
      StepsShift(mixed, Word(bytes[1..]), 8);
      StepsAdd(Xor(crc, Word(bytes)), 8, 8 * |bytes[1..]|);
    }
  }

  lemma XorCancelsLeft(x: Register, y: Register, z: Register)
    requires Xor(x, y) == Xor(x, z)
    ensures y == z
  {
    forall i | 0 <= i < 32
      ensures y[i] == z[i]
    {
      assert Xor(x, y)[i] == Xor(x, z)[i];
    }
  }

  lemma ShortUpdatesDiffer(crc: Register, u: Bytes, v: Bytes)
    requires |u| == |v| <= 4 && Update(crc, u) == Update(crc, v)
    ensures u == v
  {
    UpdateIsWordwise(crc, u);
    UpdateIsWordwise(crc, v);
    StepsInvert(Xor(crc, Word(u)), 8 * |u|);
    StepsInvert(Xor(crc, Word(v)), 8 * |u|);
    XorCancelsLeft(crc, Word(u), Word(v));
    assert Bits(u) == Word(u)[..8 * |u|] && Bits(v) == Word(v)[..8 * |u|];
    BitsAreInjective(u, v);
  }

  lemma UpdateSplits(crc: Register, before: Bytes, u: Bytes, after: Bytes)
    ensures Update(crc, before + u + after) == Update(Update(Update(crc, before), u), after)
  {
    UpdateConcat(crc, before + u, after);
    UpdateConcat(crc, before, u);
  }

  /** A difference confined to four consecutive bytes always changes the
      checksum: in particular, one changed byte is never missed. */
  lemma BurstsAreDetected(before: Bytes, u: Bytes, v: Bytes, after: Bytes)
    requires |u| == |v| <= 4 && u != v
    ensures Checksum(before + u + after) != Checksum(before + v + after)
  {
    var s := Update(Ones(), before);
    var x, y := Update(s, u), Update(s, v);
    UpdateSplits(Ones(), before, u, after);
    UpdateSplits(Ones(), before, v, after);
    if Checksum(before + u + after) == Checksum(before + v + after) {
      XorCancels(Update(x, after), Ones());
      XorCancels(Update(y, after), Ones());
      UpdateIsBijective(x, after);
      UpdateIsBijective(y, after);
      ShortUpdatesDiffer(s, u, v);
    }
  }

  // ------------------------------------------------------------------
  // The register as a number
  // ------------------------------------------------------------------

  lemma {:induction false} ValueIsBounded(bits: seq<bool>)
    ensures Value(bits) < Pow2(|bits|)
    decreases |bits|
  {
    if bits != [] {
      ValueIsBounded(bits[1..]);
    }
  }

  lemma {:induction false} ValueIsInjective(x: seq<bool>, y: seq<bool>)
    requires |x| == |y| && Value(x) == Value(y)
    ensures x == y
    decreases |x|
  {
    if x != [] {
      ValueIsInjective(x[1..], y[1..]);
      assert x == [x[0]] + x[1..] && y == [y[0]] + y[1..];
    }
  }
}
