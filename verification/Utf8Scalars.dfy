/** Text is exactly the encodings of Unicode scalar values, one after another: the bit
    distribution of table 3-6 of the Unicode Standard against the byte ranges of its
    table 3-7. */
module Utf8Scalars {
  import opened Base
  import Blocks
  import opened Utf8

  /** A code point that is not a surrogate. */
  predicate IsScalar(c: bv32) {
    c <= 0x10_FFFF && !(0xD800 <= c <= 0xDFFF)
  }

  /** The low six bits in a continuation byte. */
  function Tail(c: bv32): Byte {
    (0x80 | (c & 0x3F)) as Byte
  }

  /** What is left of a code point of so many bytes, in its first byte. */
  function Lead(c: bv32, width: nat): Byte
    requires IsScalar(c) && (if width == 2 then 0x80 <= c < 0x800 else if width == 3 then 0x800 <= c < 0x1_0000 else width == 4 && 0x1_0000 <= c)
  {
    if width == 2 then (0xC0 | (c >> 6)) as Byte
    else if width == 3 then (0xE0 | (c >> 12)) as Byte
    else assert c >> 18 <= 4; (0xF0 | (c >> 18)) as Byte
  }

  function Encoded(c: bv32): (bytes: Bytes)
    requires IsScalar(c)
    ensures 1 <= |bytes| <= 4
  {
    if c < 0x80 then [c as Byte]
    else if c < 0x800 then [Lead(c, 2), Tail(c)]
    else if c < 0x1_0000 then [Lead(c, 3), Tail(c >> 6), Tail(c)]
    else [Lead(c, 4), Tail(c >> 12), Tail(c >> 6), Tail(c)]
  }

  lemma TailStands(c: bv32)
    ensures Continuation(Tail(c))
  {
  }

  lemma LeadOfTwo(c: bv32)
    requires 0x80 <= c < 0x800
    ensures Announced(Lead(c, 2)) == 2
  {
  }

  lemma LeadOfThree(c: bv32)
    requires 0x800 <= c < 0x1_0000 && IsScalar(c)
    ensures Announced(Lead(c, 3)) == 3 && Follows(Lead(c, 3), Tail(c >> 6))
  {
  }

  lemma LeadOfFour(c: bv32)
    requires 0x1_0000 <= c <= 0x10_FFFF
    ensures Announced(Lead(c, 4)) == 4 && Follows(Lead(c, 4), Tail(c >> 12))
  {
  }

  /** Every encoding is one whole character, whatever follows it. */
  lemma EncodedIsWhole(c: bv32, more: Bytes)
    requires IsScalar(c)
    ensures Scan(Encoded(c) + more) == (|Encoded(c)|, true)
  {
    TailStands(c);
    TailStands(c >> 6);
    TailStands(c >> 12);
    if c < 0x80 {
      assert Announced(c as Byte) == 1;
    } else if c < 0x800 {
      LeadOfTwo(c);
    } else if c < 0x1_0000 {
      LeadOfThree(c);
    } else {
      LeadOfFour(c);
    }
  }

  // Back from bytes.

  function Six(b: Byte): bv32 {
    (b & 0x3F) as bv32
  }

  function FromTwo(a: Byte, b: Byte): bv32 {
    (((a & 0x1F) as bv32) << 6) | Six(b)
  }

  function FromThree(a: Byte, b: Byte, c: Byte): bv32 {
    (((a & 0x0F) as bv32) << 12) | (Six(b) << 6) | Six(c)
  }

  function FromFour(a: Byte, b: Byte, c: Byte, d: Byte): bv32 {
    (((a & 0x07) as bv32) << 18) | (Six(b) << 12) | (Six(c) << 6) | Six(d)
  }

  lemma TwoAreEncoded(a: Byte, b: Byte)
    requires Announced(a) == 2 && Continuation(b)
    ensures var c := FromTwo(a, b); 0x80 <= c < 0x800 && Lead(c, 2) == a && Tail(c) == b
  {
  }

  lemma ThreeAreEncoded(a: Byte, b: Byte, d: Byte)
    requires Announced(a) == 3 && Follows(a, b) && Continuation(d)
    ensures var c := FromThree(a, b, d);
            0x800 <= c < 0x1_0000 && IsScalar(c) && Lead(c, 3) == a && Tail(c >> 6) == b && Tail(c) == d
  {
  }

  lemma FourAreEncoded(a: Byte, b: Byte, d: Byte, e: Byte)
    requires Announced(a) == 4 && Follows(a, b) && Continuation(d) && Continuation(e)
    ensures var c := FromFour(a, b, d, e);
            0x1_0000 <= c <= 0x10_FFFF && Lead(c, 4) == a && Tail(c >> 12) == b && Tail(c >> 6) == d && Tail(c) == e
  {
  }

  ghost predicate IsEncoding(bytes: Bytes) {
    exists c :: IsScalar(c) && Encoded(c) == bytes
  }

  lemma OneIsEncoding(a: Byte)
    requires Announced(a) == 1
    ensures IsEncoding([a])
  {
    assert IsScalar(a as bv32) && Encoded(a as bv32) == [a];
  }

  lemma TwoAreEncoding(a: Byte, b: Byte)
    requires Announced(a) == 2 && Continuation(b)
    ensures IsEncoding([a, b])
  {
    TwoAreEncoded(a, b);
    assert Encoded(FromTwo(a, b)) == [a, b];
  }

  lemma ThreeAreEncoding(a: Byte, b: Byte, c: Byte)
    requires Announced(a) == 3 && Follows(a, b) && Continuation(c)
    ensures IsEncoding([a, b, c])
  {
    ThreeAreEncoded(a, b, c);
    assert Encoded(FromThree(a, b, c)) == [a, b, c];
  }

  lemma FourAreEncoding(a: Byte, b: Byte, c: Byte, d: Byte)
    requires Announced(a) == 4 && Follows(a, b) && Continuation(c) && Continuation(d)
    ensures IsEncoding([a, b, c, d])
  {
    FourAreEncoded(a, b, c, d);
    assert Encoded(FromFour(a, b, c, d)) == [a, b, c, d];
  }

  /** Every whole character is the encoding of a scalar value. */
  lemma WholeIsEncoding(s: Bytes)
    requires s != [] && Scan(s).1
    ensures IsEncoding(s[..Scan(s).0])
  {
    var width := Announced(s[0]);
    if width == 1 {
      OneIsEncoding(s[0]);
      assert s[..1] == [s[0]];
    } else if width == 2 {
      TwoAreEncoding(s[0], s[1]);
      assert s[..2] == [s[0], s[1]];
    } else if width == 3 {
      ThreeAreEncoding(s[0], s[1], s[2]);
      assert s[..3] == [s[0], s[1], s[2]];
    } else {
      FourAreEncoding(s[0], s[1], s[2], s[3]);
      assert s[..4] == [s[0], s[1], s[2], s[3]];
    }
  }

  ghost predicate AllScalars(cs: seq<bv32>) {
    forall i :: 0 <= i < |cs| ==> IsScalar(cs[i])
  }

  function EncodedAll(cs: seq<bv32>): Bytes
    requires AllScalars(cs)
    decreases |cs|
  {
    if cs == [] then [] else Encoded(cs[0]) + EncodedAll(cs[1..])
  }

  lemma {:induction false} ScalarsAreText(cs: seq<bv32>)
    requires AllScalars(cs)
    ensures Text(EncodedAll(cs))
    decreases |cs|
  {
    if cs != [] {
      ScalarsAreText(cs[1..]);
      EncodedIsWhole(cs[0], EncodedAll(cs[1..]));
      assert EncodedAll(cs)[|Encoded(cs[0])|..] == EncodedAll(cs[1..]);
    }
  }

  lemma FirstScalar(first: Bytes, rest: seq<bv32>) returns (cs: seq<bv32>)
    requires IsEncoding(first) && AllScalars(rest)
    ensures AllScalars(cs) && EncodedAll(cs) == first + EncodedAll(rest)
  {
    var c :| IsScalar(c) && Encoded(c) == first;
    cs := [c] + rest;
    assert cs[1..] == rest;
  }

  lemma FirstCharacter(s: Bytes) returns (n: nat)
    requires s != [] && Text(s)
    ensures 1 <= n <= |s| && IsEncoding(s[..n]) && Text(s[n..])
  {
    n := Scan(s).0;
    WholeIsEncoding(s);
  }

  ghost predicate Begins(p: Bytes -> bool, s: Bytes) {
    exists n :: 1 <= n <= |s| && IsEncoding(s[..n]) && p(s[n..])
  }

  ghost predicate Continues(p: Bytes -> bool) {
    forall t: Bytes :: p(t) && t != [] ==> Begins(p, t)
  }

  lemma NextPiece(p: Bytes -> bool, s: Bytes) returns (n: nat)
    requires p(s) && s != [] && Continues(p)
    ensures 1 <= n <= |s| && IsEncoding(s[..n]) && p(s[n..])
  {
    assert Begins(p, s);
    n :| 1 <= n <= |s| && IsEncoding(s[..n]) && p(s[n..]);
  }

  /** Bytes that begin with an encoding as long as there are any. */
  lemma {:induction false} BeginningsAreScalars(p: Bytes -> bool, s: Bytes) returns (cs: seq<bv32>)
    requires p(s) && Continues(p)
    ensures AllScalars(cs) && EncodedAll(cs) == s
    decreases |s|
  {
    if s == [] {
      cs := [];
    } else {
      var n := NextPiece(p, s);
      var rest := BeginningsAreScalars(p, s[n..]);
      cs := FirstScalar(s[..n], rest);
      assert s[..n] + s[n..] == s;
    }
  }

  lemma TextIsScalars(s: Bytes) returns (cs: seq<bv32>)
    requires Text(s)
    ensures AllScalars(cs) && EncodedAll(cs) == s
  {
    forall t: Bytes | Text(t) && t != []
      ensures Begins(Text, t)
    {
      var n := FirstCharacter(t);
    }
    cs := BeginningsAreScalars(Text, s);
  }

  /** Well-formed text is exactly what encodes some scalar values. */
  lemma TextExactly(s: Bytes)
    ensures Text(s) <==> exists cs :: AllScalars(cs) && EncodedAll(cs) == s
  {
    if Text(s) {
      var cs := TextIsScalars(s);
    }
    forall cs | AllScalars(cs) && EncodedAll(cs) == s
      ensures Text(s)
    {
      ScalarsAreText(cs);
    }
  }

  // Ill-formed runs.

  /** The replacement character is U+FFFD. */
  lemma ReplacementIs()
    ensures IsScalar(0xFFFD) && REPLACEMENT == Encoded(0xFFFD)
  {
  }

  /** The start of some character, if not all of it. */
  ghost predicate Starts(bytes: Bytes) {
    exists whole :: IsEncoding(whole) && bytes <= whole
  }

  lemma StartsWith(bytes: Bytes, whole: Bytes)
    requires IsEncoding(whole) && bytes <= whole
    ensures Starts(bytes)
  {
  }

  lemma EncodingIsWhole(whole: Bytes)
    requires IsEncoding(whole)
    ensures whole != [] && Scan(whole) == (|whole|, true)
  {
    var c :| IsScalar(c) && Encoded(c) == whole;
    EncodedIsWhole(c, []);
    assert whole + [] == whole;
  }

  /** A scan takes at least what it shares with some character, or all of another. */
  lemma SharedIsTaken(s: Bytes, whole: Bytes, k: nat)
    requires IsEncoding(whole) && 1 <= k <= |whole| && k <= |s| && s[..k] == whole[..k]
    ensures Scan(s).1 || Scan(s).0 >= k
  {
    EncodingIsWhole(whole);
    assert forall i :: 0 <= i < k ==> whole[i] == whole[..k][i] == s[..k][i] == s[i];
  }

  lemma RunIsAStart(s: Bytes)
    requires s != [] && !Scan(s).1 && Scan(s).0 > 1
    ensures Starts(s[..Scan(s).0])
  {
    var n := Scan(s).0;
    if n == 3 {
      FourAreEncoding(s[0], s[1], s[2], 0x80);
      StartsWith(s[..3], [s[0], s[1], s[2], 0x80]);
    } else if Announced(s[0]) == 3 {
      ThreeAreEncoding(s[0], s[1], 0x80);
      StartsWith(s[..2], [s[0], s[1], 0x80]);
    } else {
      FourAreEncoding(s[0], s[1], 0x80, 0x80);
      StartsWith(s[..2], [s[0], s[1], 0x80, 0x80]);
    }
  }

  /** What is replaced is a maximal subpart: the longest start of a character there
      is, or else a single byte. */
  lemma MaximalSubpart(s: Bytes)
    requires s != [] && !Scan(s).1
    ensures var n := Scan(s).0;
            && (n > 1 ==> Starts(s[..n])) && (n < |s| ==> !Starts(s[..n + 1]))
  {
    if Scan(s).0 > 1 {
      RunIsAStart(s);
    }
    var k := Scan(s).0 + 1;
    if k <= |s| && Starts(s[..k]) {
      var whole :| IsEncoding(whole) && s[..k] <= whole;
      SharedIsTaken(s, whole, k);
      assert false;
    }
  }
}
