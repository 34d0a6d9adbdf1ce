/** UTF-8, and its lossy form as `to_string_lossy` makes it: every maximal
    ill-formed run becomes one U+FFFD (Unicode Standard, section 3.9, substitution
    of maximal subparts). */
module Utf8 {
  import opened Base
  import Blocks

  const REPLACEMENT: Bytes := [0xEF, 0xBF, 0xBD]

  predicate Continuation(b: Byte) {
    0x80 <= b <= 0xBF
  }

  /** The bytes that may follow a leading byte of three or four. */
  predicate Follows(first: Byte, second: Byte) {
    if first == 0xE0 then 0xA0 <= second <= 0xBF
    else if first == 0xED then 0x80 <= second <= 0x9F
    else if first == 0xF0 then 0x90 <= second <= 0xBF
    else if first == 0xF4 then 0x80 <= second <= 0x8F
    else Continuation(second)
  }

  /** The length a leading byte announces; none for the bytes that lead nothing. */
  function Announced(first: Byte): nat {
    if first < 0x80 then 1
    else if first < 0xC2 then 0
    else if first < 0xE0 then 2
    else if first < 0xF0 then 3
    else if first < 0xF5 then 4
    else 0
  }

  /** Whether the byte at `i` may stand there in a character led by `s[0]`. */
  predicate Stands(s: Bytes, i: nat)
    requires s != []
  {
    i < |s| && if i == 1 && Announced(s[0]) > 2 then Follows(s[0], s[1]) else Continuation(s[i])
  }

  /** How far a character, or the start of one, reaches; and whether it is whole. */
  function Scan(s: Bytes): (r: (nat, bool))
    requires s != []
    ensures 1 <= r.0 <= |s|
  {
    var width := Announced(s[0]);
    if width <= 1 then (1, width == 1)
    else if !Stands(s, 1) then (1, false)
    else if width == 2 then (2, true)
    else if !Stands(s, 2) then (2, false)
    else if width == 3 then (3, true)
    else if !Stands(s, 3) then (3, false)
    else (4, true)
  }

  function Lossy(s: Bytes): Bytes
    decreases |s|
  {
    if s == [] then []
    else
      var (n, whole) := Scan(s);
      (if whole then s[..n] else REPLACEMENT) + Lossy(s[n..])
  }

  /** Well-formed UTF-8. */
  predicate Text(s: Bytes)
    decreases |s|
  {
    s == [] || (Scan(s).1 && Text(s[Scan(s).0..]))
  }

  /** A whole character is recognised whatever comes after it. */
  lemma WholeStands(s: Bytes, t: Bytes)
    requires s != [] && Scan(s).1 && |t| >= Scan(s).0 && t[..Scan(s).0] == s[..Scan(s).0]
    ensures Scan(t) == Scan(s)
  {
    assert forall i :: 0 <= i < Scan(s).0 ==> t[i] == t[..Scan(s).0][i] == s[i];
  }

  lemma FirstStands(text: Bytes, more: Bytes)
    requires text != [] && Scan(text).1
    ensures var n := Scan(text).0;
            Scan(text + more) == (n, true) && (text + more)[..n] == text[..n] && (text + more)[n..] == text[n..] + more
  {
    WholeStands(text, text + more);
  }

  lemma {:induction false} TextAppends(text: Bytes, more: Bytes)
    requires Text(text)
    ensures Lossy(text + more) == text + Lossy(more)
    decreases |text|
  {
    if text == [] {
      assert text + more == more;
    } else {
      var n := Scan(text).0;
      FirstStands(text, more);
      assert Lossy(text + more) == text[..n] + Lossy(text[n..] + more);
      TextAppends(text[n..], more);
      Blocks.Associate(text[..n], text[n..], Lossy(more));
      assert text[..n] + text[n..] == text;
    }
  }

  lemma {:induction false} TextConcatenates(text: Bytes, more: Bytes)
    requires Text(text) && Text(more)
    ensures Text(text + more)
    decreases |text|
  {
    if text == [] {
      assert text + more == more;
    } else {
      FirstStands(text, more);
      TextConcatenates(text[Scan(text).0..], more);
    }
  }

  /** What is recorded is always well-formed. */
  lemma {:induction false} LossyIsText(s: Bytes)
    ensures Text(Lossy(s))
    decreases |s|
  {
    if s != [] {
      var (n, whole) := Scan(s);
      LossyIsText(s[n..]);
      var shown := if whole then s[..n] else REPLACEMENT;
      assert Text(shown) by {
        if whole {
          WholeStands(s, s[..n]);
          assert s[..n][n..] == [];
        } else {
          assert Scan(REPLACEMENT) == (3, true) && REPLACEMENT[3..] == [];
        }
      }
      TextConcatenates(shown, Lossy(s[n..]));
    }
  }

  /** A component is recorded as it is exactly when it is well-formed. */
  lemma LossyKeepsExactly(s: Bytes)
    ensures Lossy(s) == s <==> Text(s)
  {
    LossyIsText(s);
    if Text(s) {
      TextAppends(s, []);
      assert s + [] == s;
    }
  }

  /** The bytes that are in no character: each is one ill-formed run. */
  predicate Never(b: Byte) {
    b == 0xC0 || b == 0xC1 || 0xF5 <= b
  }

  /** Names that differ only in such bytes are recorded alike, after any well-formed
      start and before anything; and like the name that spells the replacement out. */
  lemma LossyCollides(text: Bytes, x: Byte, y: Byte, more: Bytes)
    requires Text(text) && Never(x) && Never(y)
    ensures Lossy(text + ([x] + more)) == Lossy(text + ([y] + more)) == Lossy(text + (REPLACEMENT + more))
  {
    TextAppends(text, [x] + more);
    TextAppends(text, [y] + more);
    TextAppends(text, REPLACEMENT + more);
    assert ([x] + more)[1..] == more && ([y] + more)[1..] == more;
    assert Scan(REPLACEMENT) == (3, true) && REPLACEMENT[3..] == [];
    TextAppends(REPLACEMENT, more);
  }

  // ------------------------------------------------------------------
  // Characters
  // ------------------------------------------------------------------

  /** The scalar value of the character at the front. */
  function CodePoint(s: Bytes): nat
    requires s != [] && Scan(s).1
  {
    var n := Scan(s).0;
    if n == 1 then s[0] as nat
    else if n == 2 then 64 * ((s[0] & 0x1F) as nat) + (s[1] & 0x3F) as nat
    else if n == 3 then 4096 * ((s[0] & 0x0F) as nat) + 64 * ((s[1] & 0x3F) as nat) + (s[2] & 0x3F) as nat
    else 262144 * ((s[0] & 0x07) as nat) + 4096 * ((s[1] & 0x3F) as nat) + 64 * ((s[2] & 0x3F) as nat) + (s[3] & 0x3F) as nat
  }

  function CodePoints(s: Bytes): seq<nat>
    requires Text(s)
    decreases |s|
  {
    if s == [] then [] else [CodePoint(s)] + CodePoints(s[Scan(s).0..])
  }

  predicate Ascii(s: Bytes) {
    forall i :: 0 <= i < |s| ==> s[i] < 0x80
  }

  function Values(s: Bytes): seq<nat> {
    seq(|s|, i requires 0 <= i < |s| => s[i] as nat)
  }

  lemma {:induction false} AsciiIsText(s: Bytes)
    requires Ascii(s)
    ensures Text(s) && CodePoints(s) == Values(s)
    decreases |s|
  {
    if s != [] {
      AsciiIsText(s[1..]);
      assert Values(s) == [s[0] as nat] + Values(s[1..]);
    }
  }

  /** A text has fewer characters than octets, unless it is ASCII. */
  lemma {:induction false} CharactersAreFewer(s: Bytes)
    requires Text(s)
    ensures |CodePoints(s)| <= |s| && (|CodePoints(s)| == |s| ==> Ascii(s))
    decreases |s|
  {
    if s != [] {
      var n := Scan(s).0;
      CharactersAreFewer(s[n..]);
      if |CodePoints(s)| == |s| {
        assert n == 1 && s == [s[0]] + s[1..];
      }
    }
  }

  /** What is lost was not ASCII, and neither is what stands for it. */
  lemma {:induction false} LossyIsAscii(s: Bytes)
    ensures Ascii(Lossy(s)) <==> Ascii(s)
    decreases |s|
  {
    if s != [] {
      var (n, whole) := Scan(s);
      LossyIsAscii(s[n..]);
      var shown := if whole then s[..n] else REPLACEMENT;
      assert Ascii(shown) <==> Ascii(s[..n]) by {
        if !whole {
          assert REPLACEMENT[0] >= 0x80 && s[..n][0] >= 0x80;
        }
      }
      AsciiSplits(shown, Lossy(s[n..]));
      AsciiSplits(s[..n], s[n..]);
      assert s == s[..n] + s[n..];
    }
  }

  lemma AsciiSplits(a: Bytes, b: Bytes)
    ensures Ascii(a + b) <==> Ascii(a) && Ascii(b)
  {
    if Ascii(a + b) {
      assert forall i :: 0 <= i < |a| ==> a[i] == (a + b)[i];
      assert forall i :: 0 <= i < |b| ==> b[i] == (a + b)[|a| + i];
    }
  }
}
