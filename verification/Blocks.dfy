/** Byte blocks laid end to end, and bytes as small numbers. */
module Blocks {
  import opened Base

  function Join<T>(block: T -> Bytes, items: seq<T>): Bytes
    decreases |items|
  {
    if items == [] then [] else block(items[0]) + Join(block, items[1..])
  }

  lemma {:induction false} JoinAppend<T>(block: T -> Bytes, front: seq<T>, back: seq<T>)
    ensures Join(block, front + back) == Join(block, front) + Join(block, back)
    decreases |front|
  {
    if front == [] {
      assert front + back == back;
    } else {
      assert (front + back)[1..] == front[1..] + back;
      JoinAppend(block, front[1..], back);
    }
  }

  lemma JoinOne<T>(block: T -> Bytes, item: T)
    ensures Join(block, [item]) == block(item)
  {
    assert [item][1..] == [];
    assert Join(block, [item]) == block(item) + [];
  }

  lemma JoinSnoc<T>(block: T -> Bytes, front: seq<T>, item: T)
    ensures Join(block, front + [item]) == Join(block, front) + block(item)
  {
    JoinAppend(block, front, [item]);
    JoinOne(block, item);
  }

  lemma TakeOne<T>(items: seq<T>, k: nat)
    requires k < |items|
    ensures items[..k + 1] == items[..k] + [items[k]]
    ensures items == items[..k + 1] + items[k + 1..]
  {
  }

  lemma JoinAt<T>(block: T -> Bytes, items: seq<T>, k: nat)
    requires k < |items|
    ensures Join(block, items[..k + 1]) == Join(block, items[..k]) + block(items[k])
    ensures Join(block, items) == Join(block, items[..k]) + block(items[k]) + Join(block, items[k + 1..])
  {
    TakeOne(items, k);
    JoinSnoc(block, items[..k], items[k]);
    JoinAppend(block, items[..k + 1], items[k + 1..]);
  }

  lemma JoinGrows<T>(block: T -> Bytes, items: seq<T>, k: nat)
    requires k <= |items|
    ensures |Join(block, items[..k])| <= |Join(block, items)|
  {
    assert items == items[..k] + items[k..];
    JoinAppend(block, items[..k], items[k..]);
  }

  lemma JoinAll<T>(block: T -> Bytes, items: seq<T>)
    ensures Join(block, items[..|items|]) == Join(block, items)
    ensures Join(block, items[..0]) == []
  {
    assert items[..|items|] == items;
  }

  function Whole(chunk: Bytes): Bytes {
    chunk
  }

  /** The chunks themselves, end to end. */
  function Concat(chunks: seq<Bytes>): Bytes {
    Join(Whole, chunks)
  }

  lemma ConcatCons(chunk: Bytes, chunks: seq<Bytes>)
    ensures Concat([chunk] + chunks) == chunk + Concat(chunks)
  {
    JoinAppend(Whole, [chunk], chunks);
    JoinOne(Whole, chunk);
  }

  lemma Associate(a: Bytes, b: Bytes, c: Bytes)
    ensures (a + b) + c == a + (b + c)
  {
    assert (a + b) + c == a + (b + c);
  }

  lemma Regroup(a: Bytes, b: Bytes, c: Bytes, d: Bytes)
    ensures a + b + c + d == a + b + (c + d)
    ensures (a + b + c + d)[|a|..] == b + (c + d)
  {
    assert a + b + c + d == a + b + (c + d);
    assert (a + b + c + d)[|a|..] == b + (c + d);
  }

  lemma NextByte(b: Byte)
    requires b != 255
    ensures (b + 1) as nat == b as nat + 1
  {
  }

  lemma ByteOf(n: nat) returns (b: Byte)
    requires n < 256
    ensures b as nat == n
  {
    if n == 0 {
      b := 0;
    } else {
      var previous := ByteOf(n - 1);
      NextByte(previous);
      b := previous + 1;
    }
  }

  lemma ByteIsItsValue(b: Byte)
    ensures (b as nat) as Byte == b
  {
  }

  lemma ByteRoundTrip(n: nat)
    requires n < 256
    ensures (n as Byte) as nat == n
  {
    var b := ByteOf(n);
    ByteIsItsValue(b);
  }
}
