/** The names under which an archive records its files. A path component is any
    bytes; what is recorded is its lossy UTF-8 form. */
module ZipNames {
  import opened Base
  import opened Utf8

  /** A path component: a plain name, or a root, prefix, `.` or `..` component. */
  datatype Component = Normal(part: Bytes) | Special

  const SLASH: Byte := 0x2F

  datatype Error = TooLarge | UnsafePath | NoFileName | NameTooLong | Changed | Over4GiB | TooManyFiles

  // ------------------------------------------------------------------
  // Names
  // ------------------------------------------------------------------

  function Extend(name: Bytes, part: Bytes): Bytes {
    if name == [] then part else name + [SLASH] + part
  }

  function JoinOnto(name: Bytes, path: seq<Component>): Result<Bytes, Error>
    decreases |path|
  {
    if path == [] then (if name == [] then Err(NoFileName) else Ok(name))
    else if path[0].Special? then Err(UnsafePath)
    else JoinOnto(Extend(name, Lossy(path[0].part)), path[1..])
  }

  function ZipName(path: seq<Component>): Result<Bytes, Error> {
    JoinOnto([], path)
  }

  method EncodeName(path: seq<Component>) returns (result: Result<Bytes, Error>)
    ensures result == ZipName(path)
  {
    var name: Bytes := [];
    for i := 0 to |path|
      invariant ZipName(path) == JoinOnto(name, path[i..])
    {
      assert path[i..][0] == path[i] && path[i..][1..] == path[i + 1..];
      if path[i].Special? {
        return Err(UnsafePath);
      }
      ghost var extended := Extend(name, Lossy(path[i].part));
      if name != [] {
        name := name + [SLASH];
      }
      name := name + Lossy(path[i].part);
      assert name == extended;
    }
    if name == [] {
      return Err(NoFileName);
    }
    return Ok(name);
  }

  /** What the operating system guarantees of plain components. */
  predicate AllPlain(path: seq<Component>) {
    forall i :: 0 <= i < |path| ==> path[i].Normal? && path[i].part != [] && SLASH !in path[i].part
  }

  /** A name cut at its slashes. */
  function Split(name: Bytes): (parts: seq<Bytes>)
    ensures |parts| > 0
    decreases |name|
  {
    if name == [] then [[]]
    else
      var rest := Split(name[1..]);
      if name[0] == SLASH then [[]] + rest else [[name[0]] + rest[0]] + rest[1..]
  }

  /** The lossy forms of a path's components. */
  function Shown(path: seq<Component>): (shown: seq<Bytes>)
    requires forall i :: 0 <= i < |path| ==> path[i].Normal?
    ensures |shown| == |path|
  {
    seq(|path|, i requires 0 <= i < |path| => Lossy(path[i].part))
  }

  /** Losing ill-formed runs neither empties a component nor cuts it. */
  lemma {:induction false} LossyStaysPlain(s: Bytes)
    requires SLASH !in s
    ensures SLASH !in Lossy(s) && (s != [] ==> Lossy(s) != [])
    decreases |s|
  {
    if s != [] {
      LossyStaysPlain(s[Scan(s).0..]);
    }
  }

  lemma {:induction false} SplitPlain(part: Bytes)
    requires SLASH !in part
    ensures Split(part) == [part]
    decreases |part|
  {
    if part != [] {
      SplitPlain(part[1..]);
      assert part == [part[0]] + part[1..];
    }
  }

  lemma {:induction false} SplitExtends(name: Bytes, part: Bytes)
    requires SLASH !in part
    ensures Split(name + [SLASH] + part) == Split(name) + [part]
    decreases |name|
  {
    var whole := name + [SLASH] + part;
    if name == [] {
      SplitPlain(part);
      assert whole[1..] == part;
    } else {
      SplitExtends(name[1..], part);
      assert whole[1..] == name[1..] + [SLASH] + part;
    }
  }

  lemma ShownFrom(path: seq<Component>, front: seq<Bytes>)
    requires path != [] && forall i :: 0 <= i < |path| ==> path[i].Normal?
    ensures front + [Lossy(path[0].part)] + Shown(path[1..]) == front + Shown(path)
  {
    assert Shown(path) == [Lossy(path[0].part)] + Shown(path[1..]);
  }

  lemma {:induction false} JoinSplits(name: Bytes, path: seq<Component>)
    requires name != [] && AllPlain(path)
    ensures JoinOnto(name, path).Ok? && Split(JoinOnto(name, path).value) == Split(name) + Shown(path)
    decreases |path|
  {
    if path != [] {
      var part := Lossy(path[0].part);
      LossyStaysPlain(path[0].part);
      JoinSplits(Extend(name, part), path[1..]);
      SplitExtends(name, part);
      ShownFrom(path, Split(name));
    }
  }

  /** Cutting the recorded name at its slashes gives the components' lossy forms. */
  lemma NameRoundTrip(path: seq<Component>)
    requires path != [] && AllPlain(path)
    ensures ZipName(path).Ok? && Split(ZipName(path).value) == Shown(path)
  {
    var part := Lossy(path[0].part);
    LossyStaysPlain(path[0].part);
    JoinSplits(part, path[1..]);
    SplitPlain(part);
    ShownFrom(path, []);
    assert [] + [part] == [part] && [] + Shown(path) == Shown(path);
  }

  lemma {:induction false} JoinIsShown(name: Bytes, a: seq<Component>, b: seq<Component>)
    requires (forall i :: 0 <= i < |a| ==> a[i].Normal?) && (forall i :: 0 <= i < |b| ==> b[i].Normal?)
    requires Shown(a) == Shown(b)
    ensures JoinOnto(name, a) == JoinOnto(name, b)
    decreases |a|
  {
    if a != [] {
      assert Lossy(a[0].part) == Shown(a)[0] == Shown(b)[0] == Lossy(b[0].part);
      assert Shown(a[1..]) == Shown(a)[1..] == Shown(b)[1..] == Shown(b[1..]);
      JoinIsShown(Extend(name, Lossy(a[0].part)), a[1..], b[1..]);
    }
  }

  /** Two files are recorded under one name exactly when the lossy forms of their
      components are the same. */
  lemma NamesCollideExactly(a: seq<Component>, b: seq<Component>)
    requires a != [] && b != [] && AllPlain(a) && AllPlain(b)
    ensures ZipName(a) == ZipName(b) <==> Shown(a) == Shown(b)
  {
    NameRoundTrip(a);
    NameRoundTrip(b);
    if Shown(a) == Shown(b) {
      JoinIsShown([], a, b);
    }
  }

  /** So well-formed names are never confused. */
  lemma TextNamesAreDistinct(a: seq<Component>, b: seq<Component>)
    requires a != [] && b != [] && AllPlain(a) && AllPlain(b)
    requires (forall i :: 0 <= i < |a| ==> Text(a[i].part)) && (forall i :: 0 <= i < |b| ==> Text(b[i].part))
    ensures ZipName(a) == ZipName(b) <==> a == b
  {
    NamesCollideExactly(a, b);
    if Shown(a) == Shown(b) {
      forall i | 0 <= i < |a|
        ensures a[i] == b[i]
      {
        LossyKeepsExactly(a[i].part);
        LossyKeepsExactly(b[i].part);
        assert Shown(a)[i] == Shown(b)[i];
      }
    }
  }

  lemma ShownReplaces(front: seq<Component>, p: Bytes, q: Bytes, back: seq<Component>)
    requires AllPlain(front + [Normal(p)] + back) && AllPlain(front + [Normal(q)] + back) && Lossy(p) == Lossy(q)
    ensures Shown(front + [Normal(p)] + back) == Shown(front + [Normal(q)] + back)
  {
  }

  /** And two files that differ in one byte of no character are. */
  lemma IllFormedNamesCollide(front: seq<Component>, text: Bytes, x: Byte, y: Byte, more: Bytes, back: seq<Component>)
    requires Text(text) && Never(x) && Never(y) && x != y
    requires AllPlain(front + [Normal(text + ([x] + more))] + back) && AllPlain(front + [Normal(text + ([y] + more))] + back)
    ensures var a, b := front + [Normal(text + ([x] + more))] + back, front + [Normal(text + ([y] + more))] + back;
            a != b && ZipName(a) == ZipName(b)
  {
    var a, b := front + [Normal(text + ([x] + more))] + back, front + [Normal(text + ([y] + more))] + back;
    var p, q := text + ([x] + more), text + ([y] + more);
    assert p[|text|] == x && q[|text|] == y;
    assert a[|front|] == Normal(p) && b[|front|] == Normal(q);
    LossyCollides(text, x, y, more);
    ShownReplaces(front, p, q, back);
    JoinIsShown([], a, b);
  }

  // ------------------------------------------------------------------
  // What the octets of a name are
  // ------------------------------------------------------------------

  lemma ExtendedIsText(name: Bytes, part: Bytes)
    requires Text(name)
    ensures Text(Extend(name, Lossy(part)))
    ensures Ascii(Extend(name, Lossy(part))) <==> Ascii(name) && Ascii(part)
  {
    LossyIsText(part);
    LossyIsAscii(part);
    AsciiIsText([SLASH]);
    TextConcatenates(name, [SLASH]);
    TextConcatenates(name + [SLASH], Lossy(part));
    AsciiSplits(name, [SLASH]);
    AsciiSplits(name + [SLASH], Lossy(part));
  }

  lemma AsciiFrom(path: seq<Component>)
    requires path != [] && path[0].Normal?
    ensures AllAscii(path) <==> Ascii(path[0].part) && AllAscii(path[1..])
  {
    assert path == [path[0]] + path[1..];
  }

  lemma {:induction false} JoinedIsText(name: Bytes, path: seq<Component>)
    requires Text(name) && JoinOnto(name, path).Ok?
    ensures Text(JoinOnto(name, path).value)
    ensures Ascii(JoinOnto(name, path).value) <==> Ascii(name) && AllAscii(path)
    decreases |path|
  {
    if path != [] {
      ExtendedIsText(name, path[0].part);
      JoinedIsText(Extend(name, Lossy(path[0].part)), path[1..]);
      AsciiFrom(path);
    }
  }

  predicate AllAscii(path: seq<Component>) {
    forall i :: 0 <= i < |path| ==> path[i].Normal? && Ascii(path[i].part)
  }
}
