/**
  The DER primitives the codecs are built from, as X.690 section 8 and 10 define
  them and as cryptobyte reads and writes them (pkicmp/types.go uses them in every
  codec): tags of one octet, definite minimal lengths of at most four octets,
  minimal two's complement integers.
 */
module Der {
  import opened Types

  const INTEGER: byte := 0x02
  const BIT_STRING: byte := 0x03
  const OCTET_STRING: byte := 0x04
  const NULL: byte := 0x05
  const OBJECT_IDENTIFIER: byte := 0x06
  const UTF8_STRING: byte := 0x0c
  const GENERALIZED_TIME: byte := 0x18
  const SEQUENCE: byte := 0x30

  /** The constructed context-specific tag number `n`. */
  function Context(n: int): byte
    requires 0 <= n < 31
  {
    0xa0 + n
  }

  /** The primitive context-specific tag number `n`. */
  function Primitive(n: int): byte
    requires 0 <= n < 31
  {
    0x80 + n
  }

  // ---------------------------------------------------------------------------
  // Unsigned numbers
  // ---------------------------------------------------------------------------

  function Number(bs: Bytes): nat {
    if bs == [] then 0 else Number(bs[..|bs| - 1]) * 256 + bs[|bs| - 1]
  }

  function BigEndian(n: nat): Bytes {
    if n < 256 then [n] else BigEndian(n / 256) + [n % 256]
  }

  lemma {:induction false} NumberOfBigEndian(n: nat)
    ensures Number(BigEndian(n)) == n
    ensures |BigEndian(n)| > 0 && (n > 0 ==> BigEndian(n)[0] != 0)
  {
    if n >= 256 {
      NumberOfBigEndian(n / 256);
      assert BigEndian(n)[..|BigEndian(n)| - 1] == BigEndian(n / 256);
    } else {
      assert [n][..0] == [];
    }
  }

  lemma {:induction false} NumberIsPositive(bs: Bytes)
    requires |bs| > 0 && bs[0] != 0
    ensures Number(bs) > 0
  {
    if |bs| > 1 {
      NumberIsPositive(bs[..|bs| - 1]);
    }
  }

  lemma SplitOctet(q: nat, r: byte)
    ensures (q * 256 + r) / 256 == q && (q * 256 + r) % 256 == r as int
  {
  }

  lemma {:induction false} BigEndianOfNumber(bs: Bytes)
    requires |bs| > 0 && bs[0] != 0
    ensures BigEndian(Number(bs)) == bs
  {
    var init, last := bs[..|bs| - 1], bs[|bs| - 1];
    assert bs == init + [last];
    if |bs| > 1 {
      BigEndianOfNumber(init);
      NumberIsPositive(init);
      SplitOctet(Number(init), last);
    }
  }

  lemma BigEndianSize(n: nat)
    requires n < TWO_32
    ensures |BigEndian(n)| <= 4
  {
    var a := n / 256;
    var b := a / 256;
    var c := b / 256;
    assert c < 256;
    assert |BigEndian(c)| == 1;
    assert |BigEndian(b)| <= 2;
    assert |BigEndian(a)| <= 3;
  }

  lemma NumberBound(bs: Bytes)
    requires |bs| <= 4
    ensures Number(bs) < TWO_32
  {
    var p1 := bs[..if |bs| > 0 then |bs| - 1 else 0];
    var p2 := p1[..if |p1| > 0 then |p1| - 1 else 0];
    var p3 := p2[..if |p2| > 0 then |p2| - 1 else 0];
    assert Number(p3) < 0x100;
    assert Number(p2) < 0x1_0000;
    assert Number(p1) < 0x100_0000;
  }

  // ---------------------------------------------------------------------------
  // Elements
  // ---------------------------------------------------------------------------

  /** The length octets. The builder refuses contents that are not `Fits`, so the
      first octet never wraps. */
  function Length(n: nat): Bytes {
    if n < 128 then [n] else [(128 + |BigEndian(n)|) % 256] + BigEndian(n)
  }

  /** Reads a length: the long form only when needed, without leading zeros. */
  function ReadLength(s: Bytes): Option<(nat, Bytes)> {
    if s == [] then None
    else if s[0] < 128 then Some((s[0] as int, s[1..]))
    else
      var k := s[0] as int - 128;
      if k == 0 || k > 4 || |s| < 1 + k then None
      else if s[1] == 0 || Number(s[1..1 + k]) < 128 then None
      else Some((Number(s[1..1 + k]), s[1 + k..]))
  }

  lemma ReadLengthOf(n: nat, tail: Bytes)
    requires n < TWO_32
    ensures ReadLength(Length(n) + tail) == Some((n, tail))
  {
    var be := BigEndian(n);
    NumberOfBigEndian(n);
    BigEndianSize(n);
    if n >= 128 {
      var s := Length(n) + tail;
      assert s[1..1 + |be|] == be && s[1 + |be|..] == tail && s[1] == be[0];
    }
  }

  lemma LengthOfRead(s: Bytes)
    requires ReadLength(s).Some?
    ensures var (n, rest) := ReadLength(s).value; n < TWO_32 && s == Length(n) + rest
  {
    if s[0] >= 128 {
      var k := s[0] as int - 128;
      NumberBound(s[1..1 + k]);
      BigEndianOfNumber(s[1..1 + k]);
    }
  }

  /** Tags of more than one octet are not read. */
  predicate LowTag(tag: byte) {
    tag % 32 != 31
  }

  /** Contents whose element stays below 4 GiB. */
  predicate Fits(content: Bytes) {
    |content| + 6 < TWO_32
  }

  function Element(tag: byte, content: Bytes): (r: Bytes)
    ensures |r| >= |content| + 2 && r[0] == tag
  {
    [tag] + Length(|content|) + content
  }

  datatype Read = Read(tag: byte, content: Bytes, rest: Bytes)

  function ReadElement(s: Bytes): Option<Read> {
    if |s| < 2 || !LowTag(s[0]) then None
    else
      var len := ReadLength(s[1..]);
      if len.None? || len.value.0 + 6 >= TWO_32 || len.value.0 > |len.value.1| then None
      else Some(Read(s[0], len.value.1[..len.value.0], len.value.1[len.value.0..]))
  }

  /** What is written is read back, in front of any tail. */
  lemma ReadElementOf(tag: byte, content: Bytes, tail: Bytes)
    requires LowTag(tag) && Fits(content)
    ensures ReadElement(Element(tag, content) + tail) == Some(Read(tag, content, tail))
  {
    var s := Element(tag, content) + tail;
    assert s[1..] == Length(|content|) + (content + tail);
    ReadLengthOf(|content|, content + tail);
    assert (content + tail)[..|content|] == content && (content + tail)[|content|..] == tail;
  }

  /** And what is read is what would be written: the reader accepts only DER. */
  lemma ElementOfRead(s: Bytes)
    requires ReadElement(s).Some?
    ensures var r := ReadElement(s).value;
            LowTag(r.tag) && Fits(r.content) && s == Element(r.tag, r.content) + r.rest
  {
    LengthOfRead(s[1..]);
    var (n, rest) := ReadLength(s[1..]).value;
    Reassemble(s, n, rest);
  }

  lemma Reassemble(s: Bytes, n: nat, rest: Bytes)
    requires |s| > 0 && n <= |rest| && s[1..] == Length(n) + rest
    ensures s == Element(s[0], rest[..n]) + rest[n..]
  {
    assert s == [s[0]] + s[1..] && rest == rest[..n] + rest[n..];
  }

  /** ReadASN1: the next element if it has this tag. */
  function ReadTagged(s: Bytes, tag: byte): Option<(Bytes, Bytes)> {
    var r := ReadElement(s);
    if r.Some? && r.value.tag == tag then Some((r.value.content, r.value.rest)) else None
  }

  /** PeekASN1Tag. */
  predicate Peek(s: Bytes, tag: byte) {
    |s| > 0 && s[0] == tag
  }

  lemma ReadTaggedOf(tag: byte, content: Bytes, tail: Bytes)
    requires LowTag(tag) && Fits(content)
    ensures ReadTagged(Element(tag, content) + tail, tag) == Some((content, tail))
    ensures Peek(Element(tag, content) + tail, tag)
    ensures |Element(tag, content)| >= 2
  {
    ReadElementOf(tag, content, tail);
  }

  /** A value whose content is inside one element. */
  function ReadWrapped<T>(tag: byte, read: Bytes -> Option<T>, s: Bytes): Option<(T, Bytes)> {
    var r := ReadTagged(s, tag);
    if r.None? then None
    else
      var x := read(r.value.0);
      if x.None? then None else Some((x.value, r.value.1))
  }

  lemma WrappedRoundTrips<T>(tag: byte, content: Bytes, read: Bytes -> Option<T>, x: T, tail: Bytes)
    requires LowTag(tag) && Fits(content) && read(content) == Some(x)
    ensures ReadWrapped(tag, read, Element(tag, content) + tail) == Some((x, tail))
    ensures Peek(Element(tag, content) + tail, tag)
  {
    ReadTaggedOf(tag, content, tail);
  }

  // ---------------------------------------------------------------------------
  // Integers
  // ---------------------------------------------------------------------------

  function Signed(b: byte): int {
    if b < 128 then b as int else b as int - 256
  }

  /** Minimal two's complement. */
  function IntegerBytes(n: int): Bytes
    decreases if n < 0 then -n else n
  {
    if -128 <= n < 128 then [n % 256] else IntegerBytes(n / 256) + [n % 256]
  }

  function IntegerValue(bs: Bytes): int
    requires |bs| > 0
  {
    if |bs| == 1 then Signed(bs[0]) else IntegerValue(bs[..|bs| - 1]) * 256 + bs[|bs| - 1]
  }

  /** No octet could be left out. */
  predicate Minimal(bs: Bytes) {
    |bs| == 1 || (|bs| > 1 && !(bs[0] == 0 && bs[1] < 128) && !(bs[0] == 0xff && bs[1] >= 128))
  }

  lemma {:induction false} IntegerRoundTrip(n: int)
    ensures |IntegerBytes(n)| > 0 && IntegerValue(IntegerBytes(n)) == n && Minimal(IntegerBytes(n))
    decreases if n < 0 then -n else n
  {
    if !(-128 <= n < 128) {
      IntegerRoundTrip(n / 256);
      var init := IntegerBytes(n / 256);
      assert IntegerBytes(n)[..|init|] == init;
      if |init| == 1 {
        assert -128 <= n / 256 < 128 by {
          if !(-128 <= n / 256 < 128) {
            IntegerRoundTrip(n / 256 / 256);
          }
        }
      }
    }
  }

  ghost function Power(k: nat): int {
    if k == 0 then 1 else 256 * Power(k - 1)
  }

  /** The range of integers that fit `k` octets. */
  ghost predicate InOctets(n: int, k: nat) {
    -Power(k) <= 2 * n < Power(k)
  }

  lemma RangeShifts(n: int, half: int)
    ensures -half <= n / 256 < half <==> -256 * half <= n < 256 * half
  {
  }

  lemma {:induction false} IntegerSize(n: int, k: nat)
    requires k > 0
    ensures |IntegerBytes(n)| <= k <==> InOctets(n, k)
    decreases k
  {
    if k == 1 {
      assert Power(1) == 256;
      if !(-128 <= n < 128) {
        IntegerRoundTrip(n / 256);
      }
    } else {
      IntegerSize(n / 256, k - 1);
      PowerIsEven(k - 1);
      var half := Power(k - 1) / 2;
      assert Power(k - 1) == 2 * half && Power(k) == 256 * (2 * half);
      RangeShifts(n, half);
    }
  }

  lemma {:induction false} PowerIsEven(k: nat)
    requires k > 0
    ensures Power(k) % 2 == 0 && Power(k) >= 256
  {
    if k > 1 {
      PowerIsEven(k - 1);
    }
  }

  /** ReadASN1Integer into an int64. */
  function ReadInt64(s: Bytes): Option<(int, Bytes)> {
    var r := ReadTagged(s, INTEGER);
    if r.None? || !Minimal(r.value.0) || |r.value.0| > 8 then None
    else Some((IntegerValue(r.value.0), r.value.1))
  }

  function Int64(n: int): Bytes {
    Element(INTEGER, IntegerBytes(n))
  }

  lemma Int64Size(n: int)
    ensures FitsInt64(n) <==> |IntegerBytes(n)| <= 8
  {
    IntegerSize(n, 8);
    assert Power(8) == 0x1_0000_0000_0000_0000 by {
      assert Power(4) == 0x1_0000_0000;
      assert Power(8) == 0x1_0000_0000 * Power(4) by {
        assert Power(5) == 256 * Power(4) && Power(6) == 256 * Power(5) && Power(7) == 256 * Power(6)
               && Power(8) == 256 * Power(7);
      }
    }
  }

  lemma ReadInt64Of(n: int, tail: Bytes)
    requires FitsInt64(n)
    ensures ReadInt64(Int64(n) + tail) == Some((n, tail))
    ensures Peek(Int64(n) + tail, INTEGER)
  {
    Int64Size(n);
    IntegerRoundTrip(n);
    ReadTaggedOf(INTEGER, IntegerBytes(n), tail);
  }

  // ---------------------------------------------------------------------------
  // Lists
  // ---------------------------------------------------------------------------

  function WriteAll<T>(write: T -> Bytes, xs: seq<T>): Bytes {
    if xs == [] then [] else write(xs[0]) + WriteAll(write, xs[1..])
  }

  /** Reads until the string is empty, as the loops of the source do. */
  function ReadAll<T>(read: Bytes -> Option<(T, Bytes)>, s: Bytes): Option<seq<T>>
    decreases |s|
  {
    if s == [] then Some([])
    else
      var x := read(s);
      if x.None? || |x.value.1| >= |s| then None
      else
        var xs := ReadAll(read, x.value.1);
        if xs.None? then None else Some([x.value.0] + xs.value)
  }

  ghost function Prepend<T>(items: seq<T>, tail: Option<seq<T>>): Option<seq<T>> {
    if tail.None? then None else Some(items + tail.value)
  }

  lemma PrependSteps<T>(items: seq<T>, x: T, tail: Option<seq<T>>)
    ensures Prepend([], tail) == tail
    ensures Prepend(items + [x], tail) == Prepend(items, Prepend([x], tail))
  {
    if tail.Some? {
      assert [] + tail.value == tail.value;
      assert items + [x] + tail.value == items + ([x] + tail.value);
    }
  }

  /** The loop of the list decoders: read an element, append it, go on while
      anything is left. */
  method UnmarshalList<T>(read: Bytes -> Option<(T, Bytes)>, s: Bytes) returns (r: Option<seq<T>>)
    ensures r == ReadAll(read, s)
  {
    var items: seq<T>, rest := [], s;
    assert Prepend(items, ReadAll(read, rest)) == ReadAll(read, s) by {
      if ReadAll(read, s).Some? {
        assert [] + ReadAll(read, s).value == ReadAll(read, s).value;
      }
    }
    while rest != []
      invariant ReadAll(read, s) == Prepend(items, ReadAll(read, rest))
      decreases |rest|
    {
      var x := read(rest);
      if x.None? || |x.value.1| >= |rest| {
        return None;
      }
      PrependSteps(items, x.value.0, ReadAll(read, x.value.1));
      items, rest := items + [x.value.0], x.value.1;
    }
    assert items + [] == items;
    return Some(items);
  }

  /** Reading what was written gives the value and leaves the tail. */
  ghost predicate RoundTrips<T(!new)>(write: T -> Bytes, read: Bytes -> Option<(T, Bytes)>, x: T) {
    |write(x)| > 0 && forall tail :: read(write(x) + tail) == Some((x, tail))
  }

  lemma {:induction false} ListRoundTrips<T(!new)>(write: T -> Bytes, read: Bytes -> Option<(T, Bytes)>, xs: seq<T>)
    requires forall i :: 0 <= i < |xs| ==> RoundTrips(write, read, xs[i])
    ensures ReadAll(read, WriteAll(write, xs)) == Some(xs)
  {
    if xs != [] {
      ListRoundTrips(write, read, xs[1..]);
      assert RoundTrips(write, read, xs[0]);
      assert read(WriteAll(write, xs)) == Some((xs[0], WriteAll(write, xs[1..])));
      assert xs == [xs[0]] + xs[1..];
    }
  }

  /** Reading what was written gives what arrives of the value. */
  ghost predicate ReadsAs<T(!new), U(!new)>(write: T -> Bytes, read: Bytes -> Option<(U, Bytes)>, arrives: T -> U,
                                            x: T) {
    |write(x)| > 0 && forall tail :: read(write(x) + tail) == Some((arrives(x), tail))
  }

  lemma {:induction false} ListReadsAs<T(!new), U(!new)>(
      write: T -> Bytes, read: Bytes -> Option<(U, Bytes)>, arrives: T -> U, xs: seq<T>)
    requires forall i :: 0 <= i < |xs| ==> ReadsAs(write, read, arrives, xs[i])
    ensures var r := ReadAll(read, WriteAll(write, xs));
            r.Some? && |r.value| == |xs| && forall i :: 0 <= i < |xs| ==> r.value[i] == arrives(xs[i])
  {
    if xs != [] {
      ListReadsAs(write, read, arrives, xs[1..]);
      assert ReadsAs(write, read, arrives, xs[0]);
      assert read(WriteAll(write, xs)) == Some((arrives(xs[0]), WriteAll(write, xs[1..])));
    }
  }

  lemma {:induction false} WriteAllSize<T>(write: T -> Bytes, xs: seq<T>, i: nat)
    requires i < |xs|
    ensures |write(xs[i])| <= |WriteAll(write, xs)|
  {
    if i > 0 {
      WriteAllSize(write, xs[1..], i - 1);
    }
  }

  // ---------------------------------------------------------------------------
  // Values kept as they are
  // ---------------------------------------------------------------------------

  /** ReadAnyASN1Element: the next element with its header. */
  function ReadAny(s: Bytes): Option<(Bytes, Bytes)> {
    var r := ReadElement(s);
    if r.None? || |s| < |r.value.rest| then None else Some((s[..|s| - |r.value.rest|], r.value.rest))
  }

  predicate IsElement(s: Bytes) {
    ReadElement(s).Some? && ReadElement(s).value.rest == []
  }

  lemma ReadAnyOf(e: Bytes, tail: Bytes)
    requires IsElement(e)
    ensures |e| >= 2 && ReadAny(e + tail) == Some((e, tail)) && LowTag(e[0])
    ensures ReadElement(e + tail) == Some(ReadElement(e).value.(rest := tail))
  {
    ElementOfRead(e);
    var r := ReadElement(e).value;
    assert e == Element(r.tag, r.content);
    ReadElementOf(r.tag, r.content, tail);
    assert (e + tail)[..|e|] == e;
  }

  lemma ElementIsElement(tag: byte, content: Bytes)
    requires LowTag(tag) && Fits(content)
    ensures IsElement(Element(tag, content))
  {
    assert Element(tag, content) + [] == Element(tag, content);
    ReadElementOf(tag, content, []);
  }

  lemma AnyIsPrefix(s: Bytes)
    requires ReadAny(s).Some?
    ensures var (e, rest) := ReadAny(s).value; s == e + rest && IsElement(e)
  {
    ElementOfRead(s);
    var r := ReadElement(s).value;
    ElementIsElement(r.tag, r.content);
    assert s[..|s| - |r.rest|] == Element(r.tag, r.content);
  }
}
