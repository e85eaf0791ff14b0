/** Bytes of primitives, big integers, strings and lists, and reading them back. */
module ByteCodec {
  import opened Packets

  /** A reader consumes a prefix of the remaining bytes; None stands for input that is too short or malformed. */
  type Reader<X> = Bytes -> Option<(X, Bytes)>

  /** What a reader must do for everything its writer produces. */
  ghost predicate ReadsBack<X>(write: X -> Bytes, read: Reader<X>, x: X) {
    forall rest: Bytes :: read(write(x) + rest) == Some((x, rest))
  }

  lemma Regroup(a: Bytes, b: Bytes, rest: Bytes)
    ensures (a + b) + rest == a + (b + rest)
  {
  }

  // ------------------------------------------------------------ fixed-width integers

  /** The n low bytes of v, most significant first. */
  function EncodeBE(v: nat, n: nat): (b: Bytes)
    ensures |b| == n
  {
    if n == 0 then [] else EncodeBE(v / 256, n - 1) + [v % 256]
  }

  function DecodeBE(b: Bytes): nat {
    if |b| == 0 then 0 else DecodeBE(b[..|b| - 1]) * 256 + b[|b| - 1]
  }

  function Power256(n: nat): nat {
    if n == 0 then 1 else 256 * Power256(n - 1)
  }

  lemma {:induction false} DecodeEncode(v: nat, n: nat)
    requires v < Power256(n)
    ensures DecodeBE(EncodeBE(v, n)) == v
  {
    if n == 0 {
    } else {
      DecodeEncode(v / 256, n - 1);
      assert EncodeBE(v, n)[..n - 1] == EncodeBE(v / 256, n - 1);
    }
  }

  /** Big-endian: the first byte has the weight of as many places as follow it. */
  lemma {:induction false} FirstByteHighest(high: byte, rest: Bytes)
    ensures DecodeBE([high] + rest) == high * Power256(|rest|) + DecodeBE(rest)
  {
    var b := [high] + rest;
    if |rest| == 0 {
      assert b == [high] && b[..0] == [];
    } else {
      assert b[..|rest|] == [high] + rest[..|rest| - 1];
      FirstByteHighest(high, rest[..|rest| - 1]);
      OnePlaceMore(high, Power256(|rest| - 1), DecodeBE(rest[..|rest| - 1]), rest[|rest| - 1]);
    }
  }

  lemma OnePlaceMore(high: int, weight: int, value: int, low: int)
    ensures (high * weight + value) * 256 + low == high * (256 * weight) + (value * 256 + low)
  {
  }

  function ReadFixed(b: Bytes, n: nat): Option<(nat, Bytes)> {
    if |b| < n then None else Some((DecodeBE(b[..n]), b[n..]))
  }

  lemma FixedReadsBack(v: nat, n: nat, rest: Bytes)
    requires v < Power256(n)
    ensures ReadFixed(EncodeBE(v, n) + rest, n) == Some((v, rest))
  {
    DecodeEncode(v, n);
    var b := EncodeBE(v, n) + rest;
    assert b[..n] == EncodeBE(v, n) && b[n..] == rest;
  }

  const SIZE_LIMIT: nat := Power256(8)

  /** `bigint_size_t` and `buffer_size_t` are 64-bit. */
  function SizeBytes(n: nat): Bytes { EncodeBE(n, 8) }
  function ReadSize(b: Bytes): Option<(nat, Bytes)> { ReadFixed(b, 8) }

  /** Counts of members, usersets, lookups and results are single bytes; longer lists lose their high bits. */
  function CountBytes(n: nat): Bytes { [n % 256] }
  function ReadCount(b: Bytes): Option<(nat, Bytes)> { if |b| < 1 then None else Some((b[0], b[1..])) }

  lemma CountReadsBack(n: nat, rest: Bytes)
    requires n < 256
    ensures ReadCount(CountBytes(n) + rest) == Some((n, rest))
  {
  }

  function ReadBlob(b: Bytes, n: nat): Option<(Bytes, Bytes)> {
    if |b| < n then None else Some((b[..n], b[n..]))
  }

  lemma BlobReadsBack(x: Bytes, rest: Bytes)
    ensures ReadBlob(x + rest, |x|) == Some((x, rest))
  {
    assert (x + rest)[..|x|] == x && (x + rest)[|x|..] == rest;
  }

  // ----------------------------------------------------------------- big integers

  /** The fewest bytes that hold v, and at least one. */
  function MinSize(v: nat): nat {
    if v < 256 then 1 else 1 + MinSize(v / 256)
  }

  lemma {:induction false} MinSizeHolds(v: nat)
    ensures v < Power256(MinSize(v)) && MinSize(v) >= 1
  {
    if v < 256 {
    } else {
      MinSizeHolds(v / 256);
    }
  }

  lemma {:induction false} MinSizeLeast(v: nat, n: nat)
    requires v < Power256(n)
    ensures MinSize(v) <= if n == 0 then 1 else n
  {
    if v < 256 {
    } else {
      MinSizeLeast(v / 256, n - 1);
    }
  }

  lemma {:induction false} MinSizeMonotone(v: nat, w: nat)
    requires v <= w
    ensures MinSize(v) <= MinSize(w)
  {
    if v < 256 {
    } else {
      MinSizeMonotone(v / 256, w / 256);
    }
  }

  lemma {:induction false} Power256Monotone(m: nat, n: nat)
    requires m <= n
    ensures 1 <= Power256(m) <= Power256(n)
  {
    if m > 0 {
      Power256Monotone(m - 1, n - 1);
    } else if n > 0 {
      Power256Monotone(0, n - 1);
    }
  }

  function BigIntBytes(v: Option<nat>): Bytes {
    match v
    case None => SizeBytes(0)
    case Some(n) => SizeBytes(MinSize(n)) + EncodeBE(n, MinSize(n))
  }

  function ReadBigInt(b: Bytes): Option<(Option<nat>, Bytes)> {
    match ReadSize(b)
    case None => None
    case Some((size, rest)) =>
      if size == 0 then Some((None, rest))
      else match ReadFixed(rest, size)
        case None => None
        case Some((n, rest)) => Some((Some(n), rest))
  }

  /** Size 0 marks an absent value; zero itself takes one byte, so the two stay apart. */
  lemma BigIntReadsBack(v: Option<nat>, rest: Bytes)
    requires v.Some? ==> MinSize(v.value) < SIZE_LIMIT
    ensures ReadBigInt(BigIntBytes(v) + rest) == Some((v, rest))
  {
    match v {
      case None =>
        FixedReadsBack(0, 8, rest);
      case Some(n) =>
        MinSizeHolds(n);
        var tail := EncodeBE(n, MinSize(n)) + rest;
        assert BigIntBytes(v) + rest == SizeBytes(MinSize(n)) + tail;
        FixedReadsBack(MinSize(n), 8, tail);
        FixedReadsBack(n, MinSize(n), rest);
    }
  }

  // ---------------------------------------------------------------------- strings

  function StringBytes(s: Bytes): Bytes { s + [0] }

  /** The position of the terminating zero, or the end. */
  function TerminatorAt(b: Bytes): (i: nat)
    ensures i <= |b| && (forall j :: 0 <= j < i ==> b[j] != 0) && (i < |b| ==> b[i] == 0)
  {
    if |b| == 0 || b[0] == 0 then 0 else 1 + TerminatorAt(b[1..])
  }

  /** Without a terminator the cursor would be moved past the end of the data. */
  function ReadString(b: Bytes): Option<(Bytes, Bytes)> {
    var n := TerminatorAt(b);
    if n == |b| then None else Some((b[..n], b[n + 1..]))
  }

  /** A string is read back exactly when it holds no zero byte. */
  lemma StringReadsBack(s: Bytes, rest: Bytes)
    ensures ReadString(StringBytes(s) + rest) == Some((s, rest)) <==> 0 !in s
  {
    var b := StringBytes(s) + rest;
    var n := TerminatorAt(b);
    assert b[|s|] == 0;
    if 0 in s {
      var i :| 0 <= i < |s| && s[i] == 0;
      assert b[i] == 0;
    } else {
      assert n == |s| by {
        assert forall j :: 0 <= j < |s| ==> b[j] == s[j];
      }
      assert b[..n] == s && b[n + 1..] == rest;
    }
  }

  // ------------------------------------------------------------------------ lists

  function ListBytes<X>(write: X -> Bytes, xs: seq<X>): Bytes {
    if |xs| == 0 then [] else write(xs[0]) + ListBytes(write, xs[1..])
  }

  function ReadList<X>(read: Reader<X>, n: nat, b: Bytes): (r: Option<(seq<X>, Bytes)>)
    ensures r.Some? ==> |r.value.0| == n
  {
    if n == 0 then Some(([], b))
    else match read(b)
      case None => None
      case Some((x, rest)) =>
        match ReadList(read, n - 1, rest)
        case None => None
        case Some((xs, rest)) => Some(([x] + xs, rest))
  }

  lemma {:induction false} ListReadsBack<X>(write: X -> Bytes, read: Reader<X>, xs: seq<X>, rest: Bytes)
    requires forall x :: x in xs ==> ReadsBack(write, read, x)
    ensures ReadList(read, |xs|, ListBytes(write, xs) + rest) == Some((xs, rest))
  {
    if |xs| > 0 {
      ListReadsBack(write, read, xs[1..], rest);
      assert ListBytes(write, xs) + rest == write(xs[0]) + (ListBytes(write, xs[1..]) + rest);
      assert xs[0] in xs && ReadsBack(write, read, xs[0]);
      assert [xs[0]] + xs[1..] == xs;
    } else {
      assert [] + rest == rest;
    }
  }

  /** What holds of everything a reader returns holds of every element of a list it reads. */
  lemma {:induction false} ListElements<X(!new)>(read: Reader<X>, n: nat, b: Bytes, p: X -> bool)
    requires forall c: Bytes :: read(c).Some? ==> p(read(c).value.0)
    ensures var r := ReadList(read, n, b); r.Some? ==> forall i :: 0 <= i < |r.value.0| ==> p(r.value.0[i])
  {
    if n > 0 && read(b).Some? {
      ListElements(read, n - 1, read(b).value.1, p);
    }
  }

  lemma {:induction false} ListBytesPush<X>(write: X -> Bytes, xs: seq<X>, x: X)
    ensures ListBytes(write, xs + [x]) == ListBytes(write, xs) + write(x)
  {
    if |xs| == 0 {
      assert xs + [x] == [x] && [x][1..] == [];
    } else {
      assert (xs + [x])[1..] == xs[1..] + [x];
      ListBytesPush(write, xs[1..], x);
    }
  }

  lemma {:induction false} ReadListPush<X>(read: Reader<X>, n: nat, b: Bytes)
    ensures ReadList(read, n + 1, b) ==
      match ReadList(read, n, b)
      case None => None
      case Some((xs, rest)) =>
        match read(rest)
        case None => None
        case Some((x, rest)) => Some((xs + [x], rest))
  {
    if read(b).Some? {
      var (x, rest) := read(b).value;
      if n > 0 {
        ReadListPush(read, n - 1, rest);
        var tail := ReadList(read, n - 1, rest);
        if tail.Some? && read(tail.value.1).Some? {
          var y := read(tail.value.1).value.0;
          assert [x] + (tail.value.0 + [y]) == ([x] + tail.value.0) + [y];
        }
      } else {
        assert ReadList(read, 0, rest) == Some(([], rest)) && [x] + [] == [] + [x];
      }
    }
  }

  /** A growing buffer of bytes. */
  class Buffer {
    var data: Bytes

    constructor ()
      ensures data == []
    {
      data := [];
    }

    method Write(bytes: Bytes)
      modifies this
      ensures data == old(data) + bytes
    {
      data := data + bytes;
    }

    method WriteList<X>(write: X -> Bytes, xs: seq<X>)
      modifies this
      ensures data == old(data) + ListBytes(write, xs)
    {
      for i := 0 to |xs|
        invariant data == old(data) + ListBytes(write, xs[..i])
      {
        assert xs[..i + 1] == xs[..i] + [xs[i]];
        ListBytesPush(write, xs[..i], xs[i]);
        Write(write(xs[i]));
      }
      assert xs[..|xs|] == xs;
    }
  }

  /** Fills a list of known length, element by element, moving the cursor along. */
  method FillList<X>(read: Reader<X>, n: nat, input: Bytes) returns (r: Option<(seq<X>, Bytes)>)
    ensures r == ReadList(read, n, input)
  {
    var xs: seq<X> := [];
    var rest := input;
    for i := 0 to n
      invariant ReadList(read, i, input) == Some((xs, rest))
    {
      ReadListPush(read, i, input);
      var next := read(rest);
      if next.None? {
        ReadListFails(read, i + 1, n, input);
        return None;
      }
      xs, rest := xs + [next.value.0], next.value.1;
    }
    return Some((xs, rest));
  }

  lemma {:induction false} ReadListFails<X>(read: Reader<X>, k: nat, n: nat, b: Bytes)
    requires k <= n && ReadList(read, k, b).None?
    ensures ReadList(read, n, b).None?
    decreases n - k
  {
    if k == n {
    } else {
      ReadListPush(read, k, b);
      ReadListFails(read, k + 1, n, b);
    }
  }
}
