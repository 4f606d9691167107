/** The building blocks of the wire format: little-endian numbers, counted
  * strings and counted arrays.  Reading answers None where Python raises an
  * error and C++ returns false.
  */
module Wire {
  import opened Wrappers
  import opened Utf8

  type U16 = n: int | 0 <= n < 0x1_0000
  type U32 = n: int | 0 <= n < 0x1_0000_0000
  type I32 = n: int | -0x8000_0000 <= n < 0x8000_0000
  type U64 = n: int | 0 <= n < 0x1_0000_0000_0000_0000
  type I64 = n: int | -0x8000_0000_0000_0000 <= n < 0x8000_0000_0000_0000

  /** Reads a value at an offset; answers the value and the offset just past it. */
  type Loader<T> = (Bytes, nat) -> Option<(T, nat)>

  /** 256 to the k. */
  function Pow256(k: nat): (p: nat)
    ensures p > 0
  {
    if k == 0 then 1 else 256 * Pow256(k - 1)
  }

  lemma Widths()
    ensures Pow256(2) == 0x1_0000 && Pow256(4) == 0x1_0000_0000 && Pow256(8) == 0x1_0000_0000_0000_0000
  {
    assert Pow256(2) == 256 * 256;
    assert Pow256(4) == 256 * 256 * Pow256(2);
    assert Pow256(6) == 256 * 256 * Pow256(4);
    assert Pow256(8) == 256 * 256 * Pow256(6);
  }

  /** n in k little-endian bytes. */
  function ToLE(n: nat, k: nat): (b: Bytes)
    requires n < Pow256(k)
    ensures |b| == k
  {
    if k == 0 then [] else [n % 256] + ToLE(n / 256, k - 1)
  }

  function FromLE(b: Bytes): nat {
    if b == [] then 0 else b[0] + 256 * FromLE(b[1..])
  }

  lemma {:induction false} FromLEBound(b: Bytes)
    ensures FromLE(b) < Pow256(|b|)
    decreases |b|
  {
    if b != [] {
      FromLEBound(b[1..]);
    }
  }

  lemma {:induction false} FromToLE(n: nat, k: nat)
    requires n < Pow256(k)
    ensures FromLE(ToLE(n, k)) == n
    decreases k
  {
    if k > 0 {
      FromToLE(n / 256, k - 1);
    }
  }

  lemma {:induction false} ToFromLE(b: Bytes)
    ensures FromLE(b) < Pow256(|b|)
    ensures ToLE(FromLE(b), |b|) == b
    decreases |b|
  {
    FromLEBound(b);
    if b != [] {
      ToFromLE(b[1..]);
      LeastByte(b[0], FromLE(b[1..]));
      assert [b[0]] + b[1..] == b;
    }
  }

  lemma LeastByte(low: Byte, high: nat)
    ensures (low + 256 * high) % 256 == low && (low + 256 * high) / 256 == high
  {
  }

  /** Two's complement in k bytes. */
  function SignedOf(u: nat, k: nat): int {
    if 2 * u >= Pow256(k) then u - Pow256(k) else u
  }

  function UnsignedOf(n: int, k: nat): int {
    if n < 0 then n + Pow256(k) else n
  }

  /** The buffer holds the bytes at the offset. */
  predicate HasAt(buf: Bytes, off: nat, b: Bytes)
    decreases |b|
  {
    if b == [] then off <= |buf| else off < |buf| && buf[off] == b[0] && HasAt(buf, off + 1, b[1..])
  }

  lemma {:induction false} HasAtIff(buf: Bytes, off: nat, b: Bytes)
    ensures HasAt(buf, off, b) <==> off + |b| <= |buf| && buf[off..off + |b|] == b
    decreases |b|
  {
    if b == [] {
    } else {
      HasAtIff(buf, off + 1, b[1..]);
      assert b == [b[0]] + b[1..];
      if off + |b| <= |buf| {
        assert buf[off..off + |b|] == [buf[off]] + buf[off + 1..off + 1 + |b[1..]|];
      }
    }
  }

  lemma {:induction false} HasConcat(buf: Bytes, off: nat, a: Bytes, b: Bytes)
    requires HasAt(buf, off, a + b)
    ensures HasAt(buf, off, a) && HasAt(buf, off + |a|, b)
    decreases |a|
  {
    if a == [] {
      assert a + b == b;
      HasAtIff(buf, off, b);
    } else {
      assert (a + b)[1..] == a[1..] + b;
      HasConcat(buf, off + 1, a[1..], b);
    }
  }

  /** A value encoded anywhere in a buffer. */
  lemma HasInside(pre: Bytes, b: Bytes, post: Bytes)
    ensures HasAt(pre + b + post, |pre|, b)
  {
    HasAtIff(pre + b + post, |pre|, b);
  }

  // ----- Numbers -----

  function ReadUnsigned(buf: Bytes, off: nat, k: nat): Option<(nat, nat)> {
    if off + k > |buf| then None else Some((FromLE(buf[off..off + k]), off + k))
  }

  function ReadSigned(buf: Bytes, off: nat, k: nat): Option<(int, nat)> {
    var (u, off1) :- ReadUnsigned(buf, off, k);
    Some((SignedOf(u, k), off1))
  }

  /** Packing a number that does not fit is an error in Python. */
  function PackUnsigned(n: int, k: nat): Option<Bytes> {
    if 0 <= n < Pow256(k) then Some(ToLE(n, k)) else None
  }

  function PackSigned(n: int, k: nat): Option<Bytes> {
    if 0 - Pow256(k) <= 2 * n < Pow256(k) then Some(ToLE(UnsignedOf(n, k), k)) else None
  }

  lemma ReadPackedUnsigned(buf: Bytes, off: nat, n: int, k: nat, b: Bytes)
    requires PackUnsigned(n, k) == Some(b) && HasAt(buf, off, b)
    ensures |b| == k
    ensures ReadUnsigned(buf, off, k) == Some((n, off + k))
    ensures ReadSigned(buf, off, k) == Some((SignedOf(n, k), off + k))
  {
    FromToLE(n, k);
    HasAtIff(buf, off, b);
  }

  lemma ReadPackedSigned(buf: Bytes, off: nat, n: int, k: nat, b: Bytes)
    requires PackSigned(n, k) == Some(b) && HasAt(buf, off, b)
    ensures |b| == k
    ensures ReadSigned(buf, off, k) == Some((n, off + k))
  {
    FromToLE(UnsignedOf(n, k), k);
    HasAtIff(buf, off, b);
  }

  /** A number that can be read at an offset is packed there in the one possible way. */
  lemma PackedWhereRead(buf: Bytes, off: nat, k: nat)
    requires off + k <= |buf|
    ensures PackUnsigned(ReadUnsigned(buf, off, k).value.0, k) == Some(buf[off..off + k])
    ensures PackSigned(ReadSigned(buf, off, k).value.0, k) == Some(buf[off..off + k])
  {
    ToFromLE(buf[off..off + k]);
  }

  // ----- Strings -----

  function PyPackString(s: Text): Option<Bytes> {
    var b :- Encode(s);
    var n :- PackUnsigned(|b|, 8);
    Some(n + b)
  }

  function PyUnpackString(buf: Bytes, off: nat): Option<(Text, nat)> {
    var (size, off1) :- ReadUnsigned(buf, off, 8);
    if off1 + size > |buf| then None
    else
      var s :- Decode(buf[off1..off1 + size]);
      Some((s, off1 + size))
  }

  /** A C++ string is shorter than 2^64 bytes. */
  predicate FitsSize<T>(s: seq<T>) {
    |s| < 0x1_0000_0000_0000_0000
  }

  function CppDumpString(s: Bytes): Bytes
    requires FitsSize(s)
  {
    Widths();
    ToLE(|s|, 8) + s
  }

  /** The sum is computed in 64 bits; when it wraps, building the string fails instead of the test. */
  function CppLoadString(buf: Bytes, off: nat): Option<(Bytes, nat)> {
    var (size, off1) :- ReadUnsigned(buf, off, 8);
    if (off1 + size) % 0x1_0000_0000_0000_0000 > |buf| then None
    else if off1 + size > |buf| then None
    else Some((buf[off1..off1 + size], off1 + size))
  }

  lemma ReadCountedBytes(buf: Bytes, off: nat, s: Bytes)
    requires |s| < Pow256(8) && HasAt(buf, off, ToLE(|s|, 8) + s)
    ensures ReadUnsigned(buf, off, 8) == Some((|s|, off + 8))
    ensures HasAt(buf, off + 8, s)
  {
    HasConcat(buf, off, ToLE(|s|, 8), s);
    ReadPackedUnsigned(buf, off, |s|, 8, ToLE(|s|, 8));
  }

  lemma CppReadCounted(buf: Bytes, off: nat, s: Bytes)
    requires FitsSize(buf) && ReadUnsigned(buf, off, 8) == Some((|s|, off + 8)) && HasAt(buf, off + 8, s)
    ensures CppLoadString(buf, off) == Some((s, off + 8 + |s|))
  {
    NoWrap(off + 8 + |s|);
    HasAtIff(buf, off + 8, s);
  }

  lemma NoWrap(n: nat)
    ensures n < 0x1_0000_0000_0000_0000 ==> n % 0x1_0000_0000_0000_0000 == n
  {
  }

  /** A Python string is read back by Python as itself and by C++ as its UTF-8 bytes. */
  lemma PyReadPackedString(buf: Bytes, off: nat, s: Text, b: Bytes)
    requires PyPackString(s) == Some(b) && HasAt(buf, off, b)
    ensures PyUnpackString(buf, off) == Some((s, off + |b|))
  {
    hide HasAt, Decode, Encode, FromLE, ToLE;
    ReadCountedBytes(buf, off, Encode(s).value);
    HasAtIff(buf, off + 8, Encode(s).value);
    DecodeEncode(s);
  }

  lemma CppReadPackedString(buf: Bytes, off: nat, s: Text, b: Bytes)
    requires FitsSize(buf) && PyPackString(s) == Some(b) && HasAt(buf, off, b)
    ensures CppLoadString(buf, off) == Some((Encode(s).value, off + |b|))
  {
    hide CppLoadString, HasAt, ReadUnsigned, Encode, ToLE;
    ReadCountedBytes(buf, off, Encode(s).value);
    CppReadCounted(buf, off, Encode(s).value);
  }

  /** A string Python can read is packed there in the one possible way. */
  lemma StringWhereRead(buf: Bytes, off: nat)
    requires PyUnpackString(buf, off).Some?
    ensures var (s, end) := PyUnpackString(buf, off).value;
            off <= end <= |buf| && PyPackString(s) == Some(buf[off..end])
  {
    hide Decode, Encode, FromLE, ToLE;
    var (size, off1) := ReadUnsigned(buf, off, 8).value;
    PackedWhereRead(buf, off, 8);
    var b := buf[off1..off1 + size];
    EncodeDecode(b);
    Glue(buf, off, off1, off1 + size);
    ComposeString(Decode(b).value, b, buf[off..off1]);
  }

  lemma ComposeString(s: Text, b: Bytes, n: Bytes)
    requires Encode(s) == Some(b) && PackUnsigned(|b|, 8) == Some(n)
    ensures PyPackString(s) == Some(n + b)
  {
  }

  lemma Glue(buf: Bytes, a: nat, b: nat, c: nat)
    requires a <= b <= c <= |buf|
    ensures buf[a..b] + buf[b..c] == buf[a..c]
  {
  }

  // ----- Arrays -----

  function LoadMany<T>(load: Loader<T>, buf: Bytes, off: nat, n: nat): Option<(seq<T>, nat)>
    decreases n
  {
    if n == 0 then Some(([], off))
    else
      var (v, off1) :- load(buf, off);
      var (vs, off2) :- LoadMany(load, buf, off1, n - 1);
      Some(([v] + vs, off2))
  }

  function LoadVector<T>(load: Loader<T>, buf: Bytes, off: nat): Option<(seq<T>, nat)> {
    var (n, off1) :- ReadUnsigned(buf, off, 8);
    LoadMany(load, buf, off1, n)
  }

  function PackAll<A>(a: seq<A>, pack: A -> Option<Bytes>): Option<Bytes> {
    if a == [] then Some([])
    else
      var first :- pack(a[0]);
      var rest :- PackAll(a[1..], pack);
      Some(first + rest)
  }

  function PackArray<A>(a: seq<A>, pack: A -> Option<Bytes>): Option<Bytes> {
    var n :- PackUnsigned(|a|, 8);
    var body :- PackAll(a, pack);
    Some(n + body)
  }

  function Map<A, T>(a: seq<A>, f: A -> T): (r: seq<T>)
    ensures |r| == |a|
  {
    if a == [] then [] else [f(a[0])] + Map(a[1..], f)
  }

  /** In this buffer, wherever the element is packed, it is read back. */
  ghost predicate ReadsBack<A(!new), T(!new)>(pack: A -> Option<Bytes>, load: Loader<T>, conv: A -> T, buf: Bytes) {
    forall x, off: nat, b {:trigger pack(x), HasAt(buf, off, b)} :: pack(x) == Some(b) && HasAt(buf, off, b) ==>
      load(buf, off) == Some((conv(x), off + |b|))
  }

  lemma {:induction false} LoadManyReadsBack<A(!new), T(!new)>(
    a: seq<A>, pack: A -> Option<Bytes>, load: Loader<T>, conv: A -> T, buf: Bytes, off: nat, p: Bytes)
    requires PackAll(a, pack) == Some(p) && HasAt(buf, off, p)
    requires ReadsBack(pack, load, conv, buf)
    ensures LoadMany(load, buf, off, |a|) == Some((Map(a, conv), off + |p|))
    decreases |a|
  {
    if a != [] {
      var first, rest := pack(a[0]).value, PackAll(a[1..], pack).value;
      HasConcat(buf, off, first, rest);
      assert load(buf, off) == Some((conv(a[0]), off + |first|));
      LoadManyReadsBack(a[1..], pack, load, conv, buf, off + |first|, rest);
    }
  }

  /** The count in front of an array is read first, then its elements. */
  lemma CountThenElements<A>(a: seq<A>, pack: A -> Option<Bytes>, buf: Bytes, off: nat, p: Bytes) returns (body: Bytes)
    requires PackArray(a, pack) == Some(p) && HasAt(buf, off, p)
    ensures PackAll(a, pack) == Some(body) && HasAt(buf, off + 8, body) && |p| == 8 + |body|
    ensures ReadUnsigned(buf, off, 8) == Some((|a|, off + 8))
  {
    var n := PackUnsigned(|a|, 8).value;
    body := PackAll(a, pack).value;
    HasConcat(buf, off, n, body);
    ReadPackedUnsigned(buf, off, |a|, 8, n);
  }

  /** An array of elements that read back reads back. */
  lemma ArrayReadsBack<A(!new), T(!new)>(
    a: seq<A>, pack: A -> Option<Bytes>, load: Loader<T>, conv: A -> T, buf: Bytes, off: nat, p: Bytes)
    requires PackArray(a, pack) == Some(p) && HasAt(buf, off, p)
    requires ReadsBack(pack, load, conv, buf)
    ensures LoadVector(load, buf, off) == Some((Map(a, conv), off + |p|))
  {
    hide ReadUnsigned, PackArray, PackAll, LoadMany, HasAt, Map, ReadsBack;
    var body := CountThenElements(a, pack, buf, off, p);
    LoadManyReadsBack(a, pack, load, conv, buf, off + 8, body);
  }

  /** The loops that read an array. */
  method UnpackArray<T>(load: Loader<T>, buf: Bytes, offs: nat) returns (r: Option<(seq<T>, nat)>)
    ensures r == LoadVector(load, buf, offs)
  {
    var x := ReadUnsigned(buf, offs, 8);
    if x.None? {
      return None;
    }
    var ret, o := [], x.value.1;
    var i := 0;
    ghost var whole := LoadMany(load, buf, o, x.value.0);
    assert whole.Some? ==> [] + whole.value.0 == whole.value.0;
    while i < x.value.0
      invariant 0 <= i <= x.value.0
      invariant var rest := LoadMany(load, buf, o, x.value.0 - i);
                whole == if rest.Some? then Some((ret + rest.value.0, rest.value.1)) else None
    {
      var a := load(buf, o);
      if a.None? {
        return None;
      }
      ghost var rest := LoadMany(load, buf, a.value.1, x.value.0 - (i + 1));
      if rest.Some? {
        assert ret + ([a.value.0] + rest.value.0) == (ret + [a.value.0]) + rest.value.0;
      }
      o := a.value.1;
      ret := ret + [a.value.0];
      i := i + 1;
    }
    assert ret + [] == ret;
    return Some((ret, o));
  }
}
