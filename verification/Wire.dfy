/** The byte-level cursors of the AMQP codec: big-endian integers, bounded reads and
    bounded writes.  Every codec above works on a buffer and an offset into it. */
module Wire {

  type byte = b: int | 0 <= b < 256

  const U16: nat := 0x1_0000
  const U32: nat := 0x1_0000_0000
  const U64: nat := 0x1_0000_0000_0000_0000

  datatype Option<+T> = None | Some(value: T)

  /** A bounded read: `Bad` when it would leave the buffer, else the value and the new offset. */
  datatype Read<+T> = Bad | Got(value: T, next: nat)

  // ----- big-endian integers -----

  function Pow256(n: nat): (r: nat)
    ensures r >= 1
  {
    if n == 0 then 1 else 256 * Pow256(n - 1)
  }

  /** The low `n` bytes of `v`, most significant first. */
  function BigEndian(n: nat, v: nat): (r: seq<byte>)
    ensures |r| == n
  {
    if n == 0 then [] else BigEndian(n - 1, v / 256) + [v % 256]
  }

  function FromBigEndian(s: seq<byte>): (r: nat)
    ensures r < Pow256(|s|)
  {
    if s == [] then 0
    else
      256 * FromBigEndian(s[..|s| - 1]) + s[|s| - 1]
  }

  lemma Pow256Values()
    ensures Pow256(1) == 256 && Pow256(2) == U16 && Pow256(4) == U32 && Pow256(8) == U64
  {
    assert Pow256(2) == 256 * Pow256(1);
    assert Pow256(4) == 256 * Pow256(3) == 256 * (256 * Pow256(2));
    assert Pow256(6) == 256 * Pow256(5) == 256 * (256 * Pow256(4));
    assert Pow256(8) == 256 * Pow256(7) == 256 * (256 * Pow256(6));
  }

  /** What is stored in `n` bytes is read back, as long as it fits them. */
  lemma {:induction false} BigEndianRoundTrip(n: nat, v: nat)
    requires v < Pow256(n)
    ensures FromBigEndian(BigEndian(n, v)) == v
  {
    if n > 0 {
      BigEndianRoundTrip(n - 1, v / 256);
      var s := BigEndian(n, v);
      assert s[..n - 1] == BigEndian(n - 1, v / 256);
    }
  }

  lemma ShortRoundTrip(v: nat)
    requires v < U16
    ensures FromBigEndian(BigEndian(2, v)) == v
  {
    Pow256Values();
    BigEndianRoundTrip(2, v);
  }

  lemma LongRoundTrip(v: nat)
    requires v < U32
    ensures FromBigEndian(BigEndian(4, v)) == v
  {
    Pow256Values();
    BigEndianRoundTrip(4, v);
  }

  /** Every byte string is the big-endian form of the number it denotes. */
  lemma {:induction false} FromBigEndianRoundTrip(s: seq<byte>)
    ensures BigEndian(|s|, FromBigEndian(s)) == s
  {
    if s != [] {
      FromBigEndianRoundTrip(s[..|s| - 1]);
      assert s == s[..|s| - 1] + [s[|s| - 1]];
    }
  }

  /** `buf` holds the bytes `s` from offset `off` on. */
  ghost predicate At(buf: seq<byte>, off: nat, s: seq<byte>) {
    off + |s| <= |buf| && forall i | 0 <= i < |s| :: buf[off + i] == s[i]
  }

  lemma AtSplit(buf: seq<byte>, off: nat, a: seq<byte>, b: seq<byte>)
    ensures At(buf, off, a + b) <==> At(buf, off, a) && At(buf, off + |a|, b)
  {
    var ab := a + b;
    if At(buf, off, ab) {
      forall i | 0 <= i < |a| ensures buf[off + i] == a[i] { assert ab[i] == a[i]; }
      forall i | 0 <= i < |b| ensures buf[off + |a| + i] == b[i] { assert ab[|a| + i] == b[i]; }
    }
    if At(buf, off, a) && At(buf, off + |a|, b) {
      forall i | 0 <= i < |ab| ensures buf[off + i] == ab[i] {
        if i >= |a| { assert buf[off + |a| + (i - |a|)] == b[i - |a|]; }
      }
    }
  }

  // ----- bounded reads -----

  /** `amqp_decode_8` to `amqp_decode_64`. */
  function NumberAt(buf: seq<byte>, off: nat, n: nat): (r: Read<nat>)
    ensures r.Got? ==> r.next == off + n <= |buf| && r.value < Pow256(n)
    ensures r.Got? <==> off + n <= |buf|
  {
    if off + n <= |buf| then Got(FromBigEndian(buf[off..off + n]), off + n) else Bad
  }

  /** `amqp_decode_bytes`: a slice of the buffer. */
  function SliceAt(buf: seq<byte>, off: nat, n: nat): (r: Read<seq<byte>>)
    ensures r.Got? <==> off + n <= |buf|
    ensures r.Got? ==> r.next == off + n && |r.value| == n && At(buf, off, r.value)
  {
    if off + n <= |buf| then Got(buf[off..off + n], off + n) else Bad
  }

  lemma NumberAtRoundTrip(buf: seq<byte>, off: nat, n: nat, v: nat)
    requires v < Pow256(n) && At(buf, off, BigEndian(n, v))
    ensures NumberAt(buf, off, n) == Got(v, off + n)
  {
    assert buf[off..off + n] == BigEndian(n, v);
    BigEndianRoundTrip(n, v);
  }

  // ----- bounded writes -----

  /** `after` is `before` with `s` stored at `off` and nothing else touched. */
  ghost predicate Stored(before: seq<byte>, after: seq<byte>, off: nat, s: seq<byte>) {
    && off + |s| <= |before|
    && after == before[..off] + s + before[off + |s|..]
  }

  /** Two stores next to each other, in either order, are one store: what back-patching relies on. */
  lemma StoredAdjacent(a: seq<byte>, b: seq<byte>, c: seq<byte>, off: nat, s: seq<byte>, t: seq<byte>)
    requires || (Stored(a, b, off, s) && Stored(b, c, off + |s|, t))
             || (Stored(a, b, off + |s|, t) && Stored(b, c, off, s))
    ensures Stored(a, c, off, s + t)
  {
    assert |a| == |c|;
    var w := a[..off] + (s + t) + a[off + |s + t|..];
    assert |c| == |w|;
    forall i | 0 <= i < |c| ensures c[i] == w[i] {
    }
    assert c == w;
  }

  lemma StoredPrefix(before: seq<byte>, after: seq<byte>, off: nat, s: seq<byte>)
    requires Stored(before, after, off, s)
    ensures after[..off + |s|] == before[..off] + s
  {
  }

  /** memcpy into the buffer. */
  method Store(buf: array<byte>, off: nat, s: seq<byte>)
    requires off + |s| <= buf.Length
    modifies buf
    ensures Stored(old(buf[..]), buf[..], off, s)
  {
    forall i | 0 <= i < |s| { buf[off + i] := s[i]; }
    assert buf[..] == old(buf[..off]) + s + old(buf[off + |s|..]);
  }

  /** `amqp_encode_8` to `amqp_encode_64`: the offset advances even when the write is refused. */
  method Encode(buf: array<byte>, off: nat, s: seq<byte>) returns (ok: bool, next: nat)
    modifies buf
    ensures next == off + |s|
    ensures ok <==> off + |s| <= buf.Length
    ensures if ok then Stored(old(buf[..]), buf[..], off, s) else buf[..] == old(buf[..])
  {
    next := off + |s|;
    ok := next <= buf.Length;
    if ok { Store(buf, off, s); }
  }

  /** `amqp_encode_bytes`: an empty string is accepted without looking at the offset. */
  method EncodeBytes(buf: array<byte>, off: nat, s: seq<byte>) returns (ok: bool, next: nat)
    modifies buf
    ensures next == off + |s|
    ensures ok <==> s == [] || off + |s| <= buf.Length
    ensures ok && off <= buf.Length ==> Stored(old(buf[..]), buf[..], off, s)
    ensures !ok ==> buf[..] == old(buf[..])
  {
    if s == [] {
      assert off <= buf.Length ==> buf[..] == buf[..off] + s + buf[off..];
      return true, off;
    }
    ok, next := Encode(buf, off, s);
  }
}
