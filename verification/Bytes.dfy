/** Bytes, big-endian integers and the cursor every wire format below is read with. */
module Bytes {

  datatype Option<+T> = None | Some(value: T)

  type byte = x: int | 0 <= x < 256

  const U8_MAX: nat := 0xFF
  const U16_MAX: nat := 0xFFFF
  const U32_MAX: nat := 0xFFFF_FFFF
  const U64_MAX: nat := 0xFFFF_FFFF_FFFF_FFFF

  type u16 = x: int | 0 <= x <= 0xFFFF
  type u32 = x: int | 0 <= x <= 0xFFFF_FFFF
  type u64 = x: int | 0 <= x <= 0xFFFF_FFFF_FFFF_FFFF
  type i64 = x: int | -0x8000_0000_0000_0000 <= x <= 0x7FFF_FFFF_FFFF_FFFF

  /** 256 to the power k: the number of values k bytes can hold. */
  function Pow256(k: nat): (p: nat)
    ensures p >= 1
  {
    if k == 0 then 1 else 256 * Pow256(k - 1)
  }

  lemma Pow256Widths()
    ensures Pow256(1) == U8_MAX + 1
    ensures Pow256(2) == U16_MAX + 1
    ensures Pow256(4) == U32_MAX + 1
    ensures Pow256(8) == U64_MAX + 1
  {
    assert Pow256(3) == 0x100_0000;
    assert Pow256(4) == 0x1_0000_0000;
    assert Pow256(5) == 0x100_0000_0000;
    assert Pow256(6) == 0x1_0000_0000_0000;
    assert Pow256(7) == 0x100_0000_0000_0000;
  }

  /** The low k bytes of v, most significant first (what `put_u16(v as u16)` and its siblings append). */
  function BigEndian(v: nat, k: nat): (s: seq<byte>)
    ensures |s| == k
  {
    if k == 0 then [] else BigEndian(v / 256, k - 1) + [v % 256]
  }

  /** The number a byte string spells, most significant byte first. */
  function FromBigEndian(s: seq<byte>): (v: nat)
  {
    if |s| == 0 then 0 else FromBigEndian(s[..|s| - 1]) * 256 + s[|s| - 1]
  }

  /** Reading back k bytes returns v truncated to k bytes. */
  lemma {:induction false} FromToBigEndian(v: nat, k: nat)
    ensures FromBigEndian(BigEndian(v, k)) == v % Pow256(k)
  {
    if k > 0 {
      var s := BigEndian(v, k);
      assert s[..k - 1] == BigEndian(v / 256, k - 1);
      FromToBigEndian(v / 256, k - 1);
      ModSplit(v, Pow256(k - 1));
    }
  }

  lemma ModSplit(v: nat, p: nat)
    requires p >= 1
    ensures (v / 256) % p * 256 + v % 256 == v % (256 * p)
  {
    var q, r := v / 256, v % 256;
    var a, b := q / p, q % p;
    assert q == p * a + b;
    assert v == 256 * q + r == (256 * p) * a + (256 * b + r);
    assert b <= p - 1;
    assert 256 * b + r < 256 * p;
    DivModUnique(v, 256 * p, a, 256 * b + r);
  }

  lemma DivModUnique(v: nat, d: nat, q: nat, r: nat)
    requires r < d && v == d * q + r
    ensures v / d == q && v % d == r
  {
    var q' := v / d;
    assert v == d * q' + v % d;
    if q' < q {
      MulGap(d, q', q);
    } else if q < q' {
      MulGap(d, q, q');
    }
  }

  lemma {:induction false} MulGap(d: nat, a: nat, b: nat)
    requires a < b
    ensures d * b >= d * a + d
    decreases b
  {
    if a + 1 < b {
      MulGap(d, a, b - 1);
    }
  }

  /** A value that fits its width is read back unchanged. */
  lemma BigEndianFits(v: nat, k: nat)
    requires v < Pow256(k)
    ensures FromBigEndian(BigEndian(v, k)) == v
  {
    FromToBigEndian(v, k);
    DivModUnique(v, Pow256(k), 0, v);
  }

  lemma {:induction false} FromBigEndianBound(s: seq<byte>)
    ensures FromBigEndian(s) < Pow256(|s|)
  {
    if |s| > 0 {
      FromBigEndianBound(s[..|s| - 1]);
    }
  }

  /** Bytes survive being read as a number and written again. */
  lemma {:induction false} ToFromBigEndian(s: seq<byte>)
    ensures BigEndian(FromBigEndian(s), |s|) == s
  {
    if |s| > 0 {
      var t := s[..|s| - 1];
      ToFromBigEndian(t);
      var v := FromBigEndian(s);
      DivModUnique(v, 256, FromBigEndian(t), s[|s| - 1]);
      assert s == t + [s[|s| - 1]];
    }
  }

  /** Two's complement view of an i64, as `put_i64` writes it. */
  function FromI64(v: i64): (u: u64)
  {
    if v >= 0 then v else v + U64_MAX + 1
  }

  function ToI64(u: u64): (v: i64)
  {
    if u <= 0x7FFF_FFFF_FFFF_FFFF then u else u - U64_MAX - 1
  }

  /** Split n bytes off the front, when there are that many. */
  function Take(buf: seq<byte>, n: nat): (r: Option<(seq<byte>, seq<byte>)>)
    ensures r.Some? <==> |buf| >= n
    ensures r.Some? ==> |r.value.0| == n && r.value.0 + r.value.1 == buf
  {
    if |buf| < n then None else Some((buf[..n], buf[n..]))
  }

  lemma TakeConcat(a: seq<byte>, b: seq<byte>)
    ensures Take(a + b, |a|) == Some((a, b))
  {
    assert (a + b)[..|a|] == a;
    assert (a + b)[|a|..] == b;
  }

  /** Read a k-byte unsigned integer off the front. */
  function TakeInt(buf: seq<byte>, k: nat): (r: Option<(nat, seq<byte>)>)
    ensures r.Some? <==> |buf| >= k
    ensures r.Some? ==> r.value.1 == buf[k..]
  {
    match Take(buf, k)
    case None => None
    case Some((h, t)) => Some((FromBigEndian(h), t))
  }

  lemma TakeIntConcat(v: nat, k: nat, b: seq<byte>)
    requires v < Pow256(k)
    ensures TakeInt(BigEndian(v, k) + b, k) == Some((v, b))
  {
    TakeConcat(BigEndian(v, k), b);
    BigEndianFits(v, k);
  }

  /** What TakeInt consumed is the encoding of the number it returned, and the number fits. */
  lemma TakeIntInverse(buf: seq<byte>, k: nat)
    requires |buf| >= k
    ensures var r := TakeInt(buf, k).value;
            r.0 < Pow256(k) && BigEndian(r.0, k) + r.1 == buf
  {
    var (h, t) := Take(buf, k).value;
    FromBigEndianBound(h);
    ToFromBigEndian(h);
  }

  lemma TakeExact(buf: seq<byte>, n: nat, head: seq<byte>, rest: seq<byte>)
    ensures Take(buf, n) == Some((head, rest)) <==> buf == head + rest && |head| == n
  {
    if buf == head + rest {
      TakeConcat(head, rest);
    }
  }

  /** A field behind its own length, as it is read and as it is written. */
  predicate SizedField(buf: seq<byte>, k: nat, body: seq<byte>, rest: seq<byte>)
  {
    match TakeInt(buf, k)
    case None => false
    case Some((len, b)) => len <= |b| && b[..len] == body && b[len..] == rest
  }

  lemma SizedFieldExact(buf: seq<byte>, k: nat, body: seq<byte>, rest: seq<byte>)
    ensures SizedField(buf, k, body, rest) <==> buf == BigEndian(|body|, k) + (body + rest) && |body| < Pow256(k)
  {
    if SizedField(buf, k, body, rest) {
      TakeIntInverse(buf, k);
      assert TakeInt(buf, k).value.1 == body + rest;
    }
    if buf == BigEndian(|body|, k) + (body + rest) && |body| < Pow256(k) {
      TakeIntConcat(|body|, k, body + rest);
      TakeConcat(body, rest);
    }
    hide TakeInt, BigEndian, Pow256;
  }

  lemma Tagged(input: seq<byte>, tag: byte, body: seq<byte>, rest: seq<byte>)
    requires input != []
    ensures input == ([tag] + body) + rest <==> input[0] == tag && input[1..] == body + rest
  {
    assert input == [input[0]] + input[1..];
    assert (([tag] + body) + rest)[1..] == body + rest;
  }

  function Concat(chunks: seq<seq<byte>>): (s: seq<byte>)
  {
    if |chunks| == 0 then [] else chunks[0] + Concat(chunks[1..])
  }

  lemma {:induction false} SubsetSize<T>(a: set<T>, b: set<T>)
    requires a <= b
    ensures |a| <= |b|
  {
    if a != {} {
      var x :| x in a;
      SubsetSize(a - {x}, b - {x});
    }
  }
}
