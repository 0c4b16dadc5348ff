/** valgrind-di-server.c, adler32: the blocked checksum with deferred reductions, against the
    definition of sections 2.2 and 8.2 of RFC 1950. */
module Adler {
  import opened Lru

  const BASE: nat := 65521
  const NMAX: nat := 5552

  newtype uint32 = x: int | 0 <= x < 0x1_0000_0000
  type byte = x: nat | x < 256

  // ----- the definition: both sums reduced after every byte

  ghost function Rfc(s1: nat, s2: nat, s: seq<byte>): (r: (nat, nat)) {
    if s == [] then (s1, s2)
    else
      var (p, q) := Rfc(s1, s2, Front(s));
      var p' := (p + Last(s)) % BASE;
      (p', (q + p') % BASE)
  }

  function Low16(adler: nat): nat { adler % 65536 }
  function High16(adler: nat): nat { adler / 65536 % 65536 }

  /** s2 * 65536 + s1. */
  function Pack(s1: nat, s2: nat): nat { s2 * 65536 + s1 }

  /** A running checksum whose halves are both reduced. */
  predicate Reduced(adler: nat) {
    adler < 0x1_0000_0000 && Low16(adler) < BASE && High16(adler) < BASE
  }

  /** The checksum adler updated with the bytes s. */
  ghost function Checksum(adler: nat, s: seq<byte>): nat {
    var (s1, s2) := Rfc(Low16(adler), High16(adler), s);
    Pack(s1, s2)
  }

  lemma {:induction false} RfcReduced(s1: nat, s2: nat, s: seq<byte>)
    requires s1 < BASE && s2 < BASE
    ensures Rfc(s1, s2, s).0 < BASE && Rfc(s1, s2, s).1 < BASE
  {
    if s != [] {
      RfcReduced(s1, s2, Front(s));
    }
  }

  lemma Unpack(s1: nat, s2: nat)
    requires s1 < 65536 && s2 < 65536
    ensures Low16(Pack(s1, s2)) == s1 && High16(Pack(s1, s2)) == s2
  {
  }

  lemma {:induction false} RfcConcat(s1: nat, s2: nat, x: seq<byte>, y: seq<byte>)
    ensures Rfc(s1, s2, x + y) == Rfc(Rfc(s1, s2, x).0, Rfc(s1, s2, x).1, y)
  {
    if y == [] {
      assert x + y == x;
    } else {
      assert Front(x + y) == x + Front(y) && Last(x + y) == Last(y);
      RfcConcat(s1, s2, x, Front(y));
    }
  }

  /** Streaming: updating with x and then with y is updating with x ++ y, and the running value stays
      reduced. */
  lemma ChecksumStreams(adler: nat, x: seq<byte>, y: seq<byte>)
    requires Reduced(adler)
    ensures Reduced(Checksum(adler, x))
    ensures Checksum(Checksum(adler, x), y) == Checksum(adler, x + y)
  {
    var (s1, s2) := Rfc(Low16(adler), High16(adler), x);
    RfcReduced(Low16(adler), High16(adler), x);
    Unpack(s1, s2);
    RfcConcat(Low16(adler), High16(adler), x, y);
  }

  // ----- deferred reduction

  /** Both sums without any reduction. */
  ghost function Raw(a: nat, b: nat, s: seq<byte>): (r: (nat, nat)) {
    if s == [] then (a, b)
    else
      var (p, q) := Raw(a, b, Front(s));
      (p + Last(s), q + p + Last(s))
  }

  lemma RawNone(a: nat, b: nat)
    ensures Raw(a, b, []) == (a, b)
  {
  }

  lemma ModAdd(x: nat, y: nat)
    ensures (x % BASE + y) % BASE == (x + y) % BASE
  {
  }

  /** Reducing once at the end is reducing after every byte. */
  lemma {:induction false} RawIsRfc(a: nat, b: nat, s: seq<byte>)
    requires a < BASE && b < BASE
    ensures Rfc(a, b, s) == (Raw(a, b, s).0 % BASE, Raw(a, b, s).1 % BASE)
  {
    if s != [] {
      RawIsRfc(a, b, Front(s));
      ReducedStep(Raw(a, b, Front(s)).0, Raw(a, b, Front(s)).1, Last(s));
    } else {
      AlreadyReduced(a);
      AlreadyReduced(b);
    }
  }

  lemma ReducedStep(p: nat, q: nat, c: nat)
    ensures (p % BASE + c) % BASE == (p + c) % BASE
    ensures (q % BASE + (p + c) % BASE) % BASE == (q + p + c) % BASE
  {
    ModAdd(p, c);
    ModAdd(q, (p + c) % BASE);
    ModAdd(p + c, q);
  }

  lemma AlreadyReduced(x: nat)
    requires x < BASE
    ensures x % BASE == x
  {
  }

  /** How large the sums can get: 255 n and 255 n (n + 1) / 2 over the start. */
  lemma {:induction false} RawBound(a: nat, b: nat, s: seq<byte>)
    ensures Raw(a, b, s).0 <= a + 255 * |s|
    ensures 2 * Raw(a, b, s).1 <= 2 * b + 2 * (|s| * a) + 255 * (|s| * (|s| + 1))
  {
    if s != [] {
      RawBound(a, b, Front(s));
      var n := |s| - 1;
      assert |s| * a == n * a + a;
      assert |s| * (|s| + 1) == n * (n + 1) + 2 * (n + 1);
    }
  }

  /** No 32-bit sum overflows within a block of at most NMAX bytes. */
  lemma BlockFits(a: nat, b: nat, s: seq<byte>)
    requires a < BASE && b < BASE && |s| <= NMAX
    ensures Raw(a, b, s).0 < 0x1_0000_0000 && Raw(a, b, s).1 < 0x1_0000_0000
  {
    RawBound(a, b, s);
    MulUp(|s|, NMAX, a, BASE - 1);
    MulUp(|s|, NMAX, |s| + 1, NMAX + 1);
  }

  /** No longer block could do without a reduction: with all sums as large as they can be, one byte more
      overflows. */
  lemma LongestBlock(a: nat, b: nat, s: seq<byte>)
    requires a == b == 65520 && |s| == 5553 && forall k :: 0 <= k < |s| ==> s[k] == 255
    ensures Raw(a, b, s).1 >= 0x1_0000_0000
  {
    RawOfFull(a, b, s);
  }

  lemma {:induction false} RawOfFull(a: nat, b: nat, s: seq<byte>)
    requires forall k :: 0 <= k < |s| ==> s[k] == 255
    ensures Raw(a, b, s).0 == a + 255 * |s|
    ensures 2 * Raw(a, b, s).1 == 2 * (b + a * |s|) + 255 * (|s| * (|s| + 1))
  {
    if s != [] {
      RawOfFull(a, b, Front(s));
      var n := |s| - 1;
      assert a * (n + 1) == a * n + a && (n + 1) * (n + 2) == n * (n + 1) + 2 * (n + 1);
    }
  }

  /** Fewer than 16 bytes stay within reach of one subtraction and of MOD4. */
  lemma ShortFits(a: nat, b: nat, s: seq<byte>)
    requires a < BASE && b < BASE && |s| < 16
    ensures Raw(a, b, s).0 < 2 * BASE && Raw(a, b, s).1 < BASE * 32
  {
    RawBound(a, b, s);
    MulUp(|s|, 15, a, BASE - 1);
    MulUp(|s|, 15, |s| + 1, 16);
  }

  lemma MulUp(x: nat, x': nat, y: nat, y': nat)
    requires x <= x' && y <= y'
    ensures x * y <= x' * y'
  {
    assert x * y <= x' * y;
    assert x' * y <= x' * y';
  }

  // ----- the reduction macros

  /** One line of the MOD macros: c, the base shifted left, is subtracted from a where that is possible. */
  method SubtractOnce(a: nat, c: nat) returns (r: nat)
    requires c > 0 && c % BASE == 0 && a < 2 * c
    ensures r < c && r % BASE == a % BASE
  {
    r := a;
    if r >= c {
      r := r - c;
      assert c == c / BASE * BASE;
      ModShift(r, c / BASE);
    }
  }

  lemma ModShift(r: nat, k: nat)
    ensures (r + k * BASE) % BASE == r % BASE
  {
    if k > 0 {
      ModShift(r, k - 1);
      assert r + k * BASE == r + (k - 1) * BASE + BASE;
    }
  }

  /** MOD: the exact remainder of any 32-bit value. */
  method Mod(a: nat) returns (r: nat)
    requires a < 0x1_0000_0000
    ensures r == a % BASE
  {
    r := SubtractOnce(a, BASE * 65536);
    r := SubtractOnce(r, BASE * 32768);
    r := SubtractOnce(r, BASE * 16384);
    r := SubtractOnce(r, BASE * 8192);
    r := SubtractOnce(r, BASE * 4096);
    r := SubtractOnce(r, BASE * 2048);
    r := SubtractOnce(r, BASE * 1024);
    r := SubtractOnce(r, BASE * 512);
    r := SubtractOnce(r, BASE * 256);
    r := SubtractOnce(r, BASE * 128);
    r := SubtractOnce(r, BASE * 64);
    r := SubtractOnce(r, BASE * 32);
    r := Mod4(r);
  }

  /** MOD4, on values below 32 * BASE. */
  method Mod4(a: nat) returns (r: nat)
    requires a < BASE * 32
    ensures r == a % BASE
  {
    r := SubtractOnce(a, BASE * 16);
    r := SubtractOnce(r, BASE * 8);
    r := SubtractOnce(r, BASE * 4);
    r := SubtractOnce(r, BASE * 2);
    r := SubtractOnce(r, BASE);
  }

  // ----- the function

  /** DO1 repeated: adler and sum2 run over n more bytes of a block that started at `start`. */
  method Accumulate(buf: array<byte>, ghost start: nat, pos: nat, n: nat, ghost a: nat, ghost b: nat, adler: uint32, sum2: uint32)
    returns (adler': uint32, sum2': uint32)
    requires start <= pos && pos + n <= buf.Length && pos + n - start <= NMAX && a < BASE && b < BASE
    requires (adler as int, sum2 as int) == Raw(a, b, buf[start..pos])
    ensures (adler' as int, sum2' as int) == Raw(a, b, buf[start..pos + n])
  {
    adler', sum2' := adler, sum2;
    var i := 0;
    while i < n
      invariant 0 <= i <= n
      invariant (adler' as int, sum2' as int) == Raw(a, b, buf[start..pos + i])
    {
      ghost var s := buf[start..pos + i + 1];
      assert Front(s) == buf[start..pos + i] && Last(s) == buf[pos + i];
      BlockFits(a, b, s);
      adler' := adler' + buf[pos + i] as uint32;
      sum2' := sum2' + adler';
      i := i + 1;
    }
  }

  /** A block that is reduced once at its end. */
  method Block(buf: array<byte>, pos: nat, n: nat, ghost s1: nat, ghost s2: nat, adler: nat, sum2: nat) returns (adler': nat, sum2': nat)
    requires pos + n <= buf.Length && n <= NMAX && s1 < BASE && s2 < BASE
    requires (adler, sum2) == Rfc(s1, s2, buf[..pos])
    ensures (adler', sum2') == Rfc(s1, s2, buf[..pos + n])
  {
    hide Raw, Rfc;
    RfcReduced(s1, s2, buf[..pos]);
    var a, b := adler as uint32, sum2 as uint32;
    var i := 0;
    RawNone(adler, sum2);
    assert buf[pos..pos + i] == [];
    while i + 16 <= n
      invariant 0 <= i <= n && (a as int, b as int) == Raw(adler, sum2, buf[pos..pos + i])
    {
      a, b := Accumulate(buf, pos, pos + i, 16, adler, sum2, a, b);
      i := i + 16;
    }
    a, b := Accumulate(buf, pos, pos + i, n - i, adler, sum2, a, b);
    adler' := Mod(a as nat);
    sum2' := Mod(b as nat);
    RawIsRfc(adler, sum2, buf[pos..pos + n]);
    RfcConcat(s1, s2, buf[..pos], buf[pos..pos + n]);
    assert buf[..pos] + buf[pos..pos + n] == buf[..pos + n];
  }

  /** adler32: a null buffer asks for the initial value, except that a length of 1 is looked at first. */
  method Adler32(adler: nat, buf: array?<byte>, len: nat) returns (r: nat)
    requires Reduced(adler) && (buf != null ==> len <= buf.Length) && (buf == null ==> len != 1)
    ensures buf == null ==> r == 1
    ensures buf != null ==> r == Checksum(adler, buf[..len])
    ensures Reduced(r)
  {
    var sum2 := adler / 65536 % 65536;
    var s := adler % 65536;
    if buf == null {
      return 1;
    }
    RfcReduced(s, sum2, buf[..len]);
    Unpack(Rfc(s, sum2, buf[..len]).0, Rfc(s, sum2, buf[..len]).1);
    assert buf[0..len] == buf[..len];
    if len == 1 {
      r := OneByte(buf, s, sum2);
    } else if len < 16 {
      r := Short(buf, len, s, sum2);
    } else {
      r := Long(buf, len, s, sum2);
    }
  }

  method OneByte(buf: array<byte>, s1: nat, s2: nat) returns (r: nat)
    requires buf.Length >= 1 && s1 < BASE && s2 < BASE
    ensures var (p, q) := Rfc(s1, s2, buf[..1]); r == Pack(p, q)
  {
    hide Rfc;
    var a := s1 + buf[0];
    SubtractedOnce(a);
    if a >= BASE {
      a := a - BASE;
    }
    var b := s2 + a;
    SubtractedOnce(b);
    if b >= BASE {
      b := b - BASE;
    }
    RfcOfOne(s1, s2, buf[..1]);
    r := a + b * 65536;
  }

  lemma SubtractedOnce(x: nat)
    requires x < 2 * BASE
    ensures x % BASE == if x >= BASE then x - BASE else x
  {
  }

  lemma RfcOfOne(s1: nat, s2: nat, s: seq<byte>)
    requires |s| == 1
    ensures Rfc(s1, s2, s) == ((s1 + s[0]) % BASE, (s2 + (s1 + s[0]) % BASE) % BASE)
  {
    assert Front(s) == [];
  }

  method Short(buf: array<byte>, len: nat, s1: nat, s2: nat) returns (r: nat)
    requires len <= buf.Length && len < 16 && s1 < BASE && s2 < BASE
    ensures var (p, q) := Rfc(s1, s2, buf[..len]); r == Pack(p, q)
  {
    hide Raw, Rfc;
    var a, b := s1 as uint32, s2 as uint32;
    assert buf[0..0] == [] && buf[0..len] == buf[..len];
    RawNone(s1, s2);
    a, b := Accumulate(buf, 0, 0, len, s1, s2, a, b);
    ShortFits(s1, s2, buf[..len]);
    RawIsRfc(s1, s2, buf[..len]);
    var p := a as nat;
    if p >= BASE {
      p := p - BASE;
    }
    var q := Mod4(b as nat);
    r := p + q * 65536;
  }

  method Long(buf: array<byte>, len: nat, s1: nat, s2: nat) returns (r: nat)
    requires len <= buf.Length && s1 < BASE && s2 < BASE
    ensures var (p, q) := Rfc(s1, s2, buf[..len]); r == Pack(p, q)
  {
    var a, b := s1, s2;
    var pos, left := 0, len;
    assert buf[..0] == [];
    while left >= NMAX
      invariant 0 <= left && 0 <= pos && pos + left == len && (a, b) == Rfc(s1, s2, buf[..pos])
      decreases left
    {
      a, b := Block(buf, pos, NMAX, s1, s2, a, b);
      pos, left := pos + NMAX, left - NMAX;
    }
    if left > 0 {
      a, b := Block(buf, pos, left, s1, s2, a, b);
    }
    assert buf[..pos + left] == buf[..len];
    r := a + b * 65536;
  }

  // ----- frames

  /** The checksum of a received frame: the initial value, the four length bytes, then the data if
      there is any. */
  method ReceivedChecksum(length: array<byte>, data: array?<byte>, n: nat) returns (adler: nat)
    requires length.Length == 4 && (n > 0 ==> data != null && n <= data.Length)
    ensures adler == Checksum(1, length[..] + if n > 0 then data[..n] else [])
  {
    adler := Adler32(1, null, 0);
    adler := Adler32(adler, length, 4);
    assert length[..4] == length[..];
    ghost var bytes := if n > 0 then data[..n] else [];
    ChecksumStreams(1, length[..], bytes);
    if n > 0 {
      adler := Adler32(adler, data, n);
    } else {
      assert length[..] + [] == length[..];
    }
  }

  /** The checksum of a frame to be sent: the data are folded in without looking at their size. */
  method SentChecksum(length: array<byte>, data: array?<byte>, n: nat) returns (adler: nat)
    requires length.Length == 4 && (if data == null then n == 0 else n <= data.Length)
    ensures adler == if data == null then 1 else Checksum(1, length[..] + data[..n])
  {
    adler := Adler32(1, null, 0);
    adler := Adler32(adler, length, 4);
    assert length[..4] == length[..];
    if data != null {
      ChecksumStreams(1, length[..], data[..n]);
    }
    adler := Adler32(adler, data, n);
  }

  /** A remark on adler32: with a null buffer the checksum would start again, and that is never the
      checksum of four length bytes.  No frame that either side builds has a null buffer (see Frames). */
  lemma NullBufferRestarts(length: seq<byte>)
    requires |length| == 4
    ensures Checksum(1, length) != 1
  {
    hide Raw, Rfc;
    RawIsRfc(1, 0, length);
    RawBound(1, 0, length);
    RawGrows(length);
    AlreadyReduced(Raw(1, 0, length).1);
    assert Rfc(1, 0, length).1 >= 4;
    PackPositive(Rfc(1, 0, length).0, Rfc(1, 0, length).1);
  }

  lemma PackPositive(s1: nat, s2: nat)
    requires s2 > 0
    ensures Pack(s1, s2) >= 65536
  {
  }

  lemma {:induction false} RawGrows(s: seq<byte>)
    ensures Raw(1, 0, s).0 >= 1 && Raw(1, 0, s).1 >= |s|
  {
    if s != [] {
      RawGrows(Front(s));
    }
  }

  /** For example, the bytes of "Wikipedia" have the checksum 11E60398 in hexadecimal. */
  lemma ChecksumExample()
    ensures Checksum(1, [87, 105, 107, 105, 112, 101, 100, 105, 97]) == 0x11E6_0398
  {
    hide Rfc;
    NoBytes();
    var s0: seq<byte> := [];
    var s1 := s0 + [87];
    OneMore(s0, 87, 1, 0);
    var s2 := s1 + [105];
    OneMore(s1, 105, 88, 88);
    var s3 := s2 + [107];
    OneMore(s2, 107, 193, 281);
    var s4 := s3 + [105];
    OneMore(s3, 105, 300, 581);
    var s5 := s4 + [112];
    OneMore(s4, 112, 405, 986);
    var s6 := s5 + [101];
    OneMore(s5, 101, 517, 1503);
    var s7 := s6 + [100];
    OneMore(s6, 100, 618, 2121);
    var s8 := s7 + [105];
    OneMore(s7, 105, 718, 2839);
    var s9 := s8 + [97];
    OneMore(s8, 97, 823, 3662);
    assert s9 == [87, 105, 107, 105, 112, 101, 100, 105, 97];
  }

  lemma NoBytes()
    ensures Rfc(1, 0, []) == (1, 0)
  {
  }

  lemma OneMore(s: seq<byte>, c: byte, p: nat, q: nat)
    requires Rfc(1, 0, s) == (p, q)
    ensures Rfc(1, 0, s + [c]) == ((p + c) % BASE, (q + (p + c) % BASE) % BASE)
  {
    assert Front(s + [c]) == s;
  }
}
