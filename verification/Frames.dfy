/** valgrind-di-server.c and m_debuginfo/image.c: the frames of the debug info protocol, how they are put on
    the wire, and what the other side makes of the bytes it reads. */
module Frames {
  import opened Options
  import opened Words
  import opened Adler

  // ----- little-endian numbers

  /** The low k bytes of n, the lowest first. */
  function Le(n: nat, k: nat): (s: seq<byte>)
    ensures |s| == k
  {
    if k == 0 then [] else [n % 256] + Le(n / 256, k - 1)
  }

  function FromLe(s: seq<byte>): nat {
    if s == [] then 0 else s[0] + 256 * FromLe(s[1..])
  }

  /** 256 to the power of k. */
  function Range(k: nat): (r: nat)
    ensures r > 0
  {
    if k == 0 then 1 else 256 * Range(k - 1)
  }

  lemma {:induction false} LeReads(n: nat, k: nat)
    requires n < Range(k)
    ensures FromLe(Le(n, k)) == n
  {
    if k > 0 {
      LeReads(n / 256, k - 1);
      assert Le(n, k)[1..] == Le(n / 256, k - 1);
    }
  }

  lemma {:induction false} LeWrites(s: seq<byte>)
    ensures FromLe(s) < Range(|s|) && Le(FromLe(s), |s|) == s
  {
    if s != [] {
      LeWrites(s[1..]);
      assert FromLe(s) % 256 == s[0] && FromLe(s) / 256 == FromLe(s[1..]);
    }
  }

  lemma Ranges()
    ensures Range(4) == 0x1_0000_0000 && Range(8) == 0x1_0000_0000_0000_0000
  {
    assert Range(2) == 65536;
    assert Range(4) == 256 * (256 * Range(2));
    assert Range(6) == 256 * (256 * Range(4));
  }

  /** Byte i is the one of weight 256^i. */
  lemma {:induction false} LeByte(n: nat, k: nat, i: nat)
    requires i < k
    ensures Le(n, k)[i] == n / Range(i) % 256
    decreases k
  {
    if i > 0 {
      LeByte(n / 256, k - 1, i - 1);
      DivideTwice(n, Range(i - 1));
    }
  }

  lemma DivideTwice(n: nat, r: nat)
    requires r > 0
    ensures n / 256 / r == n / (256 * r)
  {
    var q, m := n / 256, n % 256;
    var a, b := q / r, q % r;
    assert n == (a * r + b) * 256 + m == a * (256 * r) + (b * 256 + m);
    assert b * 256 + m < 256 * r;
    RemUnique(n, 256 * r, a, b * 256 + m);
  }

  /** write_UInt_le and write_ULong_le, for k = 4 and 8. */
  method WriteLe(dst: array<byte>, at: nat, n: nat, k: nat)
    requires at + k <= dst.Length
    modifies dst
    ensures dst[..] == old(dst[..at]) + Le(n, k) + old(dst[at + k..])
  {
    var rest := n;
    for i := 0 to k
      invariant dst[..at] == old(dst[..at]) && dst[at + k..] == old(dst[at + k..])
      invariant dst[at..at + i] + Le(rest, k - i) == Le(n, k)
    {
      ghost var done := dst[at..at + i];
      assert Le(rest, k - i) == [rest % 256] + Le(rest / 256, k - i - 1);
      dst[at + i] := rest % 256;
      rest := rest / 256;
      assert dst[at..at + i + 1] == done + [dst[at + i]];
    }
    assert dst[..] == dst[..at] + dst[at..at + k] + dst[at + k..];
  }

  /** read_UInt_le and read_ULong_le, from the highest byte down. */
  method ReadLe(src: array<byte>, at: nat, k: nat) returns (r: nat)
    requires at + k <= src.Length
    ensures r == FromLe(src[at..at + k])
  {
    r := 0;
    for i := k downto 0
      invariant r == FromLe(src[at + i..at + k])
    {
      assert src[at + i..at + k] == [src[at + i]] + src[at + i + 1..at + k];
      r := r * 256 + src[at + i];
    }
  }

  // ----- on the wire

  /** Both sides refuse frames with more data than this. */
  const MAX: nat := 4 * 1024 * 1024

  /** The checksum covers the length and the data. */
  ghost function SumOf(data: seq<byte>): nat {
    Checksum(1, Le(|data|, 4) + data)
  }

  /** What goes on the wire: checksum, length, data. */
  ghost function Wire(data: seq<byte>): seq<byte> {
    Le(SumOf(data), 4) + Le(|data|, 4) + data
  }

  /** What a peer makes of the bytes it reads: the data of the first frame, and the bytes left for the
      next one.  The server takes any length, the client at least that of a tag. */
  ghost function Receive(least: nat, s: seq<byte>): Option<(seq<byte>, seq<byte>)> {
    if |s| < 8 then None
    else
      var len := FromLe(s[4..8]);
      if len < least || len > MAX || |s| < 8 + len then None
      else if Checksum(1, s[4..8] + s[8..8 + len]) != FromLe(s[..4]) then None
      else Some((s[8..8 + len], s[8 + len..]))
  }

  lemma SumIsWord(data: seq<byte>)
    ensures SumOf(data) < Range(4) && FromLe(Le(SumOf(data), 4)) == SumOf(data)
  {
    Ranges();
    ChecksumStreams(1, Le(|data|, 4) + data, []);
    LeReads(SumOf(data), 4);
  }

  lemma WireParts(data: seq<byte>, rest: seq<byte>)
    ensures var s := Wire(data) + rest;
            && |s| == 8 + |data| + |rest|
            && s[..4] == Le(SumOf(data), 4) && s[4..8] == Le(|data|, 4)
            && s[8..8 + |data|] == data && s[8 + |data|..] == rest
  {
  }

  /** The first frame is received exactly when the bytes are those of a frame of acceptable length: what
      was sent arrives, and nothing else is taken for a frame. */
  lemma ReceiveIff(least: nat, s: seq<byte>, data: seq<byte>, rest: seq<byte>)
    ensures Receive(least, s) == Some((data, rest)) <==> s == Wire(data) + rest && least <= |data| <= MAX
  {
    hide Le, FromLe, Checksum, Range;
    Ranges();
    if s == Wire(data) + rest && least <= |data| <= MAX {
      WireParts(data, rest);
      SumIsWord(data);
      LeReads(|data|, 4);
    }
    if Receive(least, s) == Some((data, rest)) {
      LeWrites(s[..4]);
      LeWrites(s[4..8]);
      assert s == s[..4] + s[4..8] + s[8..8 + |data|] + s[8 + |data|..];
    }
  }

  /** Every frame read off a stream of bytes, up to the first that is refused. */
  ghost function Drained(least: nat, s: seq<byte>): seq<seq<byte>>
    decreases |s|
  {
    match Receive(least, s)
    case None => []
    case Some((data, rest)) => [data] + Drained(least, rest)
  }

  ghost function Stream(frames: seq<seq<byte>>): seq<byte> {
    if frames == [] then [] else Wire(frames[0]) + Stream(frames[1..])
  }

  lemma SmallLe(n: nat, a: byte, b: byte, c: byte, d: byte)
    requires n == a + 256 * (b + 256 * (c + 256 * d))
    ensures Le(n, 4) == [a, b, c, d]
  {
    assert Le(n, 4) == [a] + Le(b + 256 * (c + 256 * d), 3);
    assert Le(b + 256 * (c + 256 * d), 3) == [b] + Le(c + 256 * d, 2);
    assert Le(c + 256 * d, 2) == [c] + Le(d, 1) && Le(d, 1) == [d] + Le(0, 0);
  }

  /** For example, the frame of a single byte 5: checksum, length and data, lowest bytes first. */
  lemma WireExample()
    ensures Wire([5]) == [7, 0, 15, 0, 1, 0, 0, 0, 5]
  {
    hide Rfc;
    SmallLe(1, 1, 0, 0, 0);
    NoBytes();
    var s0: seq<byte> := [];
    var s1, s2, s3, s4 := s0 + [1], s0 + [1] + [0], s0 + [1] + [0] + [0], s0 + [1] + [0] + [0] + [0];
    OneMore(s0, 1, 1, 0);
    OneMore(s1, 0, 2, 2);
    OneMore(s2, 0, 2, 4);
    OneMore(s3, 0, 2, 6);
    OneMore(s4, 5, 2, 8);
    assert Le(1, 4) + [5] == s4 + [5];
    assert SumOf([5]) == 983047;
    SmallLe(983047, 7, 0, 15, 0);
  }

  /** Frames sent one after the other arrive one after the other. */
  lemma {:induction false} StreamArrives(least: nat, frames: seq<seq<byte>>)
    requires forall k :: 0 <= k < |frames| ==> least <= |frames[k]| <= MAX
    ensures Drained(least, Stream(frames)) == frames
  {
    hide Receive, Wire;
    if frames != [] {
      StreamArrives(least, frames[1..]);
      ReceiveIff(least, Stream(frames), frames[0], Stream(frames[1..]));
    } else {
      NothingToRead(least);
    }
  }

  lemma NothingToRead(least: nat)
    ensures Receive(least, []) == None
  {
  }

  // ----- damage on the way

  ghost function Sum(s: seq<byte>): nat {
    if s == [] then 0 else Sum(s[..|s| - 1]) + s[|s| - 1]
  }

  lemma {:induction false} LowHalfIsSum(s1: nat, s2: nat, s: seq<byte>)
    requires s1 < BASE
    ensures Rfc(s1, s2, s).0 == (s1 + Sum(s)) % BASE
  {
    if s != [] {
      LowHalfIsSum(s1, s2, s[..|s| - 1]);
      ModAdd(s1 + Sum(s[..|s| - 1]), s[|s| - 1]);
    }
  }

  lemma {:induction false} SumConcat(x: seq<byte>, y: seq<byte>)
    ensures Sum(x + y) == Sum(x) + Sum(y)
  {
    if y == [] {
      assert x + y == x;
    } else {
      assert (x + y)[..|x + y| - 1] == x + y[..|y| - 1];
      SumConcat(x, y[..|y| - 1]);
    }
  }

  lemma SumChanged(s: seq<byte>, i: nat, b: byte)
    requires i < |s|
    ensures Sum(s[i := b]) == Sum(s) - s[i] + b
  {
    var x, y := s[..i], s[i + 1..];
    assert s == x + ([s[i]] + y) && s[i := b] == x + ([b] + y);
    SumConcat(x, [s[i]] + y);
    SumConcat([s[i]], y);
    SumConcat(x, [b] + y);
    SumConcat([b], y);
  }

  lemma CloseRemainders(x: nat, y: nat)
    requires x < y < x + BASE
    ensures x % BASE != y % BASE
  {
  }

  /** No change of a single byte goes unnoticed by the checksum. */
  lemma OneByteNoticed(s: seq<byte>, i: nat, b: byte)
    requires i < |s| && b != s[i]
    ensures Checksum(1, s[i := b]) != Checksum(1, s)
  {
    hide Rfc, Sum;
    var s' := s[i := b];
    RfcReduced(1, 0, s);
    RfcReduced(1, 0, s');
    Unpack(Rfc(1, 0, s).0, Rfc(1, 0, s).1);
    Unpack(Rfc(1, 0, s').0, Rfc(1, 0, s').1);
    LowHalfIsSum(1, 0, s);
    LowHalfIsSum(1, 0, s');
    SumChanged(s, i, b);
    if b > s[i] {
      CloseRemainders(1 + Sum(s), 1 + Sum(s'));
    } else {
      CloseRemainders(1 + Sum(s'), 1 + Sum(s));
    }
  }

  /** A frame damaged in one byte of its checksum or of its data is refused. */
  lemma DamageIsRefused(least: nat, data: seq<byte>, rest: seq<byte>, i: nat, b: byte)
    requires |data| <= MAX && (i < 4 || 8 <= i < 8 + |data|) && b != (Wire(data) + rest)[i]
    ensures Receive(least, (Wire(data) + rest)[i := b]) == None
  {
    hide Le, FromLe, Checksum, Range, Wire;
    Ranges();
    WireParts(data, rest);
    var s := Wire(data) + rest;
    var s' := s[i := b];
    SumIsWord(data);
    LeReads(|data|, 4);
    assert s'[4..8] == s[4..8];
    if i < 4 {
      LeWrites(s[..4]);
      LeWrites(s'[..4]);
      assert s'[..4][i] != s[..4][i];
      assert s'[8..8 + |data|] == data;
    } else {
      var covered := Le(|data|, 4) + data;
      assert s'[..4] == s[..4];
      assert s'[4..8] + s'[8..8 + |data|] == covered[i - 4 := b];
      OneByteNoticed(covered, i - 4, b);
    }
  }

  // ----- messages

  /** A tag of four bytes, then nothing, a string with its terminating zero, or numbers of eight bytes
      with or without bytes behind them. */
  datatype Message =
    | NoArgs(tag: seq<byte>)
    | Asciiz(tag: seq<byte>, str: seq<byte>)
    | Numbers(tag: seq<byte>, ns: seq<nat>)
    | NumbersBytes(tag: seq<byte>, ns: seq<nat>, bytes: seq<byte>)

  function LeAll(ns: seq<nat>): (s: seq<byte>)
    ensures |s| == 8 * |ns|
  {
    if ns == [] then [] else LeAll(ns[..|ns| - 1]) + Le(ns[|ns| - 1], 8)
  }

  ghost predicate Longs(ns: seq<nat>) {
    forall k :: 0 <= k < |ns| ==> ns[k] < Range(8)
  }

  function Encoded(m: Message): seq<byte> {
    match m
    case NoArgs(tag) => tag
    case Asciiz(tag, str) => tag + str + [0]
    case Numbers(tag, ns) => tag + LeAll(ns)
    case NumbersBytes(tag, ns, bytes) => tag + LeAll(ns) + bytes
  }

  /** The messages that the builders of the two sides make. */
  ghost predicate Built(m: Message) {
    |m.tag| == 4 && (m.Numbers? || m.NumbersBytes? ==> |m.ns| > 0)
  }

  /** Byte j of number i. */
  lemma {:induction false} LeAllByte(ns: seq<nat>, i: nat, j: nat)
    requires i < |ns| && j < 8
    ensures LeAll(ns)[8 * i + j] == ns[i] / Range(j) % 256
    decreases |ns|
  {
    if i < |ns| - 1 {
      LeAllByte(ns[..|ns| - 1], i, j);
    } else {
      LeByte(ns[i], 8, j);
    }
  }

  /** The data of a message byte by byte: the tag first, then the string and a zero, or the numbers, each in
      eight bytes, the lowest first, and any further bytes after them. */
  lemma EncodedBytes(m: Message)
    ensures var d, t := Encoded(m), |m.tag|;
            && d[..t] == m.tag
            && match m
               case NoArgs(_) => |d| == t
               case Asciiz(_, str) => |d| == t + |str| + 1 && d[t..t + |str|] == str && d[t + |str|] == 0
               case Numbers(_, ns) => |d| == t + 8 * |ns|
               case NumbersBytes(_, ns, bytes) => |d| == t + 8 * |ns| + |bytes| && d[t + 8 * |ns|..] == bytes
    ensures m.Numbers? || m.NumbersBytes? ==>
              forall i, j :: 0 <= i < |m.ns| && 0 <= j < 8 ==> Encoded(m)[|m.tag| + 8 * i + j] == m.ns[i] / Range(j) % 256
  {
    if m.Numbers? || m.NumbersBytes? {
      forall i, j | 0 <= i < |m.ns| && 0 <= j < 8
        ensures Encoded(m)[|m.tag| + 8 * i + j] == m.ns[i] / Range(j) % 256
      {
        LeAllByte(m.ns, i, j);
        assert Encoded(m)[|m.tag| + 8 * i + j] == LeAll(m.ns)[8 * i + j];
      }
    }
  }

  /** Their data begin with the tag, so both sides take them as long as they are not too long. */
  lemma BuiltArrives(m: Message, rest: seq<byte>)
    requires Built(m)
    ensures |Encoded(m)| >= 4 && (!m.NoArgs? ==> |Encoded(m)| > 4)
    ensures Receive(4, Wire(Encoded(m)) + rest) == Some((Encoded(m), rest)) <==> |Encoded(m)| <= MAX
  {
    ReceiveIff(4, Wire(Encoded(m)) + rest, Encoded(m), rest);
  }

  /** memcpy of s to dst + at. */
  method Copy(dst: array<byte>, at: nat, s: seq<byte>)
    requires at + |s| <= dst.Length
    modifies dst
    ensures dst[..] == old(dst[..at]) + s + old(dst[at + |s|..])
  {
    for i := 0 to |s|
      invariant dst[..at] == old(dst[..at]) && dst[at + |s|..] == old(dst[at + |s|..])
      invariant dst[at..at + i] == s[..i]
    {
      dst[at + i] := s[i];
    }
    assert dst[..] == dst[..at] + dst[at..at + |s|] + dst[at + |s|..];
  }

  /** mk_Frame_noargs. */
  method MkNoArgs(tag: seq<byte>) returns (data: array<byte>)
    requires |tag| == 4
    ensures fresh(data) && data[..] == Encoded(NoArgs(tag))
  {
    data := new byte[4](_ => 0);
    Copy(data, 0, tag);
  }

  /** mk_Frame_asciiz: the last byte is the zero that calloc left there. */
  method MkAsciiz(tag: seq<byte>, str: seq<byte>) returns (data: array<byte>)
    requires |tag| == 4
    ensures fresh(data) && data[..] == Encoded(Asciiz(tag, str))
  {
    data := new byte[4 + |str| + 1](_ => 0);
    Copy(data, 0, tag);
    Copy(data, 4, str);
    assert data[..] == tag + str + [0];
  }

  method WriteLongs(dst: array<byte>, at: nat, ns: seq<nat>)
    requires at + 8 * |ns| <= dst.Length
    modifies dst
    ensures dst[..] == old(dst[..at]) + LeAll(ns) + old(dst[at + 8 * |ns|..])
  {
    hide Le;
    ghost var before, after := dst[..at], dst[at + 8 * |ns|..];
    for i := 0 to |ns|
      invariant dst[..at + 8 * i] == before + LeAll(ns[..i]) && dst[at + 8 * |ns|..] == after
    {
      ghost var done, d := dst[..at + 8 * i], dst[..];
      WriteLe(dst, at + 8 * i, ns[i], 8);
      assert ns[..i + 1][..i] == ns[..i];
      AroundIs(d, dst[..], at + 8 * i, Le(ns[i], 8), at + 8 * |ns|);
    }
    assert ns[..|ns|] == ns && dst[..] == dst[..at + 8 * |ns|] + dst[at + 8 * |ns|..];
  }

  /** Writing s at position i keeps what is before it and what is after k. */
  lemma AroundIs(d: seq<byte>, d': seq<byte>, i: nat, s: seq<byte>, k: nat)
    requires i + |s| <= k <= |d| && d' == d[..i] + s + d[i + |s|..]
    ensures d'[..i + |s|] == d[..i] + s && d'[k..] == d[k..]
  {
  }

  /** mk_Frame_le64, mk_Frame_le64_le64 and mk_Frame_le64_le64_le64_bytes: room for the bytes is left behind
      the numbers, and the caller fills it. */
  method MkNumbers(tag: seq<byte>, ns: seq<nat>, bytes: seq<byte>) returns (data: array<byte>)
    requires |tag| == 4
    ensures fresh(data) && data[..] == Encoded(NumbersBytes(tag, ns, bytes))
  {
    hide LeAll;
    var k := 4 + 8 * |ns|;
    data := new byte[k + |bytes|](_ => 0);
    Copy(data, 0, tag);
    assert data[..4] == tag;
    WriteLongs(data, 4, ns);
    assert data[..k] == tag + LeAll(ns);
    Copy(data, k, bytes);
    assert data[k + |bytes|..] == [];
  }

  /** parse_Frame_noargs. */
  method ParseNoArgs(data: array<byte>, tag: seq<byte>) returns (ok: bool)
    requires |tag| == 4
    ensures ok <==> data[..] == Encoded(NoArgs(tag))
  {
    ok := data.Length >= 4 && data[..4] == tag && data.Length == 4;
    assert data.Length == 4 ==> data[..] == data[..4];
  }

  /** parse_Frame_asciiz: the first zero has to be the last byte. */
  method ParseAsciiz(data: array<byte>, tag: seq<byte>) returns (str: Option<seq<byte>>)
    requires |tag| == 4
    ensures forall t :: str == Some(t) <==> data[..] == Encoded(Asciiz(tag, t)) && 0 !in t
  {
    if data.Length < 4 || data[..4] != tag || data.Length < 5 {
      forall t
        ensures data[..] != Encoded(Asciiz(tag, t))
      {
        assert Encoded(Asciiz(tag, t))[..4] == tag;
      }
      return None;
    }
    var i := 4;
    while i < data.Length && data[i] != 0
      invariant 4 <= i <= data.Length && 0 !in data[4..i]
    {
      i := i + 1;
    }
    str := if i == data.Length - 1 && data[i] == 0 then Some(data[4..i]) else None;
    forall t
      ensures str == Some(t) <==> data[..] == Encoded(Asciiz(tag, t)) && 0 !in t
    {
      AsciizIs(data[..], tag, t, i);
    }
  }

  lemma AsciizIs(d: seq<byte>, tag: seq<byte>, t: seq<byte>, i: nat)
    requires |tag| == 4 && |d| >= 5 && d[..4] == tag && 4 <= i <= |d|
    requires 0 !in d[4..i] && (i < |d| ==> d[i] == 0)
    ensures d == Encoded(Asciiz(tag, t)) && 0 !in t <==> i == |d| - 1 && t == d[4..i]
  {
    if d == Encoded(Asciiz(tag, t)) && 0 !in t {
      assert d[4..|d| - 1] == t && d[|d| - 1] == 0;
      InSlice(d, 4, |d| - 1);
      InSlice(d, 4, i);
    }
    if i == |d| - 1 && t == d[4..i] {
      assert d == d[..4] + d[4..i] + [d[i]];
    }
  }

  lemma InSlice(s: seq<byte>, lo: nat, hi: nat)
    requires lo <= hi <= |s|
    ensures forall k :: lo <= k < hi ==> s[k] in s[lo..hi]
  {
  }

  method ReadLongs(src: array<byte>, at: nat, count: nat) returns (ns: seq<nat>)
    requires at + 8 * count <= src.Length
    ensures |ns| == count && Longs(ns) && src[at..at + 8 * count] == LeAll(ns)
  {
    hide Le, FromLe;
    ns := [];
    for i := 0 to count
      invariant |ns| == i && Longs(ns) && src[at..at + 8 * i] == LeAll(ns)
    {
      var n := ReadLe(src, at + 8 * i, 8);
      LeWrites(src[at + 8 * i..at + 8 * i + 8]);
      assert (ns + [n])[..i] == ns;
      assert src[at..at + 8 * (i + 1)] == src[at..at + 8 * i] + src[at + 8 * i..at + 8 * i + 8];
      ns := ns + [n];
    }
  }

  /** parse_Frame_le64, parse_Frame_le64_le64, parse_Frame_le64_le64_le64 and, with more set,
      parse_Frame_le64_le64_le64_bytes. */
  method ParseNumbers(data: array<byte>, tag: seq<byte>, count: nat, more: bool) returns (r: Option<(seq<nat>, seq<byte>)>)
    requires |tag| == 4
    ensures forall ns, bytes :: r == Some((ns, bytes)) <==> HasNumbers(data[..], tag, count, more, ns, bytes)
  {
    hide LeAll, Longs;
    if data.Length < 4 || data[..4] != tag || (if more then data.Length < 4 + 8 * count else data.Length != 4 + 8 * count) {
      NumbersNeed(data[..], tag, count, more);
      return None;
    }
    var ms := ReadLongs(data, 4, count);
    var rest := data[4 + 8 * count..];
    r := Some((ms, rest));
    assert data[..] == data[..4] + data[4..4 + 8 * count] + rest;
    NumbersAre(data[..], tag, count, more, ms, rest);
  }

  /** The data are the tag, count numbers of eight bytes, and the bytes behind them. */
  ghost predicate HasNumbers(d: seq<byte>, tag: seq<byte>, count: nat, more: bool, ns: seq<nat>, bytes: seq<byte>) {
    d == Encoded(NumbersBytes(tag, ns, bytes)) && |ns| == count && Longs(ns) && (more || bytes == [])
  }

  lemma NumbersNeed(d: seq<byte>, tag: seq<byte>, count: nat, more: bool)
    requires |tag| == 4
    ensures forall ns, bytes :: HasNumbers(d, tag, count, more, ns, bytes) ==>
              |d| >= 4 && d[..4] == tag && if more then |d| >= 4 + 8 * count else |d| == 4 + 8 * count
  {
  }

  lemma {:induction false} LeAllInjective(ns: seq<nat>, ms: seq<nat>)
    requires |ns| == |ms| && Longs(ns) && Longs(ms) && LeAll(ns) == LeAll(ms)
    ensures ns == ms
  {
    if ns != [] {
      var n, m, k := ns[|ns| - 1], ms[|ms| - 1], 8 * (|ns| - 1);
      assert LeAll(ns)[..k] == LeAll(ns[..|ns| - 1]) && LeAll(ns)[k..] == Le(n, 8);
      assert LeAll(ms)[..k] == LeAll(ms[..|ms| - 1]) && LeAll(ms)[k..] == Le(m, 8);
      LeReads(n, 8);
      LeReads(m, 8);
      LeAllInjective(ns[..|ns| - 1], ms[..|ms| - 1]);
    }
  }

  lemma NumbersAre(d: seq<byte>, tag: seq<byte>, count: nat, more: bool, ms: seq<nat>, rest: seq<byte>)
    requires |tag| == 4 && HasNumbers(d, tag, count, more, ms, rest)
    ensures forall ns, bytes :: HasNumbers(d, tag, count, more, ns, bytes) <==> (ns, bytes) == (ms, rest)
  {
    hide LeAll, Longs;
    forall ns, bytes | HasNumbers(d, tag, count, more, ns, bytes)
      ensures (ns, bytes) == (ms, rest)
    {
      var k := 4 + 8 * count;
      assert d[4..k] == LeAll(ns) && d[4..k] == LeAll(ms) && d[k..] == bytes && d[k..] == rest;
      LeAllInjective(ns, ms);
    }
  }

  // ----- the code that sends and checks frames

  /** The first eight bytes: the data are those of a frame that was built, so they are not null, and the
      null case of the checksum does not arise. */
  method Header(data: array<byte>) returns (first8: array<byte>)
    ensures fresh(first8) && first8[..] + data[..] == Wire(data[..])
  {
    hide Le, Checksum;
    first8 := new byte[8](_ => 0);
    WriteLe(first8, 4, data.Length, 4);
    ghost var len := first8[4..];
    assert len == Le(data.Length, 4);
    var adler := LengthAndData(data);
    WriteLe(first8, 0, adler, 4);
    assert first8[..] == Le(adler, 4) + len;
  }

  method LengthAndData(data: array<byte>) returns (adler: nat)
    ensures adler == SumOf(data[..])
  {
    hide Le, Checksum;
    var length := new byte[4](_ => 0);
    WriteLe(length, 0, data.Length, 4);
    assert length[..] == Le(data.Length, 4) && data[..data.Length] == data[..];
    adler := SentChecksum(length, data, data.Length);
  }

  /** The test of a received frame: header and data are those of a frame of acceptable length. */
  method Check(first8: array<byte>, data: array<byte>, least: nat) returns (ok: bool)
    requires first8.Length == 8 && data.Length == FromLe(first8[4..8])
    ensures ok <==> Receive(least, first8[..] + data[..]) == Some((data[..], []))
  {
    hide FromLe, Checksum;
    var sum := ReadLe(first8, 0, 4);
    var len := ReadLe(first8, 4, 4);
    OneFrame(first8[..], data[..]);
    if len < least || len > MAX {
      return false;
    }
    var length := new byte[4];
    for i := 0 to 4
      invariant length[..i] == first8[4..4 + i]
    {
      length[i] := first8[4 + i];
    }
    assert length[..] == first8[4..8] && data[..len] == data[..];
    var adler := ReceivedChecksum(length, data, len);
    ok := adler == sum;
  }

  lemma OneFrame(first8: seq<byte>, data: seq<byte>)
    requires |first8| == 8
    ensures var s := first8 + data;
            s[..4] == first8[..4] && s[4..8] == first8[4..8] && s[8..8 + |data|] == data && s[8 + |data|..] == []
  {
  }
}
