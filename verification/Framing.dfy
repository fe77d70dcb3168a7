/** The wire format shared by the game protocol and the chat cleaner: every packet is preceded
    by its size as a 32-bit integer in network byte order. */
module Framing {

  type byte = b: int | 0 <= b < 256

  const NET_HEADER_SIZE := 4
  const MAX_PACKET_SIZE := 384
  const UINT32_LIMIT := 0x1_0000_0000

  /** htonl, as the four bytes it leaves in memory. */
  function ToNet32(n: nat): (s: seq<byte>)
    requires n < UINT32_LIMIT
    ensures |s| == NET_HEADER_SIZE
  {
    [n / 0x100_0000, n / 0x1_0000 % 256, n / 256 % 256, n % 256]
  }

  /** ntohl of the first four bytes. */
  function FromNet32(s: seq<byte>): (n: nat)
    requires NET_HEADER_SIZE <= |s|
    ensures n < UINT32_LIMIT
  {
    var a: int, b: int, c: int, d: int := s[0], s[1], s[2], s[3];
    a * 0x100_0000 + b * 0x1_0000 + c * 256 + d
  }

  lemma Net32RoundTrip(n: nat, rest: seq<byte>)
    requires n < UINT32_LIMIT
    ensures FromNet32(ToNet32(n) + rest) == n
  {
    var s := ToNet32(n) + rest;
    assert s[0] == ToNet32(n)[0] && s[1] == ToNet32(n)[1] && s[2] == ToNet32(n)[2] && s[3] == ToNet32(n)[3];
    var a := n / 256;
    var b := n / 0x1_0000;
    assert b == a / 256 && n / 0x100_0000 == b / 256;
  }

  /** The other way round: the header bytes are determined by the number they spell. */
  lemma Net32Inverse(s: seq<byte>)
    requires NET_HEADER_SIZE <= |s|
    ensures ToNet32(FromNet32(s)) == s[..NET_HEADER_SIZE]
  {
    var n := FromNet32(s);
    var a: int, b: int, c: int, d: int := s[0], s[1], s[2], s[3];
    var top := a * 256 + b;
    var upper := top * 256 + c;
    assert n == upper * 256 + d;
    assert n / 256 == upper && n % 256 == d;
    assert upper / 256 == top && upper % 256 == c;
    assert n / 0x1_0000 == top;
    assert n / 0x100_0000 == a && top % 256 == b;
  }

  /** A payload the receiving side is willing to take. */
  predicate Frameable(p: seq<byte>) {
    1 <= |p| <= MAX_PACKET_SIZE
  }

  function Frame(p: seq<byte>): (f: seq<byte>)
    requires |p| < UINT32_LIMIT
    ensures |f| == |p| + NET_HEADER_SIZE
  {
    ToNet32(|p|) + p
  }

  ghost predicate AllSmall(ps: seq<seq<byte>>) {
    forall p <- ps :: |p| < UINT32_LIMIT
  }

  ghost predicate AllFrameable(ps: seq<seq<byte>>) {
    forall p <- ps :: Frameable(p)
  }

  /** The byte stream that carries a list of payloads. */
  ghost function FrameAll(ps: seq<seq<byte>>): (s: seq<byte>)
    requires AllSmall(ps)
  {
    if ps == [] then [] else Frame(ps[0]) + FrameAll(ps[1..])
  }

  lemma {:induction false} FrameAllAppend(ps: seq<seq<byte>>, qs: seq<seq<byte>>)
    requires AllSmall(ps) && AllSmall(qs)
    ensures AllSmall(ps + qs)
    ensures FrameAll(ps + qs) == FrameAll(ps) + FrameAll(qs)
  {
    if ps == [] {
      assert ps + qs == qs;
    } else {
      assert (ps + qs)[1..] == ps[1..] + qs;
      FrameAllAppend(ps[1..], qs);
    }
  }

  lemma FrameAllOne(p: seq<byte>)
    requires |p| < UINT32_LIMIT
    ensures AllSmall([p]) && FrameAll([p]) == Frame(p)
  {
    assert FrameAll([p][1..]) == [];
  }

  /** What two frames in front of one stream have to do with each other: they are the same. */
  lemma FirstFrameUnique(p: seq<byte>, q: seq<byte>, s: seq<byte>)
    requires |p| < UINT32_LIMIT && |q| < UINT32_LIMIT
    requires Frame(p) <= s && Frame(q) <= s
    ensures p == q
  {
    assert s == ToNet32(|p|) + s[NET_HEADER_SIZE..] && s == ToNet32(|q|) + s[NET_HEADER_SIZE..];
    Net32RoundTrip(|p|, s[NET_HEADER_SIZE..]);
    Net32RoundTrip(|q|, s[NET_HEADER_SIZE..]);
    assert p == s[NET_HEADER_SIZE..|p| + NET_HEADER_SIZE] == q;
  }

  /** Framing is a prefix code: if the stream of `ps` starts with the stream of `cs`,
      then `ps` starts with `cs`. */
  lemma {:induction false} FramingIsPrefixFree(cs: seq<seq<byte>>, ps: seq<seq<byte>>)
    requires AllSmall(cs) && AllSmall(ps)
    requires FrameAll(cs) <= FrameAll(ps)
    ensures cs <= ps
    decreases |cs|
  {
    if cs != [] {
      assert |FrameAll(cs)| >= NET_HEADER_SIZE;
      assert ps != [];
      var c, p := Frame(cs[0]), Frame(ps[0]);
      var s := FrameAll(ps);
      assert c <= FrameAll(cs) <= s && p <= s;
      FirstFrameUnique(cs[0], ps[0], s);
      assert FrameAll(cs[1..]) == FrameAll(cs)[|c|..] <= s[|c|..] == FrameAll(ps[1..]);
      FramingIsPrefixFree(cs[1..], ps[1..]);
      assert cs == [cs[0]] + cs[1..] && ps == [ps[0]] + ps[1..];
    }
  }

  /** Two lists with the same stream are the same list. */
  lemma FramingInjective(cs: seq<seq<byte>>, ps: seq<seq<byte>>)
    requires AllSmall(cs) && AllSmall(ps)
    ensures FrameAll(cs) == FrameAll(ps) <==> cs == ps
  {
    if FrameAll(cs) == FrameAll(ps) {
      FramingIsPrefixFree(cs, ps);
      FramingIsPrefixFree(ps, cs);
    }
  }
}
