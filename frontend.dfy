/**
 * What the proxy frontend does with getRequest's results (doClientConnection):
 * it drops getRequest's error and hands `request`, getRequest's `data`, to
 * connectToServer, which writes it as the first bytes to the relay server.
 * The relay server decodes those bytes with getRequest in turn.
 */
module Frontend {
  import opened Bytes
  import opened Socks5

  /** The bytes the frontend writes to the relay server; None when getRequest panicked and the process ended. */
  function Forwarded(r: Reply): Option<seq<byte>>
  {
    match r
    case Decoded(data, _, _) => Some(data)
    case Failed(_) => Some([])
    case Panicked => None
  }

  /** A CONNECT request for 93.184.216.34:80. */
  const Example := ConnectRequest(0, IPv4([93, 184, 216, 34]), 80)

  /**
   * As written: when the first read returns only five of the ten bytes, the
   * request still decodes, but the frontend forwards those five bytes only, and
   * the relay server cannot decode them on their own.
   */
  lemma ShortFirstReadTruncatesForward(ipv6: seq<byte> -> seq<byte>)
    ensures var s := Encode(Example); var r := Request(s, 5, ipv6);
      && |s| == 10 && r.Decoded?
      && Forwarded(r) == Some(s[..5])
      && Request(s[..5], 5, ipv6) == Failed(Io(EOF))
  {
    ExampleBytes();
    var s: seq<byte> := [5, 1, 0, 1, 93, 184, 216, 34, 0, 80];
    assert s[..5] == [5, 1, 0, 1, 93];
    RequestOfFramed(s, [], 5, ipv6);
    assert s + [] == s;
    TruncatedHeaderOnly(s[..5], ipv6);
  }

  lemma ExampleBytes()
    ensures Encode(Example) == [5, 1, 0, 1, 93, 184, 216, 34, 0, 80]
  {
  }

  lemma TruncatedHeaderOnly(h: seq<byte>, ipv6: seq<byte> -> seq<byte>)
    requires h == [5, 1, 0, 1, 93]
    ensures Request(h, 5, ipv6) == Failed(Io(EOF))
  {
    assert h[..5] == h;
  }

  /**
   * As written: a request with version 4 is refused by getRequest, yet the
   * frontend still connects to the relay server and forwards an empty request.
   */
  lemma RefusedRequestStillForwarded(ipv6: seq<byte> -> seq<byte>)
    ensures var s: seq<byte> := [4, 1, 0, 1, 93, 184, 216, 34, 0, 80];
      Request(s, 10, ipv6) == Failed(ErrVer) && Forwarded(Request(s, 10, ipv6)) == Some([])
  {
    var s: seq<byte> := [4, 1, 0, 1, 93, 184, 216, 34, 0, 80];
    assert s[..5][0] == 4;
  }

  /**
   * As written, for every stream: the frontend forwards the first read, and the
   * relay server, reading those bytes alone, decodes them exactly when the
   * first read held the whole request.
   */
  lemma ForwardedAsWritten(s: seq<byte>, first: nat, first2: nat, ipv6: seq<byte> -> seq<byte>)
    requires 5 <= first <= BufLen && 5 <= first2 <= BufLen && Request(s, first, ipv6).Decoded?
    ensures var r := Request(s, first, ipv6); var f := Forwarded(r).value;
      f == s[..Min(first, |s|)] && (Request(f, first2, ipv6).Decoded? <==> |f| == |r.rawaddr| + 3)
  {
    var r := Request(s, first, ipv6);
    var f := r.data;
    var k := |r.rawaddr| + 3;
    assert f[..5] == s[..5];
    if |f| == k {
      assert f == s[..k];
      RequestOfFramed(f, [], first2, ipv6);
      assert f + [] == f;
    }
  }

  /** getRequest with `data` set to the whole request, buf[0:reqLen], rather than the first read. */
  function RequestFixed(s: seq<byte>, first: nat, ipv6: seq<byte> -> seq<byte>): (r: Reply)
    requires 5 <= first <= BufLen
    ensures r.Decoded? ==> Framed(r.data) && r.data[3..] == r.rawaddr && |r.data| <= |s| && r.data == s[..|r.data|]
    ensures r.Decoded? <==> Request(s, first, ipv6).Decoded?
  {
    var r := Request(s, first, ipv6);
    if r.Decoded? then Decoded(s[..|r.rawaddr| + 3], r.rawaddr, r.host) else r
  }

  /**
   * The intended forwarding: after a successful decode only, the whole request
   * as getRequest fixed it. The forwarded bytes are one framed request, a
   * prefix of the stream, whose tail from ATYP on is the raw address block.
   */
  function IntendedForward(s: seq<byte>, first: nat, ipv6: seq<byte> -> seq<byte>): (f: Option<seq<byte>>)
    requires 5 <= first <= BufLen
    ensures f.Some? <==> Request(s, first, ipv6).Decoded?
    ensures f.Some? ==>
      && Framed(f.value) && |f.value| <= |s| && f.value == s[..|f.value|]
      && f.value[3..] == Request(s, first, ipv6).rawaddr
  {
    var r := RequestFixed(s, first, ipv6);
    if r.Decoded? then Some(r.data) else None
  }

  /**
   * With the corrections, the relay server decodes the forwarded bytes to the
   * same raw address block and host:port, however its own first read splits them.
   */
  lemma ForwardDecodesAlike(s: seq<byte>, t: seq<byte>, first: nat, first2: nat, ipv6: seq<byte> -> seq<byte>)
    requires 5 <= first <= BufLen && 5 <= first2 <= BufLen
    requires IntendedForward(s, first, ipv6).Some?
    ensures var r := Request(s, first, ipv6); var f := IntendedForward(s, first, ipv6).value;
      var r2 := Request(f + t, first2, ipv6);
      if Min(first2, |f + t|) > |f| then r2 == Failed(ErrReqExtraData)
      else r2.Decoded? && r2.rawaddr == r.rawaddr && r2.host == r.host
  {
    var r := RequestFixed(s, first, ipv6);
    var f := r.data;
    RequestOfFramed(f, t, first2, ipv6);
    assert s[..|f|][..5] == s[..5];
  }
}
