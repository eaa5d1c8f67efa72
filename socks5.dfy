/**
 * getRequest: the SOCKS5 CONNECT request decoder (RFC 1928, sections 4 and 5).
 *
 * A request is VER CMD RSV ATYP DST.ADDR DST.PORT. The decoder reads at least
 * five bytes into a 263-byte buffer, checks the version, the command and the
 * address type in that order, works out the exact request length, tops the
 * buffer up when the first read was short and refuses a first read that went
 * past the request. It then returns the raw address block (ATYP through the
 * port), the bytes of the first read, and the host:port text.
 *
 * `Request` is the decoder as a function of the unread stream; `GetRequest`
 * is the same decoder over a connection and a buffer it fills in place, and
 * is proved to agree with `Request`. `Encode` builds the request a client
 * sends; `DecodeEncode` and `DecodedIsEncoding` tie the two together.
 */
module Socks5 {
  import opened Bytes
  import opened Text

  const BufLen := 263
  const SocksVer5: byte := 5
  const SocksCmdConnect: byte := 1
  const TypeIPv4: byte := 1
  const TypeDomain: byte := 3
  const TypeIPv6: byte := 4
  const IPv4Len := 4
  const IPv6Len := 16
  const LenIPv4 := 3 + 1 + IPv4Len + 2
  const LenIPv6 := 3 + 1 + IPv6Len + 2
  const LenDomainBase := 3 + 1 + 1 + 2

  /** The errors io.ReadAtLeast and io.ReadFull report when the stream ends too soon. */
  datatype IoError = EOF | UnexpectedEOF

  datatype Error = Io(cause: IoError) | ErrVer | ErrCmd | ErrAddrType | ErrReqExtraData

  /**
   * What getRequest ends with: its three results; or an error, with `data` and
   * `rawaddr` nil and `host` empty; or a run-time panic (slice bounds out of range).
   */
  datatype Reply =
    | Decoded(data: seq<byte>, rawaddr: seq<byte>, host: seq<byte>)
    | Failed(err: Error)
    | Panicked

  datatype Header = Accepted(reqLen: nat) | Rejected(err: Error)

  /** The error for a stream that ended after `got` of the wanted bytes (fewer than wanted). */
  function EndOfStream(got: nat): IoError
  {
    if got == 0 then EOF else UnexpectedEOF
  }

  predicate KnownType(atyp: byte)
  {
    atyp == TypeIPv4 || atyp == TypeDomain || atyp == TypeIPv6
  }

  /**
   * The checks on the first five bytes, in the source's order, and the request
   * length they imply. Each check is decided before the next byte is looked at.
   */
  function RequestLength(h: seq<byte>): (r: Header)
    requires |h| == 5
    ensures r == Rejected(ErrVer) <==> h[0] != SocksVer5
    ensures r == Rejected(ErrCmd) <==> h[0] == SocksVer5 && h[1] != SocksCmdConnect
    ensures r == Rejected(ErrAddrType) <==> h[0] == SocksVer5 && h[1] == SocksCmdConnect && !KnownType(h[3])
    ensures r.Accepted? <==> h[0] == SocksVer5 && h[1] == SocksCmdConnect && KnownType(h[3])
    ensures r.Accepted? ==> LenDomainBase <= r.reqLen < BufLen
  {
    if h[0] != SocksVer5 then Rejected(ErrVer)
    else if h[1] != SocksCmdConnect then Rejected(ErrCmd)
    else if h[3] == TypeIPv4 then Accepted(LenIPv4)
    else if h[3] == TypeIPv6 then Accepted(LenIPv6)
    else if h[3] == TypeDomain then Accepted(h[4] + LenDomainBase)
    else Rejected(ErrAddrType)
  }

  /** `req` is exactly one request: its header passes and its length is the implied one. */
  predicate Framed(req: seq<byte>)
  {
    |req| >= 5 && RequestLength(req[..5]).Accepted? && |req| == RequestLength(req[..5]).reqLen
  }

  /** binary.BigEndian.Uint16 of the last two bytes. */
  function Port(req: seq<byte>): (p: nat)
    requires |req| >= 2
    ensures p < 65536
  {
    (req[|req| - 2] as int) * 256 + req[|req| - 1] as int
  }

  /**
   * string(buf[idDm0 : idDm0+buf[idDmLen]]) as written: the upper bound is a
   * byte sum and wraps modulo 256; a bound below the lower one panics (None).
   */
  function DomainHostAsWritten(req: seq<byte>): (h: Option<seq<byte>>)
    requires Framed(req) && req[3] == TypeDomain
    ensures h.Some? <==> req[4] <= 250
    ensures h.Some? ==> h.value == req[5..|req| - 2]
  {
    var hi := (5 + req[4] as int) % 256;
    if hi < 5 then None else Some(req[5..hi])
  }

  /** The host text as the source computes it; None stands for the panic of a wrapped domain bound. */
  function HostTextAsWritten(req: seq<byte>, ipv6: seq<byte> -> seq<byte>): (h: Option<seq<byte>>)
    requires Framed(req)
    ensures h.None? <==> req[3] == TypeDomain && req[4] > 250
    ensures req[3] == TypeIPv4 ==> h == Some(DottedQuad(req[4..8]))
  {
    if req[3] == TypeIPv4 then Some(DottedQuad(req[4..4 + IPv4Len]))
    else if req[3] == TypeIPv6 then Some(ipv6(req[4..4 + IPv6Len]))
    else DomainHostAsWritten(req)
  }

  /** The tail of getRequest once the whole request is in the buffer; `n` is the first read's count. */
  function Finish(req: seq<byte>, n: nat, ipv6: seq<byte> -> seq<byte>): (r: Reply)
    requires Framed(req) && 5 <= n <= |req|
    ensures r.Panicked? <==> req[3] == TypeDomain && req[4] > 250
    ensures !r.Failed?
    ensures r.Decoded? ==> r.data == req[..n] && r.rawaddr == req[3..]
  {
    match HostTextAsWritten(req, ipv6)
    case None => Panicked
    case Some(host) => Decoded(req[..n], req[3..], JoinHostPort(host, Decimal(Port(req))))
  }

  /** The stream begins with a header that passes, and holds the whole request it announces. */
  predicate HoldsRequest(s: seq<byte>)
  {
    |s| >= 5 && RequestLength(s[..5]).Accepted? && RequestLength(s[..5]).reqLen <= |s|
  }

  /**
   * getRequest on a connection whose unread bytes are `s`, up to the end of the
   * stream. `first` is how many bytes the network hands io.ReadAtLeast at once;
   * the first read returns min(first, |s|) of them, or fails when |s| < 5.
   */
  function Request(s: seq<byte>, first: nat, ipv6: seq<byte> -> seq<byte>): (r: Reply)
    requires 5 <= first <= BufLen
    ensures r.Decoded? ==>
      HoldsRequest(s) && |r.rawaddr| + 3 <= |s| && Framed(s[..|r.rawaddr| + 3]) &&
      r.rawaddr == s[3..|r.rawaddr| + 3] && r.rawaddr[0] == s[3] &&
      r.data == s[..Min(first, |s|)] && |r.data| <= |r.rawaddr| + 3
    ensures r == Failed(ErrReqExtraData) <==>
      |s| >= 5 && RequestLength(s[..5]).Accepted? && Min(first, |s|) > RequestLength(s[..5]).reqLen
    ensures r.Failed? && r.err.Io? <==>
      |s| < 5 || (RequestLength(s[..5]).Accepted? && Min(first, |s|) <= RequestLength(s[..5]).reqLen && !HoldsRequest(s))
    ensures r.Panicked? ==> HoldsRequest(s) && s[3] == TypeDomain && s[4] > 250
    ensures |s| >= 5 && RequestLength(s[..5]).Rejected? ==> r == Failed(RequestLength(s[..5]).err)
  {
    if |s| < 5 then Failed(Io(EndOfStream(|s|)))
    else
      var n := Min(first, |s|);
      match RequestLength(s[..5])
      case Rejected(e) => Failed(e)
      case Accepted(reqLen) =>
        if n > reqLen then Failed(ErrReqExtraData)
        else if |s| < reqLen then Failed(Io(EndOfStream(|s| - n)))
        else
          assert s[..reqLen][..5] == s[..5];
          Finish(s[..reqLen], n, ipv6)
  }

  /**
   * Which io error a short stream gives: EOF when the stream ends before the
   * first byte the failing read wanted, ErrUnexpectedEOF when it ends after some.
   */
  lemma RequestIoCause(s: seq<byte>, first: nat, ipv6: seq<byte> -> seq<byte>)
    requires 5 <= first <= BufLen && Request(s, first, ipv6).Failed? && Request(s, first, ipv6).err.Io?
    ensures var n := Min(first, |s|); var c := Request(s, first, ipv6).err.cause;
      && (|s| < 5 ==> c == (if |s| == 0 then EOF else UnexpectedEOF))
      && (|s| >= 5 ==> c == (if |s| == n then EOF else UnexpectedEOF))
  {
  }

  /** How many bytes getRequest takes off the stream. */
  function Consumed(s: seq<byte>, first: nat): (c: nat)
    requires 5 <= first <= BufLen
    ensures c <= |s|
    ensures |s| >= 5 ==> Min(first, |s|) <= c
  {
    if |s| < 5 then |s|
    else
      var n := Min(first, |s|);
      match RequestLength(s[..5])
      case Rejected(_) => n
      case Accepted(reqLen) => if n >= reqLen then n else Min(reqLen, |s|)
  }

  /** On success exactly the request's own bytes are consumed: never more, never less. */
  lemma ConsumedOnSuccess(s: seq<byte>, first: nat, ipv6: seq<byte> -> seq<byte>)
    requires 5 <= first <= BufLen && Request(s, first, ipv6).Decoded?
    ensures Consumed(s, first) == |Request(s, first, ipv6).rawaddr| + 3
  {
    assert s[..|Request(s, first, ipv6).rawaddr| + 3][..5] == s[..5];
  }

  /** The client connection: every byte it will deliver before the end of the stream, and how many have been read. */
  class Conn {
    var input: seq<byte>
    var pos: nat

    predicate Valid()
      reads this
    {
      pos <= |input|
    }

    function Unread(): seq<byte>
      reads this
      requires Valid()
    {
      input[pos..]
    }

    constructor (input: seq<byte>)
      ensures Valid() && this.input == input && pos == 0
    {
      this.input := input;
      pos := 0;
    }

    /** Moves the next `k` unread bytes into buf[at..at + k]. */
    method Take(buf: array<byte>, at: nat, k: nat)
      requires Valid() && at + k <= buf.Length && k <= |Unread()|
      modifies this, buf
      ensures Valid() && input == old(input) && pos == old(pos) + k
      ensures forall i | 0 <= i < buf.Length ::
        buf[i] == if at <= i < at + k then old(Unread())[i - at] else old(buf[i])
    {
      ghost var s := Unread();
      var j := 0;
      while j < k
        invariant 0 <= j <= k && input == old(input) && pos == old(pos) + j
        invariant forall i | 0 <= i < buf.Length ::
          buf[i] == if at <= i < at + j then s[i - at] else old(buf[i])
      {
        buf[at + j] := input[pos];
        pos := pos + 1;
        j := j + 1;
      }
    }

    /**
     * io.ReadAtLeast(conn, buf, min): at least `min` bytes unless the stream ends
     * first; `got` is how many the network delivers before the call returns.
     */
    method ReadAtLeast(buf: array<byte>, min: nat, got: nat) returns (n: nat, err: Option<IoError>)
      requires Valid() && min <= got <= buf.Length
      modifies this, buf
      ensures Valid() && input == old(input)
      ensures n == if |old(Unread())| < min then |old(Unread())| else Min(got, |old(Unread())|)
      ensures pos == old(pos) + n
      ensures err == if n >= min then None else Some(EndOfStream(n))
      ensures n <= buf.Length && buf[..n] == old(Unread())[..n]
    {
      var avail := |input| - pos;
      n := if avail < min then avail else Min(got, avail);
      Take(buf, 0, n);
      err := if n >= min then None else Some(EndOfStream(n));
    }

    /** io.ReadFull(conn, buf[lo:hi]): exactly hi - lo bytes unless the stream ends first. */
    method ReadFull(buf: array<byte>, lo: nat, hi: nat) returns (err: Option<IoError>)
      requires Valid() && lo <= hi <= buf.Length
      modifies this, buf
      ensures Valid() && input == old(input)
      ensures pos == old(pos) + Min(hi - lo, |old(Unread())|)
      ensures err == if hi - lo <= |old(Unread())| then None else Some(EndOfStream(|old(Unread())|))
      ensures forall i | 0 <= i < buf.Length ::
        buf[i] == if lo <= i < lo + Min(hi - lo, |old(Unread())|) then old(Unread())[i - lo] else old(buf[i])
    {
      var k := Min(hi - lo, |input| - pos);
      Take(buf, lo, k);
      err := if k == hi - lo then None else Some(EndOfStream(k));
    }
  }

  /** getRequest(conn): fills a fresh 263-byte buffer from the connection and decodes it. */
  method GetRequest(conn: Conn, first: nat, ipv6: seq<byte> -> seq<byte>) returns (r: Reply)
    requires conn.Valid() && 5 <= first <= BufLen
    modifies conn
    ensures conn.Valid() && conn.input == old(conn.input)
    ensures r == Request(old(conn.Unread()), first, ipv6)
    ensures conn.pos == old(conn.pos) + Consumed(old(conn.Unread()), first)
  {
    ghost var s := conn.Unread();
    var buf := new byte[BufLen];
    var n, err := conn.ReadAtLeast(buf, 5, first);
    if err.Some? {
      return Failed(Io(err.value));
    }
    assert buf[..5] == buf[..n][..5] == s[..5];
    var header := RequestLength(buf[..5]);
    if header.Rejected? {
      return Failed(header.err);
    }
    var reqLen := header.reqLen;
    ghost var filled := buf[..];
    if n == reqLen {
      // the common case: the whole request came in the first read
    } else if n < reqLen {
      ghost var rest := conn.Unread();
      assert rest == s[n..];
      err := conn.ReadFull(buf, n, reqLen);
      if err.Some? {
        return Failed(Io(err.value));
      }
      forall i | 0 <= i < n
        ensures buf[i] == s[i]
      {
        assert buf[i] == filled[i] == buf[..n][i];
      }
      forall i | n <= i < reqLen
        ensures buf[i] == s[i]
      {
        assert buf[i] == rest[i - n];
      }
    } else {
      return Failed(ErrReqExtraData);
    }
    assert buf[..reqLen] == s[..reqLen];
    r := Finish(buf[..reqLen], n, ipv6);
  }

  // ---------------------------------------------------------------------------
  // The request a client sends, and what decoding it yields.

  datatype Address = IPv4(ip: seq<byte>) | Domain(name: seq<byte>) | IPv6(ip: seq<byte>)

  datatype ConnectRequest = ConnectRequest(rsv: byte, addr: Address, port: nat)

  predicate ValidAddress(a: Address)
  {
    match a
    case IPv4(ip) => |ip| == IPv4Len
    case IPv6(ip) => |ip| == IPv6Len
    case Domain(name) => |name| < 256
  }

  predicate ValidRequest(q: ConnectRequest)
  {
    ValidAddress(q.addr) && q.port < 65536
  }

  function AddressBytes(a: Address): seq<byte>
    requires ValidAddress(a)
  {
    match a
    case IPv4(ip) => [TypeIPv4] + ip
    case IPv6(ip) => [TypeIPv6] + ip
    case Domain(name) => [TypeDomain, |name|] + name
  }

  /** The wire form of a CONNECT request: VER CMD RSV ATYP DST.ADDR DST.PORT, the port big-endian. */
  function Encode(q: ConnectRequest): seq<byte>
    requires ValidRequest(q)
  {
    [SocksVer5, SocksCmdConnect, q.rsv] + AddressBytes(q.addr) + [q.port / 256, q.port % 256]
  }

  /** The host text a request names: dotted decimal, the IPv6 text form, or the domain verbatim. */
  function HostText(a: Address, ipv6: seq<byte> -> seq<byte>): seq<byte>
    requires ValidAddress(a)
  {
    match a
    case IPv4(ip) => DottedQuad(ip)
    case IPv6(ip) => ipv6(ip)
    case Domain(name) => name
  }

  /** The address block of a framed request, ATYP through DST.ADDR. */
  function AddressOf(req: seq<byte>): (a: Address)
    requires Framed(req)
    ensures ValidAddress(a) && AddressBytes(a) == req[3..|req| - 2]
  {
    if req[3] == TypeIPv4 then IPv4(req[4..4 + IPv4Len])
    else if req[3] == TypeIPv6 then IPv6(req[4..4 + IPv6Len])
    else
      assert req[3..|req| - 2] == [req[3], req[4]] + req[5..|req| - 2];
      Domain(req[5..|req| - 2])
  }

  lemma PortBytes(req: seq<byte>)
    requires |req| >= 2
    ensures [Port(req) / 256, Port(req) % 256] == req[|req| - 2..]
  {
  }

  /** Reads one framed request back into its fields; every framed request is an encoding. */
  function Parse(req: seq<byte>): (q: ConnectRequest)
    requires Framed(req)
    ensures ValidRequest(q) && Encode(q) == req
  {
    var q := ConnectRequest(req[2], AddressOf(req), Port(req));
    assert Encode(q) == req by {
      PortBytes(req);
      assert req[..3] == [SocksVer5, SocksCmdConnect, req[2]] by {
        assert req[..5][0] == req[0] && req[..5][1] == req[1];
      }
      assert req == req[..3] + req[3..|req| - 2] + req[|req| - 2..];
    }
    q
  }

  /** An encoded request is framed, and parsing it gives back the request. */
  lemma EncodeFramed(q: ConnectRequest)
    requires ValidRequest(q)
    ensures Framed(Encode(q)) && Parse(Encode(q)) == q
  {
    var w := Encode(q);
    assert w[..5][3] == w[3] == AddressBytes(q.addr)[0];
    assert w[..5][4] == w[4] == AddressBytes(q.addr)[1];
    match q.addr
    case IPv4(ip) =>
      assert w[4..8] == ip;
    case IPv6(ip) =>
      assert w[4..20] == ip;
    case Domain(name) =>
      assert w[5..|w| - 2] == name;
  }

  /**
   * Decoding an encoded request followed by anything: a first read that went
   * past the request is refused with errReqExtraData; otherwise the raw block
   * is ATYP through port, the data is the first read, the host:port text reads
   * back as the address and port sent, and exactly the request is consumed.
   * Domains longer than 250 bytes are the subject of LongDomainPanics.
   */
  lemma DecodeEncode(q: ConnectRequest, t: seq<byte>, first: nat, ipv6: seq<byte> -> seq<byte>)
    requires ValidRequest(q) && 5 <= first <= BufLen
    requires q.addr.Domain? ==> |q.addr.name| <= 250
    ensures var w := Encode(q); var s := w + t; var n := Min(first, |s|);
      && Request(s, first, ipv6) ==
           (if n > |w| then Failed(ErrReqExtraData)
            else Decoded(s[..n], w[3..], JoinHostPort(HostText(q.addr, ipv6), Decimal(q.port))))
      && (n <= |w| ==> Consumed(s, first) == |w|)
      && HostPortParts(JoinHostPort(HostText(q.addr, ipv6), Decimal(q.port))) == Some((HostText(q.addr, ipv6), q.port))
  {
    var w := Encode(q);
    EncodeFramed(q);
    RequestOfFramed(w, t, first, ipv6);
    HostTextOfEncoding(q, ipv6);
    var n := Min(first, |w + t|);
    if n <= |w| {
      assert (w + t)[..n] == w[..n];
    }
    HostPortRoundTrip(HostText(q.addr, ipv6), q.port);
  }

  /** Decoding a stream that starts with one framed request depends only on that request and the first read. */
  lemma RequestOfFramed(req: seq<byte>, t: seq<byte>, first: nat, ipv6: seq<byte> -> seq<byte>)
    requires Framed(req) && 5 <= first <= BufLen
    ensures var s := req + t; var n := Min(first, |s|);
      && Request(s, first, ipv6) == (if n > |req| then Failed(ErrReqExtraData) else Finish(req, n, ipv6))
      && (n <= |req| ==> Consumed(s, first) == |req|)
  {
    var s := req + t;
    assert s[..5] == req[..5];
    assert s[..|req|] == req;
  }

  lemma HostTextOfEncoding(q: ConnectRequest, ipv6: seq<byte> -> seq<byte>)
    requires ValidRequest(q)
    ensures Framed(Encode(q)) && Port(Encode(q)) == q.port
    ensures q.addr.Domain? && |q.addr.name| > 250 ==> HostTextAsWritten(Encode(q), ipv6) == None
    ensures !(q.addr.Domain? && |q.addr.name| > 250) ==> HostTextAsWritten(Encode(q), ipv6) == Some(HostText(q.addr, ipv6))
  {
    EncodeFramed(q);
  }

  /**
   * Every successful decode read an encoded request: the consumed prefix is the
   * encoding of its parse, the domain is at most 250 bytes, the raw block and
   * the host:port text are those of that request.
   */
  lemma DecodedIsEncoding(s: seq<byte>, first: nat, ipv6: seq<byte> -> seq<byte>)
    requires 5 <= first <= BufLen && Request(s, first, ipv6).Decoded?
    ensures var r := Request(s, first, ipv6); var req := s[..|r.rawaddr| + 3]; var q := Parse(req);
      && Encode(q) == req && r.rawaddr == AddressBytes(q.addr) + [q.port / 256, q.port % 256]
      && (q.addr.Domain? ==> |q.addr.name| <= 250)
      && r.host == JoinHostPort(HostText(q.addr, ipv6), Decimal(q.port))
  {
    DecodedPrefix(s, |Request(s, first, ipv6).rawaddr| + 3, first, ipv6);
  }

  /** DecodedIsEncoding with the length of the request given. */
  lemma DecodedPrefix(s: seq<byte>, k: nat, first: nat, ipv6: seq<byte> -> seq<byte>)
    requires 5 <= first <= BufLen && k <= |s| && Framed(s[..k]) && Request(s, first, ipv6).Decoded?
    requires k == |Request(s, first, ipv6).rawaddr| + 3
    ensures var r := Request(s, first, ipv6); var q := Parse(s[..k]);
      && r.rawaddr == AddressBytes(q.addr) + [q.port / 256, q.port % 256]
      && (q.addr.Domain? ==> |q.addr.name| <= 250)
      && r.host == JoinHostPort(HostText(q.addr, ipv6), Decimal(q.port))
  {
    var req, t := s[..k], s[k..];
    assert req + t == s;
    var q := Parse(req);
    EncodeFramed(q);
    RequestOfFramed(req, t, first, ipv6);
    HostTextOfEncoding(q, ipv6);
    EncodedTail(q);
  }

  lemma EncodedTail(q: ConnectRequest)
    requires ValidRequest(q)
    ensures Encode(q)[3..] == AddressBytes(q.addr) + [q.port / 256, q.port % 256]
  {
    assert Encode(q) == [SocksVer5, SocksCmdConnect, q.rsv] + (AddressBytes(q.addr) + [q.port / 256, q.port % 256]);
  }

  // ---------------------------------------------------------------------------
  // The domain bound idDm0+buf[idDmLen] is a byte sum (src/socks5OverDNS.go:108).

  /**
   * As written, a domain of 251 to 255 bytes passes every check and is fully
   * read, and then the host slice panics: 5 + L wraps to L - 251 < 5.
   */
  lemma LongDomainPanics(q: ConnectRequest, t: seq<byte>, first: nat, ipv6: seq<byte> -> seq<byte>)
    requires ValidRequest(q) && 5 <= first <= BufLen
    requires q.addr.Domain? && |q.addr.name| > 250
    requires Min(first, |Encode(q) + t|) <= |Encode(q)|
    ensures Request(Encode(q) + t, first, ipv6) == Panicked
  {
    EncodeFramed(q);
    RequestOfFramed(Encode(q), t, first, ipv6);
    HostTextOfEncoding(q, ipv6);
  }

  /**
   * The host text with the domain bound computed in `int`: the domain is all
   * `L` bytes the request announces, for every `L` a byte can hold.
   */
  function HostTextFixed(req: seq<byte>, ipv6: seq<byte> -> seq<byte>): (h: seq<byte>)
    requires Framed(req)
    ensures req[3] == TypeDomain ==> |h| == req[4]
    ensures h == HostText(Parse(req).addr, ipv6)
  {
    if req[3] == TypeIPv4 then DottedQuad(req[4..4 + IPv4Len])
    else if req[3] == TypeIPv6 then ipv6(req[4..4 + IPv6Len])
    else req[5..5 + req[4]]
  }
}
