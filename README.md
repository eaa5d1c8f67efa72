# socks5-over-dns: the request decoder and the relay loop, in Dafny

This project models the core of a two-hop SOCKS5 relay written in Go. A frontend
accepts SOCKS5 clients, decodes their CONNECT request and forwards it to a relay
server. The relay server decodes the request again, dials the destination, and
both ends then shuttle bytes through a pair of one-direction relay loops.

Modules and files, leaves first:

- `Bytes` (bytes.dfy): Go's `byte` as a subset type of `int`, `Option`, `Min`.
- `Text` (text.dfy): the host:port text. `Decimal` is `strconv.Itoa` and
  `DottedQuad` is the IPv4 form of `net.IP.String`. `JoinHostPort` is
  `net.JoinHostPort`, which brackets a host that contains a colon. Each form has a
  reader that recovers what was written (`DigitsValue`, `ParseDottedQuad`,
  `HostPortParts`), and round-trip lemmas connect the two. Go strings are byte
  strings, so text is `seq<byte>`.
- `Socks5` (socks5.dfy): `getRequest`, following RFC 1928 sections 4 and 5.
  - `Request` is the decoder as a function of the connection's unread bytes and
    of how many bytes the first `io.ReadAtLeast` returns.
  - `Conn` is the connection, with `io.ReadAtLeast` and `io.ReadFull` filling a
    buffer array in place.
  - `GetRequest` allocates the 263-byte buffer, fills it and decodes it. It is
    proved to return what `Request` returns and to consume what `Consumed` says.
  - `Encode` builds the wire form of a `ConnectRequest`. `DecodeEncode` and
    `DecodedIsEncoding` show that decoding succeeds exactly on an encoding
    whose domain, if any, is at most 250 bytes and that the first read did not
    overrun. It then yields the raw address block, the first-read bytes and the
    host:port text.
- `Frontend` (frontend.dfy): what `doClientConnection` forwards to the relay
  server (`Forwarded`, the outcome of each getRequest result), and the
  corrected forwarding (see Findings).
- `Relay` (relay.dfy): `doHandleData`. `Source` and `Sink` are the two
  connections and `HandleData` is the loop. `Run` is the loop as a function of a
  scripted read sequence and of the destination's failure point. `RunDelivers`
  describes `Run`'s output independently, through `Delivered` and `Flatten`,
  and `RunReads` says where the loop stops reading.
- `Mask` (mask.dfy): `encode` and `decode`, the in-place XOR with 0x03.

Modelling choices:

- The IPv6 text form (`net.IP.String` on 16 bytes) lives in a library whose body
  is not part of this model. It is a parameter `ipv6: seq<byte> -> seq<byte>` of
  every function that needs it.
- A stream that ends early stands for every read failure. The model reports
  `io.EOF` when none of the wanted bytes came and `io.ErrUnexpectedEOF` when some
  did, as both io helpers do.
- A panic in `getRequest` is the outcome `Panicked`. Go ends the whole process
  on an unrecovered panic, and `Forwarded` returns `None` for it.
- In the relay, the source is a finite script of read results. Once the script is
  used up, the 30-second deadline expires: that read returns no bytes and an
  error. The destination's write number `failFrom`, and every later one, fails
  and delivers nothing.
- The frontend forwards `request`, the first-read bytes including VER CMD RSV,
  and not the raw address block alone (src/socks5OverDNS.go:198). The relay
  server then decodes that with the same `getRequest`.
- `encode` and `decode` have no caller; they are modelled all the same.

## Model

| member | source | states |
|---|---|---|
| `Text.Decimal` | src/socks5OverDNS.go:111 | the port text is at least one digit, only digits, and begins with '0' exactly when the port is 0 |
| `Text.DecimalValue` | src/socks5OverDNS.go:111 | reading the printed digits back gives the port number |
| `Text.DottedQuad` | src/socks5OverDNS.go:104 | the IPv4 host text contains no colon, so JoinHostPort never brackets it |
| `Text.DottedQuadRoundTrip` | src/socks5OverDNS.go:104 | the dotted-decimal text of four bytes reads back as exactly those four bytes |
| `Text.JoinHostPort` | src/socks5OverDNS.go:111 | the joined text ends with a colon and the port text; `HostPortRoundTrip` shows the host in front of them is recoverable |
| `Text.HostPortRoundTrip` | src/socks5OverDNS.go:111 | for every host, whatever bytes it holds, and every port, the joined host:port text splits back into that host and port |
| `Socks5.RequestLength` | src/socks5OverDNS.go:66-86 | version other than 5 gives errVer; else a command other than CONNECT gives errCmd; else a type outside {1,3,4} gives errAddrType; only otherwise is a length produced, and it lies between 7 and 262, inside the 263-byte buffer |
| `Socks5.DomainHostAsWritten` | src/socks5OverDNS.go:108 | with the bound added in byte arithmetic the host slice is valid exactly when L ≤ 250, and is then bytes 5 up to the port |
| `Socks5.Request` | src/socks5OverDNS.go:41-114 | success implies the whole announced request is present, rawaddr is bytes 3 up to the request length (starting with ATYP), data is the first-read bytes, never longer than the request; errReqExtraData exactly when the first read passed the request; a header that fails a check gives that check's error (errVer, errCmd or errAddrType, in that order); an io error exactly when the stream ends before 5 bytes or before the request is complete; a panic only for a domain longer than 250 |
| `Socks5.RequestIoCause` | src/socks5OverDNS.go:62-91 | a short stream gives EOF when the failing read got none of its bytes and ErrUnexpectedEOF when it got some |
| `Socks5.Port` | src/socks5OverDNS.go:110 | the port lies below 65536; `HostTextOfEncoding` shows it is the port that was sent |
| `Socks5.HostTextAsWritten` | src/socks5OverDNS.go:102-109 | there is no host text (the panic) exactly for a domain longer than 250 bytes; an IPv4 host is the dotted quad of the four address bytes |
| `Socks5.Finish` | src/socks5OverDNS.go:99-111 | once the request is in the buffer the decode cannot fail, panics exactly for a domain longer than 250 bytes, and otherwise returns the first read and ATYP..port; `DecodeEncode` and `DecodedIsEncoding` give its host:port text |
| `Socks5.Consumed` | src/socks5OverDNS.go:62-97 | the decoder never takes more bytes than the stream holds, and at least the first read's |
| `Socks5.ConsumedOnSuccess` | src/socks5OverDNS.go:88-97 | on success exactly the request's own bytes are consumed, however the first read split them |
| `Socks5.Conn.ReadAtLeast` | src/socks5OverDNS.go:62 | the buffer's first n bytes are the next n stream bytes; n is what the network delivered, or all that is left when fewer than the minimum remain, which is then EOF or ErrUnexpectedEOF |
| `Socks5.Conn.ReadFull` | src/socks5OverDNS.go:91 | exactly hi - lo more bytes land in buf[lo:hi], or the stream runs out and the error is EOF or ErrUnexpectedEOF; nothing outside the range changes |
| `Socks5.GetRequest` | src/socks5OverDNS.go:41-114 | filling the buffer in place and decoding it returns what `Request` returns and advances the connection by `Consumed` |
| `Socks5.Parse` | src/socks5OverDNS.go:99-110 | every framed request is the encoding of the request its fields name |
| `Socks5.EncodeFramed` | src/socks5OverDNS.go:54-82 | an encoded request passes the header checks, its length is the one they imply, and parsing it returns the request |
| `Socks5.RequestOfFramed` | src/socks5OverDNS.go:88-100 | on a stream starting with one framed request, the result depends only on that request and the first read, and exactly the request is consumed unless the first read went past it |
| `Socks5.HostTextOfEncoding` | src/socks5OverDNS.go:102-110 | for an encoded request the port is the one sent, and the host text is the address's text, or a panic for a domain longer than 250 |
| `Socks5.DecodeEncode` | src/socks5OverDNS.go:41-114 | decoding an encoded request followed by any bytes gives errReqExtraData if the first read went past it, and otherwise rawaddr = ATYP..port, data = the first read, and host:port text that reads back as the address's host and the port |
| `Socks5.DecodedIsEncoding` | src/socks5OverDNS.go:99-111 | every successful decode consumed the encoding of some request with a domain of at most 250 bytes, and returned that request's raw block and host:port |
| `Socks5.LongDomainPanics` | src/socks5OverDNS.go:108 | a domain request of 251 to 255 bytes passes every check and then panics |
| `Socks5.HostTextFixed` | src/socks5OverDNS.go:102-109 | with the bound computed in int, the domain host is all L announced bytes for every L, and the host text is that of the parsed address |
| `Frontend.ShortFirstReadTruncatesForward` | src/socks5OverDNS.go:100 | a request for 93.184.216.34:80 whose first read returns 5 bytes decodes, but only those 5 bytes are forwarded, and they do not decode on their own |
| `Frontend.TruncatedHeaderOnly` | src/socks5OverDNS.go:88-93 | a 5-byte IPv4 header with nothing after it fails with EOF |
| `Frontend.RefusedRequestStillForwarded` | src/socks5OverDNS.go:195-198 | a version-4 request fails with errVer, and the frontend still connects and forwards an empty request |
| `Frontend.RequestFixed` | src/socks5OverDNS.go:99-100 | with data = buf[0:reqLen], data is one framed request, the stream's prefix, and rawaddr is its tail from ATYP |
| `Frontend.ForwardedAsWritten` | src/socks5OverDNS.go:100-198 | as written, for every stream that decodes, the frontend forwards exactly the first-read bytes, and the relay server, reading those bytes alone, decodes them exactly when the first read held the whole request |
| `Frontend.IntendedForward` | src/socks5OverDNS.go:195-198 | with the corrections, bytes are forwarded exactly when the decode succeeded, and they are one framed request, a prefix of the stream, whose tail from ATYP is the raw address block |
| `Frontend.ForwardDecodesAlike` | src/socks5OverDNS.go:194-208 | with the corrections, on a relay-server stream of the forwarded request followed by any bytes (the client's payload relayed next): a first read that reaches past the request is refused with errReqExtraData, and otherwise the relay server decodes the same raw block and host:port |
| `Relay.Run` | src/socks5OverDNS.go:229-253 | the loop makes at least one read and at most one more than the scripted reads, and never more write calls than reads |
| `Relay.RunDelivers` | src/socks5OverDNS.go:231-252 | dst receives the non-empty chunks read up to and including the first failed read, in order, cut at the first failed write; a chunk returned with a read error is still written; the loop stops for a write failure exactly when one happens, and otherwise at the first read error |
| `Relay.RunReads` | src/socks5OverDNS.go:231-251 | the loop never reads past the first read error; when it stops for a read error it made exactly the reads up to that one, and when it stops for a write failure exactly the reads up to the one whose chunk could not be written |
| `Relay.Source.SetReadDeadline` | src/socks5OverDNS.go:230 | each call is counted |
| `Relay.Source.Read` | src/socks5OverDNS.go:231 | the next scripted result lands in the buffer; past the script the read returns nothing and an error |
| `Relay.Sink.Write` | src/socks5OverDNS.go:237 | a write appends all its bytes, or fails and appends nothing |
| `Relay.Sink.Close` | src/socks5OverDNS.go:227 | each call is counted |
| `Relay.RunLeaves` | src/socks5OverDNS.go:229-253 | the reads the loop leaves untaken are exactly the script after the reads it made |
| `Relay.Pass` | src/socks5OverDNS.go:230-251 | one pass of the loop body sets the deadline and reads once; it goes on only if the read and its write both succeeded, and then the rest of the loop's trace is that of the rest of the script; otherwise its output and calls are the whole remaining trace |
| `Relay.Loop` | src/socks5OverDNS.go:229-253 | the loop on the reused buffer: dst's output, the write calls, the reads and the untaken script are those of `Run`; the deadline is set once per read; dst is not closed |
| `Relay.HandleData` | src/socks5OverDNS.go:226-255 | dst's output, the write calls and the reads are those of `Run`; the deadline is set once per read; the source is left with the script after those reads; dst is closed exactly once |
| `Mask.Masked` | src/socks5OverDNS.go:29-39 | masking keeps the length |
| `Mask.MaskedAt` | src/socks5OverDNS.go:31 | each output byte is the input byte XOR 0x03 |
| `Mask.MaskedTwice` | src/socks5OverDNS.go:29-39 | masking twice gives the input back, so decode(encode(x)) == x |
| `Mask.MaskInPlace` | src/socks5OverDNS.go:30-32 | the in-place loop leaves the array equal to the masked old contents |
| `Mask.Encode` | src/socks5OverDNS.go:29-33 | encode leaves the array masked |
| `Mask.Decode` | src/socks5OverDNS.go:35-39 | decode leaves the array masked, the same as encode |
| `Mask.EncodeThenDecode` | src/socks5OverDNS.go:29-39 | decode after encode restores the array |

## Left out

- `Server` and `Proxy`, with their accept loops, `net.Listen`, `net.Dial` and goroutines: these are network I/O and concurrency.
- `doProxyConnection` and `connectToServer`. Only what `doClientConnection` forwards from `getRequest` is modelled.
- The EMFILE/ENFILE classification of dial errors: it only chooses a log line.
- The frontend's 16-byte `bufio` handshake read and the fixed `{5, 0}` and 10-byte replies: these are unvalidated socket writes. The `bufio` reader may also read past the handshake, and that is not modelled.
- The IPv6 text form of `net.IP.String`: its library body is not part of this model, so it is the parameter `ipv6`.
- Read errors other than end of stream (reset, deadline) during `getRequest`: they are modelled as the stream ending at that point.
- Wall-clock deadline timing: deadline-setting is only counted. Expiry is the script running out.
- The two mirrored relay directions, idempotent `Close` and teardown races: these are concurrency.
- `Relay.Sink.Write`: does not model a write that fails after delivering part of its bytes; a failing write delivers nothing.
- The process-wide effect of a panic: the model stops at the `Panicked` outcome.
- All `log` and `hex.Dump` calls.
- cmd/proxy.go and cmd/server.go: flag parsing, log-file setup and debug prints, with no protocol logic.

## Findings

| source | as written | input that shows it | evidently intended | confidence | as-written member | corrected member |
|---|---|---|---|---|---|---|
| src/socks5OverDNS.go:108 | the slice bound `idDm0+buf[idDmLen]` is a byte sum and wraps, so `buf[5:hi]` panics with hi < 5 | a domain request with a 251-byte name, read whole in the first read | the bound 5 + L computed in int, so every length a byte can hold decodes | high; not executed | `Socks5.LongDomainPanics` | `Socks5.HostTextFixed` |
| src/socks5OverDNS.go:100 | `data = buf[0:n]` keeps only the first read, and the frontend forwards `data` to the relay server (line 198) | the 10-byte request for 93.184.216.34:80 arriving as a 5-byte first read: the relay server gets VER CMD RSV ATYP and the first address byte. Modelled alone, that stream fails with EOF. In the program the frontend next relays the client's payload on the same connection (lines 205-208), so the relay server's `io.ReadFull` takes the missing 5 bytes from that payload and dials a wrong address | data = buf[0:reqLen], the whole request, so the relay server sees a complete request | medium; not executed | `Frontend.ForwardedAsWritten` | `Frontend.RequestFixed` |
| src/socks5OverDNS.go:195 | getRequest's error is overwritten at line 198 without being checked, so a refused request still leads to a connection to the relay server and a success reply | a request with version byte 4 | return when getRequest fails, as doProxyConnection does at line 139 | medium; not executed | `Frontend.RefusedRequestStillForwarded` | `Frontend.ForwardDecodesAlike` |
