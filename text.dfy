/**
 * The textual forms the request decoder produces: strconv.Itoa of a port,
 * the dotted-decimal form of an IPv4 address, and net.JoinHostPort.
 * Go strings are byte strings, so text is a `seq<byte>` of ASCII codes.
 * Each form comes with the reading that recovers what was written.
 */
module Text {
  import opened Bytes

  const Zero: byte := 48          // '0'
  const Dot: byte := 46           // '.'
  const Colon: byte := 58         // ':'
  const LeftBracket: byte := 91   // '['
  const RightBracket: byte := 93  // ']'

  predicate IsDigit(c: byte)
  {
    Zero <= c <= Zero + 9
  }

  predicate AllDigits(s: seq<byte>)
  {
    forall i | 0 <= i < |s| :: IsDigit(s[i])
  }

  function Digit(d: nat): (c: byte)
    requires d < 10
    ensures IsDigit(c) && c - Zero == d
  {
    Zero + d
  }

  /** strconv.Itoa of a non-negative number: its decimal digits, without a leading zero. */
  function Decimal(n: nat): (s: seq<byte>)
    ensures |s| >= 1 && AllDigits(s)
    ensures (s[0] == Zero) == (n == 0)
    decreases n
  {
    if n < 10 then [Digit(n)] else Decimal(n / 10) + [Digit(n % 10)]
  }

  /** The number a string of decimal digits denotes. */
  function DigitsValue(s: seq<byte>): nat
    requires AllDigits(s)
  {
    if s == [] then 0 else 10 * DigitsValue(s[..|s| - 1]) + (s[|s| - 1] - Zero)
  }

  /** Reading the digits back gives the number that was printed. */
  lemma {:induction false} DecimalValue(n: nat)
    ensures DigitsValue(Decimal(n)) == n
    decreases n
  {
    if n >= 10 {
      var s := Decimal(n);
      assert s[..|s| - 1] == Decimal(n / 10);
      DecimalValue(n / 10);
    }
  }

  lemma DigitsHaveNo(s: seq<byte>, c: byte)
    requires AllDigits(s) && !IsDigit(c)
    ensures c !in s
  {
  }

  /** net.IP.String for a 4-byte address: four decimal octets separated by dots. */
  function DottedQuad(a: seq<byte>): (s: seq<byte>)
    requires |a| == 4
    ensures Colon !in s
  {
    DigitsHaveNo(Decimal(a[0]), Colon);
    DigitsHaveNo(Decimal(a[1]), Colon);
    DigitsHaveNo(Decimal(a[2]), Colon);
    DigitsHaveNo(Decimal(a[3]), Colon);
    Decimal(a[0]) + [Dot] + Decimal(a[1]) + [Dot] + Decimal(a[2]) + [Dot] + Decimal(a[3])
  }

  /** The pieces of `s` between occurrences of `sep`, in order. */
  function Fields(s: seq<byte>, sep: byte): (f: seq<seq<byte>>)
    ensures |f| >= 1
  {
    if s == [] then [[]]
    else
      var rest := Fields(s[1..], sep);
      if s[0] == sep then [[]] + rest else [[s[0]] + rest[0]] + rest[1..]
  }

  lemma {:induction false} FieldsWithout(x: seq<byte>, sep: byte)
    requires sep !in x
    ensures Fields(x, sep) == [x]
  {
    if x != [] {
      FieldsWithout(x[1..], sep);
      assert [x[0]] + x[1..] == x;
    }
  }

  lemma {:induction false} FieldsSplit(x: seq<byte>, y: seq<byte>, sep: byte)
    requires sep !in x
    ensures Fields(x + [sep] + y, sep) == [x] + Fields(y, sep)
  {
    var s := x + [sep] + y;
    if x == [] {
      assert s[1..] == y;
    } else {
      assert s[1..] == x[1..] + [sep] + y;
      FieldsSplit(x[1..], y, sep);
      assert [x[0]] + x[1..] == x;
    }
  }

  predicate IsOctet(t: seq<byte>)
  {
    |t| >= 1 && AllDigits(t) && DigitsValue(t) < 256
  }

  /** Reads a dotted-decimal IPv4 address back into its four bytes. */
  function ParseDottedQuad(s: seq<byte>): (r: Option<seq<byte>>)
    ensures r.Some? ==> |r.value| == 4
  {
    var f := Fields(s, Dot);
    if |f| == 4 && IsOctet(f[0]) && IsOctet(f[1]) && IsOctet(f[2]) && IsOctet(f[3])
    then Some([DigitsValue(f[0]), DigitsValue(f[1]), DigitsValue(f[2]), DigitsValue(f[3])])
    else None
  }

  lemma DottedQuadFields(a: seq<byte>)
    requires |a| == 4
    ensures Fields(DottedQuad(a), Dot) == [Decimal(a[0]), Decimal(a[1]), Decimal(a[2]), Decimal(a[3])]
  {
    var d0, d1, d2, d3 := Decimal(a[0]), Decimal(a[1]), Decimal(a[2]), Decimal(a[3]);
    DigitsHaveNo(d0, Dot);
    DigitsHaveNo(d1, Dot);
    DigitsHaveNo(d2, Dot);
    DigitsHaveNo(d3, Dot);
    assert DottedQuad(a) == d0 + [Dot] + (d1 + [Dot] + (d2 + [Dot] + d3));
    FieldsSplit(d0, d1 + [Dot] + (d2 + [Dot] + d3), Dot);
    FieldsSplit(d1, d2 + [Dot] + d3, Dot);
    FieldsSplit(d2, d3, Dot);
    FieldsWithout(d3, Dot);
  }

  lemma OctetOf(b: byte)
    ensures IsOctet(Decimal(b)) && DigitsValue(Decimal(b)) == b
  {
    DecimalValue(b);
  }

  /** The dotted-decimal form determines the address: reading it back gives the four bytes. */
  lemma DottedQuadRoundTrip(a: seq<byte>)
    requires |a| == 4
    ensures ParseDottedQuad(DottedQuad(a)) == Some(a)
  {
    DottedQuadFields(a);
    OctetOf(a[0]);
    OctetOf(a[1]);
    OctetOf(a[2]);
    OctetOf(a[3]);
    assert [a[0], a[1], a[2], a[3]] == a;
  }

  /** net.JoinHostPort: a host containing a colon (an IPv6 literal) is put in brackets. */
  function JoinHostPort(host: seq<byte>, port: seq<byte>): (r: seq<byte>)
    ensures |r| > |port| && r[|r| - |port| - 1] == Colon && r[|r| - |port|..] == port
  {
    if Colon in host then [LeftBracket] + host + [RightBracket, Colon] + port
    else host + [Colon] + port
  }

  /** The position of the last `c` in `s`. */
  function LastIndex(s: seq<byte>, c: byte): (r: Option<nat>)
    ensures r.Some? ==> r.value < |s| && s[r.value] == c && c !in s[r.value + 1..]
    ensures r.None? ==> c !in s
  {
    if s == [] then None
    else if s[|s| - 1] == c then Some(|s| - 1)
    else
      var r := LastIndex(s[..|s| - 1], c);
      assert s == s[..|s| - 1] + [s[|s| - 1]];
      if r.Some? then assert s[r.value + 1..] == s[..|s| - 1][r.value + 1..] + [s[|s| - 1]]; r
      else r
  }

  /** Drops the brackets JoinHostPort puts around a host that contains a colon. */
  function Unbracket(h: seq<byte>): seq<byte>
  {
    if |h| >= 2 && h[0] == LeftBracket && h[|h| - 1] == RightBracket && Colon in h[1..|h| - 1]
    then h[1..|h| - 1]
    else h
  }

  /**
   * The reading of a host:port string that recovers JoinHostPort's arguments:
   * the port is the digits after the last colon, and the host is what precedes it,
   * unbracketed.
   */
  function HostPortParts(hp: seq<byte>): Option<(seq<byte>, nat)>
  {
    match LastIndex(hp, Colon)
    case None => None
    case Some(i) =>
      var h, p := hp[..i], hp[i + 1..];
      if p == [] || !AllDigits(p) then None
      else Some((Unbracket(h), DigitsValue(p)))
  }

  lemma LastIndexAt(h: seq<byte>, d: seq<byte>, c: byte)
    requires c !in d
    ensures LastIndex(h + [c] + d, c) == Some(|h|)
  {
    var s := h + [c] + d;
    assert s[|h|] == c;
  }

  /** The host part JoinHostPort writes before its last colon. */
  function Bracketed(host: seq<byte>): seq<byte>
  {
    if Colon in host then [LeftBracket] + host + [RightBracket] else host
  }

  lemma UnbracketBracketed(host: seq<byte>)
    ensures Unbracket(Bracketed(host)) == host
  {
    var h := Bracketed(host);
    if Colon in host {
      assert h[1..|h| - 1] == host;
    }
  }

  /** Every host, whatever bytes it holds, and every port survive JoinHostPort. */
  lemma HostPortRoundTrip(host: seq<byte>, port: nat)
    ensures HostPortParts(JoinHostPort(host, Decimal(port))) == Some((host, port))
  {
    var d := Decimal(port);
    DigitsHaveNo(d, Colon);
    DecimalValue(port);
    var h := Bracketed(host);
    var hp := JoinHostPort(host, d);
    assert hp == h + [Colon] + d;
    LastIndexAt(h, d, Colon);
    assert hp[..|h|] == h && hp[|h| + 1..] == d;
    UnbracketBracketed(host);
  }
}
