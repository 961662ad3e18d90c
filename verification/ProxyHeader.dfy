/**
 PROXY protocol headers (HAProxy PROXY protocol specification, sections 2.1 and 2.2): parsing
 the start of a connection, and the printed forms the parser accepts.
 */
module ProxyHeader {
  import opened Common
  import opened Text

  type Bytes = seq<Byte>

  const SPACE: Byte := 32
  const CR: Byte := 13
  const LF: Byte := 10
  const DOT: Byte := 46
  const PERCENT: Byte := 37

  const PROXY: Bytes := [80, 82, 79, 88, 89]
  const V1_PREFIX: Bytes := [80, 82, 79, 88, 89, 32]
  const V1_MAX_LEN: nat := 107
  const UNKNOWN: Bytes := [85, 78, 75, 78, 79, 87, 78]
  const TCP4: Bytes := [84, 67, 80, 52]
  const TCP6: Bytes := [84, 67, 80, 54]
  const V2_SIGNATURE: Bytes := [13, 10, 13, 10, 0, 13, 10, 81, 85, 73, 84, 10]
  const V2_HEADER_LEN: nat := 16
  const V2_MAX_BODY: nat := 4096
  const V2_UNSPEC: Byte := 0x00
  const V2_TCP4: Byte := 0x11
  const V2_TCP6: Byte := 0x21

  /** The address and port a header names, the address in its text form. */
  datatype Client = Client(host: Bytes, port: nat)

  datatype Problem =
    | NoHeader | BadPrefix | TooLong | NotAscii | Malformed | BadAddress | BadPort
    | BadSignature | BadVersion | BadCommand | BodyTooLong | BadFamily | BlockTooShort

  /** `client` is None when the header says to use the TCP peer. */
  datatype Parse =
    | NeedMore
    | Header(client: Option<Client>, consumed: nat)
    | Invalid(problem: Problem)

  // ---------------------------------------------------------------------------
  // Addresses
  // ---------------------------------------------------------------------------

  /** IPv6 text conversion, left abstract: addresses are their 16 bytes. */
  datatype V6 = V6(parse: Bytes -> Option<Bytes>, render: Bytes -> Bytes)

  predicate PlainByte(b: Byte) {
    b < 128 && b != SPACE && b != CR && b != LF && b != PERCENT
  }

  predicate Plain(s: Bytes) {
    forall i :: 0 <= i < |s| ==> PlainByte(s[i])
  }

  /** Printed IPv6 addresses parse back, are plain text of at most 39 bytes and are not IPv4. */
  ghost predicate Lawful(v6: V6) {
    forall a: Bytes :: |a| == 16 ==>
      && v6.parse(v6.render(a)) == Some(a)
      && Plain(v6.render(a)) && |v6.render(a)| <= 39
      && ParseV4(v6.render(a)) == None
  }

  function ParseOctet(t: Bytes): Option<Byte> {
    if Canonical(t) && |t| <= 3 && Value(t) <= 255 then Some(Value(t)) else None
  }

  /** Dotted decimal: four numerals of at most 255 without leading zeros. */
  function ParseV4(t: Bytes): Option<Bytes> {
    var parts := Split(t, DOT);
    if |parts| != 4 then None
    else
      var a, b, c, d := ParseOctet(parts[0]), ParseOctet(parts[1]), ParseOctet(parts[2]), ParseOctet(parts[3]);
      if a.None? || b.None? || c.None? || d.None? then None
      else Some([a.value, b.value, c.value, d.value])
  }

  function PrintV4(a: Bytes): Bytes
    requires |a| == 4
  {
    Join([Digits(a[0]), Digits(a[1]), Digits(a[2]), Digits(a[3])], DOT)
  }

  /** `_v1_address`: the canonical text of an address of the wanted version. */
  function V1Address(v6: V6, t: Bytes, version: nat): Option<Bytes> {
    match ParseV4(t)
    case Some(a) => if version == 4 && PERCENT !in t then Some(PrintV4(a)) else None
    case None =>
      match v6.parse(t)
      case Some(a) => if version == 6 && PERCENT !in t then Some(v6.render(a)) else None
      case None => None
  }

  function V1Port(t: Bytes): Option<nat> {
    if Canonical(t) && Value(t) <= 65535 then Some(Value(t)) else None
  }

  // ---------------------------------------------------------------------------
  // Version 1
  // ---------------------------------------------------------------------------

  predicate IsCrlf(buf: Bytes, i: nat)
    requires i + 2 <= |buf|
  {
    buf[i] == CR && buf[i + 1] == LF
  }

  /** The first CR LF at or after `from` that ends within the length limit. */
  function FindCrlf(buf: Bytes, from: nat): (r: Option<nat>)
    ensures r.Some? ==> from <= r.value && r.value + 2 <= |buf| && r.value + 2 <= V1_MAX_LEN
    ensures r.Some? ==> IsCrlf(buf, r.value)
    ensures forall i :: from <= i && i + 2 <= |buf| && i + 2 <= V1_MAX_LEN && (r.Some? ==> i < r.value) ==> !IsCrlf(buf, i)
    decreases |buf| - from
  {
    if from + 2 > |buf| || from + 2 > V1_MAX_LEN then None
    else if IsCrlf(buf, from) then Some(from)
    else FindCrlf(buf, from + 1)
  }

  predicate IsAscii(s: Bytes) {
    forall i :: 0 <= i < |s| ==> s[i] < 128
  }

  /** A complete line without its CR LF. */
  function ParseLine(v6: V6, line: Bytes): Result<Option<Client>, Problem> {
    if !IsAscii(line) then Err(NotAscii)
    else
      var parts := Split(line, SPACE);
      if |parts| >= 2 && parts[1] == UNKNOWN then Ok(None)
      else if |parts| != 6 || (parts[1] != TCP4 && parts[1] != TCP6) then Err(Malformed)
      else
        var version := if parts[1] == TCP4 then 4 else 6;
        var src, dst := V1Address(v6, parts[2], version), V1Address(v6, parts[3], version);
        if src.None? || dst.None? then Err(BadAddress)
        else
          var sport, dport := V1Port(parts[4]), V1Port(parts[5]);
          if sport.None? || dport.None? then Err(BadPort)
          else Ok(Some(Client(src.value, sport.value)))
  }

  /** A line with any byte of 128 or more is refused, whatever it says. */
  lemma NonAsciiIsRefused(v6: V6, line: Bytes, i: nat)
    requires i < |line| && line[i] >= 128
    ensures ParseLine(v6, line) == Err(NotAscii)
  {
  }

  /** `buf` and `prefix` agree as far as both go. */
  predicate Agrees(buf: Bytes, prefix: Bytes) {
    forall i :: 0 <= i < |buf| && i < |prefix| ==> buf[i] == prefix[i]
  }

  function ParseV1(v6: V6, buf: Bytes): Parse {
    if !Agrees(buf, V1_PREFIX) then Invalid(BadPrefix)
    else
      match FindCrlf(buf, 0)
      case None => if |buf| >= V1_MAX_LEN then Invalid(TooLong) else NeedMore
      case Some(end) =>
        match ParseLine(v6, buf[..end])
        case Err(problem) => Invalid(problem)
        case Ok(client) => Header(client, end + 2)
  }

  // ---------------------------------------------------------------------------
  // Version 2
  // ---------------------------------------------------------------------------

  function Word(hi: Byte, lo: Byte): nat {
    256 * hi + lo
  }

  function V2AddressLength(family: Byte): nat {
    if family == V2_TCP4 then 4 else 16
  }

  function V2Host(v6: V6, address: Bytes): Bytes
    requires |address| == 4 || |address| == 16
  {
    if |address| == 4 then PrintV4(address) else v6.render(address)
  }

  function ParseV2(v6: V6, buf: Bytes): Parse {
    if !Agrees(buf, V2_SIGNATURE) then Invalid(BadSignature)
    else if |buf| < V2_HEADER_LEN then NeedMore
    else
      var version, command, family, length := buf[12] / 16, buf[12] % 16, buf[13], Word(buf[14], buf[15]);
      var addressed := command == 1 && family != V2_UNSPEC;
      if version != 2 then Invalid(BadVersion)
      else if command > 1 then Invalid(BadCommand)
      else if length > V2_MAX_BODY then Invalid(BodyTooLong)
      else if addressed && family != V2_TCP4 && family != V2_TCP6 then Invalid(BadFamily)
      else if addressed && length < 2 * V2AddressLength(family) + 4 then Invalid(BlockTooShort)
      else if |buf| < V2_HEADER_LEN + length then NeedMore
      else if !addressed then Header(None, V2_HEADER_LEN + length)
      else
        var n := V2AddressLength(family);
        var body := buf[V2_HEADER_LEN..V2_HEADER_LEN + length];
        Header(Some(Client(V2Host(v6, body[..n]), Word(body[2 * n], body[2 * n + 1]))), V2_HEADER_LEN + length)
  }

  function ParseHeader(v6: V6, buf: Bytes): Parse {
    if buf == [] then NeedMore
    else if buf[0] == V1_PREFIX[0] then ParseV1(v6, buf)
    else if buf[0] == V2_SIGNATURE[0] then ParseV2(v6, buf)
    else Invalid(NoHeader)
  }

  // ---------------------------------------------------------------------------
  // Incremental parsing
  // ---------------------------------------------------------------------------

  lemma {:induction false} FindCrlfStable(buf: Bytes, more: Bytes, from: nat)
    requires FindCrlf(buf, from).Some? || |buf| >= V1_MAX_LEN
    ensures FindCrlf(buf + more, from) == FindCrlf(buf, from)
    decreases |buf| - from
  {
    if !(from + 2 > |buf| || from + 2 > V1_MAX_LEN) && !(buf[from] == CR && buf[from + 1] == LF) {
      FindCrlfStable(buf, more, from + 1);
    }
  }

  lemma AgreesStable(buf: Bytes, more: Bytes, prefix: Bytes)
    requires !Agrees(buf, prefix) || |buf| >= |prefix|
    ensures Agrees(buf + more, prefix) <==> Agrees(buf, prefix)
  {
    if !Agrees(buf, prefix) {
      var i :| 0 <= i < |buf| && i < |prefix| && buf[i] != prefix[i];
      assert (buf + more)[i] == buf[i];
    }
  }

  /** The line's end lies past the prefix. */
  lemma CrlfAfterPrefix(buf: Bytes)
    requires Agrees(buf, V1_PREFIX) && FindCrlf(buf, 0).Some?
    ensures FindCrlf(buf, 0).value >= |V1_PREFIX|
  {
    assert forall i :: 0 <= i < |V1_PREFIX| ==> V1_PREFIX[i] != CR;
  }

  lemma V1Stable(v6: V6, buf: Bytes, more: Bytes)
    requires ParseV1(v6, buf) != NeedMore
    ensures ParseV1(v6, buf + more) == ParseV1(v6, buf)
  {
    if Agrees(buf, V1_PREFIX) {
      FindCrlfStable(buf, more, 0);
      if FindCrlf(buf, 0).Some? {
        CrlfAfterPrefix(buf);
        assert (buf + more)[..FindCrlf(buf, 0).value] == buf[..FindCrlf(buf, 0).value];
      }
    }
    AgreesStable(buf, more, V1_PREFIX);
  }

  lemma V2Stable(v6: V6, buf: Bytes, more: Bytes)
    requires ParseV2(v6, buf) != NeedMore
    ensures ParseV2(v6, buf + more) == ParseV2(v6, buf)
  {
    AgreesStable(buf, more, V2_SIGNATURE);
    if Agrees(buf, V2_SIGNATURE) {
      var all := buf + more;
      assert all[12] == buf[12] && all[13] == buf[13] && all[14] == buf[14] && all[15] == buf[15];
      var total := V2_HEADER_LEN + Word(buf[14], buf[15]);
      if total <= |buf| {
        assert all[V2_HEADER_LEN..total] == buf[V2_HEADER_LEN..total];
      }
    }
  }

  /** A decision, good or bad, is not changed by bytes that arrive later. */
  lemma DecisionIsStable(v6: V6, buf: Bytes, more: Bytes)
    requires ParseHeader(v6, buf) != NeedMore
    ensures ParseHeader(v6, buf + more) == ParseHeader(v6, buf)
  {
    assert (buf + more)[0] == buf[0];
    if buf[0] == V1_PREFIX[0] {
      V1Stable(v6, buf, more);
    } else if buf[0] == V2_SIGNATURE[0] {
      V2Stable(v6, buf, more);
    }
  }

  /** An undecided buffer is short, and a decided header lies inside the buffer. */
  lemma UndecidedIsShort(v6: V6, buf: Bytes)
    ensures ParseHeader(v6, buf) == NeedMore && buf != [] && buf[0] == V1_PREFIX[0] ==> |buf| < V1_MAX_LEN
    ensures ParseHeader(v6, buf) == NeedMore ==> |buf| < V2_HEADER_LEN + V2_MAX_BODY
    ensures ParseHeader(v6, buf).Header? ==> 0 < ParseHeader(v6, buf).consumed <= |buf|
  {
  }
}
