/** Printed PROXY headers parse back, and what the parser accepts is a printed header. */
module ProxyRoundTrip {
  import opened Common
  import opened Text
  import opened ProxyHeader

  // ---------------------------------------------------------------------------
  // IPv4 text
  // ---------------------------------------------------------------------------

  lemma {:induction false} DigitsArePlain(s: Bytes, sep: Byte)
    requires AllDigits(s) && !IsDigit(sep)
    ensures sep !in s && Plain(s)
  {
    forall i | 0 <= i < |s| ensures s[i] != sep && PlainByte(s[i]) {
      assert IsDigit(s[i]);
    }
  }

  lemma OctetRoundTrip(b: Byte)
    ensures ParseOctet(Digits(b)) == Some(b) && AllDigits(Digits(b)) && |Digits(b)| <= 3
  {
    DigitsRoundTrip(b);
  }

  function Octets(a: Bytes): seq<Bytes>
    requires |a| == 4
  {
    [Digits(a[0]), Digits(a[1]), Digits(a[2]), Digits(a[3])]
  }

  lemma V4RoundTrip(a: Bytes)
    requires |a| == 4
    ensures ParseV4(PrintV4(a)) == Some(a)
  {
    var parts := Octets(a);
    forall i | 0 <= i < 4 ensures DOT !in parts[i] && ParseOctet(parts[i]) == Some(a[i]) {
      OctetRoundTrip(a[i]);
      DigitsArePlain(parts[i], DOT);
    }
    SplitJoin(parts, DOT);
    assert a == [a[0], a[1], a[2], a[3]];
  }

  /** Accepted IPv4 text is canonical: it is what the address prints as. */
  lemma V4IsCanonical(t: Bytes)
    requires ParseV4(t).Some?
    ensures |ParseV4(t).value| == 4 && PrintV4(ParseV4(t).value) == t
  {
    var parts := Split(t, DOT);
    JoinSplit(t, DOT);
    ValueRoundTrip(parts[0]);
    ValueRoundTrip(parts[1]);
    ValueRoundTrip(parts[2]);
    ValueRoundTrip(parts[3]);
    assert parts == [parts[0], parts[1], parts[2], parts[3]];
  }

  // ---------------------------------------------------------------------------
  // Joined lines
  // ---------------------------------------------------------------------------

  predicate AllPlain(parts: seq<Bytes>) {
    forall i :: 0 <= i < |parts| ==> Plain(parts[i])
  }

  function Total(parts: seq<Bytes>): nat {
    if parts == [] then 0 else |parts[0]| + Total(parts[1..])
  }

  lemma TotalOne(part: Bytes)
    ensures Total([part]) == |part|
  {
    assert [part][1..] == [];
  }

  predicate LineByte(b: Byte) {
    b < 128 && b != CR
  }

  lemma {:induction false} JoinedLine(parts: seq<Bytes>, sep: Byte)
    requires |parts| >= 1 && AllPlain(parts) && LineByte(sep)
    ensures forall i :: 0 <= i < |Join(parts, sep)| ==> LineByte(Join(parts, sep)[i])
    ensures |Join(parts, sep)| == Total(parts) + |parts| - 1
  {
    assert forall i :: 0 <= i < |parts[0]| ==> PlainByte(parts[0][i]);
    if |parts| > 1 {
      JoinedLine(parts[1..], sep);
    } else {
      assert parts[1..] == [];
    }
  }

  /** Plain text joined by dots is plain. */
  lemma {:induction false} JoinPlain(parts: seq<Bytes>, sep: Byte)
    requires |parts| >= 1 && AllPlain(parts) && PlainByte(sep)
    ensures Plain(Join(parts, sep))
  {
    if |parts| > 1 {
      JoinPlain(parts[1..], sep);
    }
  }

  lemma PrintV4IsPlain(a: Bytes)
    requires |a| == 4
    ensures Plain(PrintV4(a)) && |PrintV4(a)| <= 15
  {
    var parts := Octets(a);
    forall i | 0 <= i < 4 ensures Plain(parts[i]) && |parts[i]| <= 3 {
      OctetRoundTrip(a[i]);
      DigitsArePlain(parts[i], DOT);
    }
    JoinPlain(parts, DOT);
    JoinedLine(parts, DOT);
    var rest := parts[1..];
    assert rest == [parts[1], parts[2], parts[3]] && rest[1..] == [parts[2], parts[3]];
    assert Total(rest) == |parts[1]| + Total(rest[1..]);
    assert rest[1..][1..] == [parts[3]];
    TotalOne(parts[3]);
  }

  // ---------------------------------------------------------------------------
  // Version 1
  // ---------------------------------------------------------------------------

  lemma {:induction false} FindCrlfAt(line: Bytes, rest: Bytes, from: nat)
    requires from <= |line| && |line| + 2 <= V1_MAX_LEN
    requires forall i :: from <= i < |line| - 1 ==> !(line[i] == CR && line[i + 1] == LF)
    ensures FindCrlf(line + [CR, LF] + rest, from) == Some(|line|)
    decreases |line| - from
  {
    var all := line + [CR, LF] + rest;
    if from < |line| {
      assert all[from] == line[from];
      assert from + 1 < |line| ==> all[from + 1] == line[from + 1];
      assert from + 1 == |line| ==> all[from + 1] == CR;
      FindCrlfAt(line, rest, from + 1);
    } else {
      assert all[from] == CR && all[from + 1] == LF;
    }
  }

  /** A version 1 line parses to whatever its contents mean, whatever follows it. */
  lemma LineParses(v6: V6, line: Bytes, rest: Bytes)
    requires |line| >= 6 && line[..6] == V1_PREFIX && |line| + 2 <= V1_MAX_LEN
    requires forall i :: 0 <= i < |line| - 1 ==> !(line[i] == CR && line[i + 1] == LF)
    ensures ParseHeader(v6, line + [CR, LF] + rest) ==
      match ParseLine(v6, line)
      case Ok(client) => Header(client, |line| + 2)
      case Err(problem) => Invalid(problem)
  {
    var all := line + [CR, LF] + rest;
    FindCrlfAt(line, rest, 0);
    assert all[..|line|] == line;
    forall i | 0 <= i < 6 ensures all[i] == V1_PREFIX[i] { assert line[..6][i] == line[i]; }
  }

  /** A header of the given version, addresses already in text form. */
  function PrintV1(kind: Bytes, src: Bytes, dst: Bytes, sport: nat, dport: nat): Bytes {
    Join(V1Parts(kind, src, dst, sport, dport), SPACE) + [CR, LF]
  }

  function V1Parts(kind: Bytes, src: Bytes, dst: Bytes, sport: nat, dport: nat): seq<Bytes> {
    [PROXY, kind, src, dst, Digits(sport), Digits(dport)]
  }

  lemma V1PartsTotal(kind: Bytes, src: Bytes, dst: Bytes, sport: nat, dport: nat)
    ensures var p := V1Parts(kind, src, dst, sport, dport);
      Total(p) == 5 + |kind| + |src| + |dst| + |Digits(sport)| + |Digits(dport)|
  {
    var p := V1Parts(kind, src, dst, sport, dport);
    var p1 := [kind, src, dst, Digits(sport), Digits(dport)];
    var p2 := [src, dst, Digits(sport), Digits(dport)];
    var p3 := [dst, Digits(sport), Digits(dport)];
    var p4 := [Digits(sport), Digits(dport)];
    assert p[1..] == p1 && p1[1..] == p2 && p2[1..] == p3 && p3[1..] == p4 && p4[1..] == [Digits(dport)];
    assert Total(p) == 5 + Total(p1);
    assert Total(p1) == |kind| + Total(p2);
    assert Total(p2) == |src| + Total(p3);
    assert Total(p3) == |dst| + Total(p4);
    assert Total(p4) == |Digits(sport)| + Total([Digits(dport)]);
    TotalOne(Digits(dport));
  }

  lemma {:induction false} PlainLacks(s: Bytes)
    requires Plain(s)
    ensures SPACE !in s && PERCENT !in s
  {
    forall i | 0 <= i < |s| ensures s[i] != SPACE && s[i] != PERCENT { assert PlainByte(s[i]); }
  }

  lemma PortRoundTrip(port: nat)
    requires port <= 65535
    ensures V1Port(Digits(port)) == Some(port) && Plain(Digits(port)) && |Digits(port)| <= 5
  {
    DigitsRoundTrip(port);
    DigitsArePlain(Digits(port), SPACE);
  }

  /** Text that `V1Address` maps to itself, short enough to fit. */
  predicate AddressText(v6: V6, version: nat, t: Bytes) {
    Plain(t) && |t| <= 39 && V1Address(v6, t, version) == Some(t)
  }

  /** The line of printed parts, before its CR LF. */
  lemma PartsLine(v6: V6, kind: Bytes, src: Bytes, dst: Bytes, sport: nat, dport: nat)
    requires kind == TCP4 || kind == TCP6
    requires AddressText(v6, if kind == TCP4 then 4 else 6, src)
    requires AddressText(v6, if kind == TCP4 then 4 else 6, dst)
    requires sport <= 65535 && dport <= 65535
    ensures var line := Join(V1Parts(kind, src, dst, sport, dport), SPACE);
      && ParseLine(v6, line) == Ok(Some(Client(src, sport)))
      && 6 <= |line| <= 105 && line[..6] == V1_PREFIX
      && forall i :: 0 <= i < |line| ==> line[i] != CR
  {
    var parts := V1Parts(kind, src, dst, sport, dport);
    PortRoundTrip(sport);
    PortRoundTrip(dport);
    forall i | 0 <= i < 6 ensures Plain(parts[i]) && SPACE !in parts[i] {
      PlainLacks(parts[i]);
    }
    JoinedLine(parts, SPACE);
    V1PartsTotal(kind, src, dst, sport, dport);
    SplitJoin(parts, SPACE);
    var line := Join(parts, SPACE);
    assert line == PROXY + [SPACE] + Join(parts[1..], SPACE);
    assert forall i :: 0 <= i < |line| ==> LineByte(line[i]);
    PartsParse(v6, line, kind, src, dst, sport, dport);
  }

  lemma PartsParse(v6: V6, line: Bytes, kind: Bytes, src: Bytes, dst: Bytes, sport: nat, dport: nat)
    requires kind == TCP4 || kind == TCP6
    requires AddressText(v6, if kind == TCP4 then 4 else 6, src)
    requires AddressText(v6, if kind == TCP4 then 4 else 6, dst)
    requires sport <= 65535 && dport <= 65535
    requires IsAscii(line) && Split(line, SPACE) == V1Parts(kind, src, dst, sport, dport)
    ensures ParseLine(v6, line) == Ok(Some(Client(src, sport)))
  {
    PortRoundTrip(sport);
    PortRoundTrip(dport);
  }

  lemma TextRoundTrip(v6: V6, kind: Bytes, src: Bytes, dst: Bytes, sport: nat, dport: nat, rest: Bytes)
    requires kind == TCP4 || kind == TCP6
    requires AddressText(v6, if kind == TCP4 then 4 else 6, src)
    requires AddressText(v6, if kind == TCP4 then 4 else 6, dst)
    requires sport <= 65535 && dport <= 65535
    ensures var header := PrintV1(kind, src, dst, sport, dport);
      ParseHeader(v6, header + rest) == Header(Some(Client(src, sport)), |header|)
  {
    PartsLine(v6, kind, src, dst, sport, dport);
    LineParses(v6, Join(V1Parts(kind, src, dst, sport, dport), SPACE), rest);
  }

  /** Printing then parsing a TCP4 header gives its source back and takes exactly the header. */
  lemma Tcp4RoundTrip(v6: V6, src: Bytes, dst: Bytes, sport: nat, dport: nat, rest: Bytes)
    requires |src| == 4 && |dst| == 4 && sport <= 65535 && dport <= 65535
    ensures var header := PrintV1(TCP4, PrintV4(src), PrintV4(dst), sport, dport);
      ParseHeader(v6, header + rest) == Header(Some(Client(PrintV4(src), sport)), |header|)
  {
    V4RoundTrip(src);
    V4RoundTrip(dst);
    PrintV4IsPlain(src);
    PrintV4IsPlain(dst);
    PlainLacks(PrintV4(src));
    PlainLacks(PrintV4(dst));
    TextRoundTrip(v6, TCP4, PrintV4(src), PrintV4(dst), sport, dport, rest);
  }

  lemma Tcp6RoundTrip(v6: V6, src: Bytes, dst: Bytes, sport: nat, dport: nat, rest: Bytes)
    requires Lawful(v6) && |src| == 16 && |dst| == 16 && sport <= 65535 && dport <= 65535
    ensures var header := PrintV1(TCP6, v6.render(src), v6.render(dst), sport, dport);
      ParseHeader(v6, header + rest) == Header(Some(Client(v6.render(src), sport)), |header|)
  {
    PlainLacks(v6.render(src));
    PlainLacks(v6.render(dst));
    TextRoundTrip(v6, TCP6, v6.render(src), v6.render(dst), sport, dport, rest);
  }

  lemma UnknownLine(v6: V6, extra: Bytes)
    requires extra != [] ==> extra[0] == SPACE
    requires IsAscii(extra)
    ensures ParseLine(v6, V1_PREFIX + UNKNOWN + extra) == Ok(None)
  {
    var line := V1_PREFIX + UNKNOWN + extra;
    UnknownParts(extra);
    UnknownIsAscii(extra);
    assert |Split(line, SPACE)| >= 2 && Split(line, SPACE)[1] == UNKNOWN;
  }

  /** The second part of the line is the word itself. */
  lemma UnknownParts(extra: Bytes)
    requires extra != [] ==> extra[0] == SPACE
    ensures var parts := Split(V1_PREFIX + UNKNOWN + extra, SPACE);
      |parts| >= 2 && parts[1] == UNKNOWN
  {
    assert V1_PREFIX == PROXY + [SPACE];
    SecondPart(PROXY, UNKNOWN, extra);
  }

  lemma SecondPart(first: Bytes, second: Bytes, extra: Bytes)
    requires SPACE !in first && SPACE !in second && (extra != [] ==> extra[0] == SPACE)
    ensures var parts := Split(first + [SPACE] + second + extra, SPACE);
      |parts| >= 2 && parts[1] == second
  {
    var tail := second + extra;
    assert first + [SPACE] + second + extra == first + [SPACE] + tail;
    SplitFirst(first, SPACE, tail);
    if extra == [] {
      assert tail == second;
      SplitWhole(second, SPACE);
    } else {
      assert tail == second + [SPACE] + extra[1..];
      SplitFirst(second, SPACE, extra[1..]);
    }
  }

  lemma UnknownIsAscii(extra: Bytes)
    requires IsAscii(extra)
    ensures IsAscii(V1_PREFIX + UNKNOWN + extra)
  {
    assert IsAscii(V1_PREFIX + UNKNOWN);
  }

  predicate NoCrlf(s: Bytes) {
    forall i :: 0 <= i < |s| - 1 ==> !(s[i] == CR && s[i + 1] == LF)
  }

  /** An UNKNOWN line names no client, whatever else it carries up to the first CR LF. */
  lemma UnknownRoundTrip(v6: V6, extra: Bytes, rest: Bytes)
    requires extra != [] ==> extra[0] == SPACE
    requires (forall i :: 0 <= i < |extra| ==> extra[i] < 128) && NoCrlf(extra) && 13 + |extra| + 2 <= V1_MAX_LEN
    ensures var line := V1_PREFIX + UNKNOWN + extra;
      ParseHeader(v6, line + [CR, LF] + rest) == Header(None, |line| + 2)
  {
    var line := V1_PREFIX + UNKNOWN + extra;
    UnknownLine(v6, extra);
    forall i | 0 <= i < |line| - 1 ensures !(line[i] == CR && line[i + 1] == LF) {
      if i >= 13 {
        assert line[i] == extra[i - 13] && line[i + 1] == extra[i - 12];
      }
    }
    LineParses(v6, line, rest);
  }

  /** Every TCP4 header the parser accepts is the printed form of some header. */
  lemma Tcp4Reprints(v6: V6, buf: Bytes) returns (src: Bytes, dst: Bytes, sport: nat, dport: nat)
    requires ParseHeader(v6, buf).Header? && ParseHeader(v6, buf).client.Some?
    requires |buf| >= 11 && buf[..11] == PROXY + [SPACE] + TCP4 + [SPACE]
    ensures |src| == 4 && |dst| == 4 && sport <= 65535 && dport <= 65535
    ensures var p := ParseHeader(v6, buf);
      && p.consumed <= |buf|
      && buf[..p.consumed] == PrintV1(TCP4, PrintV4(src), PrintV4(dst), sport, dport)
      && p.client == Some(Client(PrintV4(src), sport))
  {
    var end := AcceptedLine(v6, buf);
    FirstParts(buf, end, TCP4);
    src, dst, sport, dport := LineReprints(v6, buf[..end]);
  }

  /** Text of an IPv6 address without a zone. */
  predicate IsV6Text(v6: V6, t: Bytes) {
    v6.parse(t).Some? && ParseV4(t).None? && PERCENT !in t
  }

  /** Every TCP6 header the parser accepts has two IPv6 addresses and two ports, and names the first. */
  lemma Tcp6Reads(v6: V6, buf: Bytes) returns (src: Bytes, dst: Bytes, sport: nat, dport: nat)
    requires ParseHeader(v6, buf).Header? && ParseHeader(v6, buf).client.Some?
    requires |buf| >= 11 && buf[..11] == PROXY + [SPACE] + TCP6 + [SPACE]
    ensures IsV6Text(v6, src) && IsV6Text(v6, dst) && sport <= 65535 && dport <= 65535
    ensures var p := ParseHeader(v6, buf);
      && p.consumed <= |buf| && buf[..p.consumed] == PrintV1(TCP6, src, dst, sport, dport)
      && p.client == Some(Client(v6.render(v6.parse(src).value), sport))
  {
    var end := AcceptedLine(v6, buf);
    FirstParts(buf, end, TCP6);
    src, dst, sport, dport := LineReads(v6, buf[..end]);
  }

  lemma LineReads(v6: V6, line: Bytes) returns (src: Bytes, dst: Bytes, sport: nat, dport: nat)
    requires ParseLine(v6, line).Ok? && |Split(line, SPACE)| >= 2
    requires Split(line, SPACE)[0] == PROXY && Split(line, SPACE)[1] == TCP6
    ensures IsV6Text(v6, src) && IsV6Text(v6, dst) && sport <= 65535 && dport <= 65535
    ensures line == Join(V1Parts(TCP6, src, dst, sport, dport), SPACE)
    ensures ParseLine(v6, line).value == Some(Client(v6.render(v6.parse(src).value), sport))
  {
    var parts := Split(line, SPACE);
    JoinSplit(line, SPACE);
    KindsDiffer();
    src, dst := parts[2], parts[3];
    AcceptedV6(v6, src);
    AcceptedV6(v6, dst);
    sport, dport := Value(parts[4]), Value(parts[5]);
    ValueRoundTrip(parts[4]);
    ValueRoundTrip(parts[5]);
    assert parts == V1Parts(TCP6, src, dst, sport, dport);
  }

  lemma KindsDiffer()
    ensures TCP4 != TCP6 && TCP6 != UNKNOWN
  {
    assert TCP4[3] != TCP6[3] && |TCP6| != |UNKNOWN|;
  }

  lemma AcceptedV6(v6: V6, t: Bytes)
    requires V1Address(v6, t, 6).Some?
    ensures IsV6Text(v6, t) && V1Address(v6, t, 6) == Some(v6.render(v6.parse(t).value))
  {
  }

  /** The line an accepted version 1 header consists of. */
  lemma AcceptedLine(v6: V6, buf: Bytes) returns (end: nat)
    requires ParseHeader(v6, buf).Header? && buf[0] == V1_PREFIX[0]
    ensures FindCrlf(buf, 0) == Some(end) && end + 2 <= |buf| && ParseHeader(v6, buf).consumed == end + 2
    ensures buf[..end + 2] == buf[..end] + [CR, LF]
    ensures ParseLine(v6, buf[..end]) == Ok(ParseHeader(v6, buf).client)
  {
    end := FindCrlf(buf, 0).value;
    assert buf[..end + 2] == buf[..end] + [CR, LF];
  }

  lemma LineReprints(v6: V6, line: Bytes) returns (src: Bytes, dst: Bytes, sport: nat, dport: nat)
    requires ParseLine(v6, line).Ok? && |Split(line, SPACE)| >= 2
    requires Split(line, SPACE)[0] == PROXY && Split(line, SPACE)[1] == TCP4
    ensures |src| == 4 && |dst| == 4 && sport <= 65535 && dport <= 65535
    ensures line == Join(V1Parts(TCP4, PrintV4(src), PrintV4(dst), sport, dport), SPACE)
    ensures ParseLine(v6, line).value == Some(Client(PrintV4(src), sport))
  {
    var parts := Split(line, SPACE);
    JoinSplit(line, SPACE);
    src := AcceptedV4(v6, parts[2]);
    dst := AcceptedV4(v6, parts[3]);
    sport, dport := Value(parts[4]), Value(parts[5]);
    ValueRoundTrip(parts[4]);
    ValueRoundTrip(parts[5]);
    assert parts == V1Parts(TCP4, PrintV4(src), PrintV4(dst), sport, dport);
  }

  lemma AcceptedV4(v6: V6, t: Bytes) returns (a: Bytes)
    requires V1Address(v6, t, 4).Some?
    ensures |a| == 4 && PrintV4(a) == t && V1Address(v6, t, 4) == Some(t)
  {
    a := ParseV4(t).value;
    V4IsCanonical(t);
  }

  lemma FirstParts(buf: Bytes, end: nat, kind: Bytes)
    requires kind == TCP4 || kind == TCP6
    requires |buf| >= 11 && buf[..11] == PROXY + [SPACE] + kind + [SPACE]
    requires FindCrlf(buf, 0) == Some(end)
    ensures end >= 11
    ensures |Split(buf[..end], SPACE)| >= 2
    ensures Split(buf[..end], SPACE)[0] == PROXY && Split(buf[..end], SPACE)[1] == kind
  {
    assert forall i :: 0 <= i < 11 ==> buf[i] == buf[..11][i] && buf[i] != CR;
    var line := buf[..end];
    assert line == PROXY + [SPACE] + (kind + [SPACE] + line[11..]);
    SplitFirst(PROXY, SPACE, kind + [SPACE] + line[11..]);
    SplitFirst(kind, SPACE, line[11..]);
  }

  // ---------------------------------------------------------------------------
  // Version 2
  // ---------------------------------------------------------------------------

  /** `Local` and `Unspecified` carry a body that is skipped. */
  datatype V2 =
    | Local(family: Byte, body: Bytes)
    | Unspecified(body: Bytes)
    | Tcp(src: Bytes, dst: Bytes, sport: nat, dport: nat, tlvs: Bytes)

  function WordBytes(n: nat): Bytes
    requires n <= 65535
  {
    [n / 256, n % 256]
  }

  predicate WellFormed(h: V2) {
    match h
    case Local(_, body) => |body| <= V2_MAX_BODY
    case Unspecified(body) => |body| <= V2_MAX_BODY
    case Tcp(src, dst, sport, dport, tlvs) =>
      && |src| == |dst| && (|src| == 4 || |src| == 16)
      && sport <= 65535 && dport <= 65535
      && 2 * |src| + 4 + |tlvs| <= V2_MAX_BODY
  }

  function Body(h: V2): (b: Bytes)
    requires WellFormed(h)
    ensures |b| <= V2_MAX_BODY
  {
    match h
    case Local(_, body) => body
    case Unspecified(body) => body
    case Tcp(src, dst, sport, dport, tlvs) => src + dst + WordBytes(sport) + WordBytes(dport) + tlvs
  }

  function Command(h: V2): Byte {
    if h.Local? then 0x20 else 0x21
  }

  function Family(h: V2): Byte {
    match h
    case Local(family, _) => family
    case Unspecified(_) => V2_UNSPEC
    case Tcp(src, _, _, _, _) => if |src| == 4 then V2_TCP4 else V2_TCP6
  }

  function PrintV2(h: V2): Bytes
    requires WellFormed(h)
  {
    V2_SIGNATURE + [Command(h), Family(h)] + WordBytes(|Body(h)|) + Body(h)
  }

  /** The client a header names. */
  function Named(v6: V6, h: V2): Option<Client>
    requires WellFormed(h)
  {
    if h.Tcp? then Some(Client(V2Host(v6, h.src), h.sport)) else None
  }

  lemma V2Fields(h: V2, rest: Bytes)
    requires WellFormed(h)
    ensures var all := PrintV2(h) + rest;
      && |all| >= V2_HEADER_LEN + |Body(h)| && Agrees(all, V2_SIGNATURE)
      && all[12] == Command(h) && all[13] == Family(h) && Word(all[14], all[15]) == |Body(h)|
      && all[V2_HEADER_LEN..V2_HEADER_LEN + |Body(h)|] == Body(h)
  {
    var all := PrintV2(h) + rest;
    assert all[..12] == V2_SIGNATURE;
    forall i | 0 <= i < 12 ensures all[i] == V2_SIGNATURE[i] { assert all[..12][i] == all[i]; }
  }

  /** Printing then parsing a version 2 header names its client and takes exactly the header. */
  lemma V2RoundTrip(v6: V6, h: V2, rest: Bytes)
    requires WellFormed(h)
    ensures ParseHeader(v6, PrintV2(h) + rest) == Header(Named(v6, h), |PrintV2(h)|)
  {
    V2Fields(h, rest);
    if h.Tcp? {
      var n := |h.src|;
      assert Body(h)[..n] == h.src;
      assert Body(h)[2 * n] == h.sport / 256 && Body(h)[2 * n + 1] == h.sport % 256;
    }
  }

  /** Every version 2 header the parser accepts is the printed form of some header. */
  lemma V2Reprints(v6: V6, buf: Bytes) returns (h: V2)
    requires buf != [] && buf[0] == V2_SIGNATURE[0] && ParseHeader(v6, buf).Header?
    ensures WellFormed(h)
    ensures var p := ParseHeader(v6, buf);
      && p.consumed <= |buf| && buf[..p.consumed] == PrintV2(h) && p.client == Named(v6, h)
  {
    var length := Word(buf[14], buf[15]);
    h := Rebuild(v6, buf[12], buf[13], buf[V2_HEADER_LEN..V2_HEADER_LEN + length]);
    FixedPart(buf);
    TakeSplit(buf, V2_HEADER_LEN, V2_HEADER_LEN + length);
  }

  lemma Rebuild(v6: V6, command: Byte, family: Byte, body: Bytes) returns (h: V2)
    requires |body| <= V2_MAX_BODY && (command == 0x20 || command == 0x21)
    requires command == 0x21 && family != V2_UNSPEC ==>
      (family == V2_TCP4 || family == V2_TCP6) && 2 * V2AddressLength(family) + 4 <= |body|
    ensures WellFormed(h) && Command(h) == command && Family(h) == family && Body(h) == body
    ensures Named(v6, h) ==
      if command == 0x21 && family != V2_UNSPEC then
        var n := V2AddressLength(family);
        Some(Client(V2Host(v6, body[..n]), Word(body[2 * n], body[2 * n + 1])))
      else None
  {
    if command == 0x20 {
      h := Local(family, body);
    } else if family == V2_UNSPEC {
      h := Unspecified(body);
    } else {
      h := AddressBlock(body, V2AddressLength(family));
    }
  }

  lemma FixedPart(buf: Bytes)
    requires |buf| >= V2_HEADER_LEN && Agrees(buf, V2_SIGNATURE)
    ensures buf[..V2_HEADER_LEN] == V2_SIGNATURE + [buf[12], buf[13]] + WordBytes(Word(buf[14], buf[15]))
  {
    assert buf[..12] == V2_SIGNATURE;
    assert WordBytes(Word(buf[14], buf[15])) == [buf[14], buf[15]];
  }

  lemma TakeSplit(s: Bytes, i: nat, j: nat)
    requires i <= j <= |s|
    ensures s[..j] == s[..i] + s[i..j]
  {
  }

  lemma AddressBlock(body: Bytes, n: nat) returns (h: V2)
    requires (n == 4 || n == 16) && 2 * n + 4 <= |body| <= V2_MAX_BODY
    ensures h.Tcp? && WellFormed(h) && |h.src| == n && Body(h) == body
    ensures h.src == body[..n] && h.sport == Word(body[2 * n], body[2 * n + 1])
  {
    h := Tcp(body[..n], body[n..2 * n], Word(body[2 * n], body[2 * n + 1]),
             Word(body[2 * n + 2], body[2 * n + 3]), body[2 * n + 4..]);
    assert WordBytes(h.sport) == [body[2 * n], body[2 * n + 1]];
    assert WordBytes(h.dport) == [body[2 * n + 2], body[2 * n + 3]];
  }
}
