/**
 One connection to the enrollment listener: PROXY header first, then TLS. The protocol
 object is a class; its methods follow a step function over connection events.
 */
module ProxyConnection {
  import opened Common
  import opened Text
  import opened ProxyHeader

  /** `Secured` means the transport belongs to TLS, with the client the header named. */
  datatype Phase = Fresh | Waiting | Dropped | Secured(client: Option<Client>) | Gone

  /** `received` is what TLS has read; `buf` what waits for the header to be complete. */
  datatype Conn = Conn(phase: Phase, buf: Bytes, timerArmed: bool, received: Bytes)

  datatype Event = Made(trusted: bool) | Data(chunk: Bytes) | Timeout | Lost

  const INITIAL: Conn := Conn(Fresh, [], false, [])

  // ---------------------------------------------------------------------------
  // Steps
  // ---------------------------------------------------------------------------

  predicate Enabled(c: Conn, e: Event) {
    match e
    case Made(_) => c.phase == Fresh
    case Data(_) => c.phase != Fresh
    case Timeout => c.timerArmed
    case Lost => c.phase != Fresh
  }

  function Made1(c: Conn, trusted: bool): Conn {
    if trusted then c.(phase := Waiting, timerArmed := true) else c.(phase := Dropped)
  }

  /** Bytes go to the header while it is incomplete, to TLS after it, nowhere once closed. */
  function Data1(v6: V6, c: Conn, chunk: Bytes): Conn {
    match c.phase
    case Waiting => Decide(v6, c, c.buf + chunk)
    case Secured(_) => c.(received := c.received + chunk)
    case _ => c
  }

  function Decide(v6: V6, c: Conn, buf: Bytes): Conn {
    match ParseHeader(v6, buf)
    case NeedMore => c.(buf := buf)
    case Invalid(_) => c.(phase := Dropped, buf := buf, timerArmed := false)
    case Header(client, n) =>
      UndecidedIsShort(v6, buf);
      Conn(Secured(client), [], false, c.received + buf[n..])
  }

  function Next(v6: V6, c: Conn, e: Event): Conn {
    match e
    case Made(trusted) => Made1(c, trusted)
    case Data(chunk) => Data1(v6, c, chunk)
    case Timeout => c.(phase := Dropped, timerArmed := false)
    case Lost => c.(phase := Gone, timerArmed := false)
  }

  // ---------------------------------------------------------------------------
  // The protocol object
  // ---------------------------------------------------------------------------

  /** TLS's read side: it lends a buffer of any size per call, and takes what was put into it. */
  class Tls {
    const offer: nat -> nat
    var calls: nat
    var lent: array<Byte>
    var received: Bytes

    ghost predicate Offers() {
      forall call: nat :: offer(call) > 0
    }

    constructor (offer: nat -> nat)
      ensures this.offer == offer && fresh(lent) && received == []
    {
      this.offer := offer;
      calls, received := 0, [];
      lent := new Byte[0];
    }

    method GetBuffer() returns (buffer: array<Byte>)
      modifies this
      ensures buffer == lent && fresh(buffer) && buffer.Length == offer(old(calls))
      ensures received == old(received)
    {
      buffer := new Byte[offer(calls)];
      lent, calls := buffer, calls + 1;
    }

    method BufferUpdated(n: nat)
      requires n <= lent.Length
      modifies this`received
      ensures received == old(received) + lent[..n]
    {
      received := received + lent[..n];
    }

    /** Hands over bytes through the buffers lent, as many at a time as each holds. */
    method Feed(leftover: Bytes)
      requires Offers()
      modifies this
      ensures received == old(received) + leftover
    {
      var view := leftover;
      while view != []
        invariant received + view == old(received) + leftover
        decreases |view|
      {
        ghost var before := received;
        var buffer := GetBuffer();
        var n := Min(buffer.Length, |view|);
        forall i | 0 <= i < n { buffer[i] := view[i]; }
        assert buffer[..n] == view[..n];
        BufferUpdated(n);
        assert received + view[n..] == before + view;
        view := view[n..];
      }
    }
  }

  class ProxyProtocolTls {
    const v6: V6
    const tls: Tls
    var phase: Phase
    var buf: Bytes
    var timerArmed: bool

    ghost predicate Valid() {
      tls.Offers()
    }

    ghost function State(): Conn
      reads this, tls
    {
      Conn(phase, buf, timerArmed, tls.received)
    }

    constructor (v6: V6, offer: nat -> nat)
      requires forall call: nat :: offer(call) > 0
      ensures Valid() && State() == INITIAL && this.v6 == v6 && fresh(tls)
    {
      this.v6 := v6;
      tls := new Tls(offer);
      phase, buf, timerArmed := Fresh, [], false;
    }

    method ConnectionMade(trusted: bool)
      requires Enabled(State(), Made(trusted))
      modifies this
      ensures State() == Next(v6, old(State()), Made(trusted))
    {
      if !trusted {
        phase := Dropped;
        return;
      }
      phase, timerArmed := Waiting, true;
    }

    /** The transport delivers to whichever protocol it has, and to none once aborted. */
    method Deliver(chunk: Bytes)
      requires Valid() && Enabled(State(), Data(chunk))
      modifies this, tls
      ensures State() == Next(v6, old(State()), Data(chunk))
    {
      if phase == Waiting {
        DataReceived(chunk);
      } else if phase.Secured? {
        tls.Feed(chunk);
      }
    }

    method DataReceived(data: Bytes)
      requires Valid() && phase == Waiting
      modifies this, tls
      ensures State() == Next(v6, old(State()), Data(data))
    {
      buf := buf + data;
      match ParseHeader(v6, buf)
      case Invalid(_) => Close();
      case NeedMore =>
      case Header(client, consumed) =>
        UndecidedIsShort(v6, buf);
        CancelTimer();
        StartTls(client, buf[consumed..]);
    }

    method StartTls(client: Option<Client>, leftover: Bytes)
      requires Valid()
      modifies this, tls
      ensures State() == Conn(Secured(client), [], old(timerArmed), old(tls.received) + leftover)
    {
      phase := Secured(client);
      tls.Feed(leftover);
      buf := [];
    }

    method OnTimeout()
      requires Enabled(State(), Timeout)
      modifies this
      ensures State() == Next(v6, old(State()), Timeout)
    {
      Close();
    }

    method ConnectionLost()
      requires Enabled(State(), Lost)
      modifies this
      ensures State() == Next(v6, old(State()), Lost)
    {
      CancelTimer();
      phase := Gone;
    }

    method CancelTimer()
      modifies this
      ensures State() == old(State()).(timerArmed := false)
    {
      if timerArmed {
        timerArmed := false;
      }
    }

    method Close()
      modifies this
      ensures State() == old(State()).(phase := Dropped, timerArmed := false)
    {
      CancelTimer();
      phase := Dropped;
    }
  }

  // ---------------------------------------------------------------------------
  // Runs
  // ---------------------------------------------------------------------------

  predicate ValidRun(v6: V6, c: Conn, run: seq<Event>)
    decreases |run|
  {
    run == [] || (Enabled(c, run[0]) && ValidRun(v6, Next(v6, c, run[0]), run[1..]))
  }

  function Final(v6: V6, c: Conn, run: seq<Event>): Conn
    decreases |run|
  {
    if run == [] then c else Final(v6, Next(v6, c, run[0]), run[1..])
  }

  /** Any traffic at all is a run: after the connection is made, chunks in any number, and the loss. */
  lemma {:induction false} TrafficIsARun(v6: V6, c: Conn, chunks: seq<Bytes>)
    requires c.phase != Fresh
    ensures ValidRun(v6, c, seq(|chunks|, i requires 0 <= i < |chunks| => Data(chunks[i])) + [Lost])
    decreases |chunks|
  {
    var run := seq(|chunks|, i requires 0 <= i < |chunks| => Data(chunks[i])) + [Lost];
    if chunks == [] {
      assert run == [Lost] && ValidRun(v6, Next(v6, c, Lost), run[1..]);
    } else {
      var rest := chunks[1..];
      TrafficIsARun(v6, Next(v6, c, run[0]), rest);
      assert run[1..] == seq(|rest|, i requires 0 <= i < |rest| => Data(rest[i])) + [Lost];
    }
  }

  function Carried(e: Event): Bytes {
    if e.Data? then e.chunk else []
  }

  /** Every byte the peer sent, in order. */
  function Sent(run: seq<Event>): Bytes {
    if run == [] then [] else Carried(run[0]) + Sent(run[1..])
  }

  /** The connection agrees with the header parser on the bytes `sent` so far. */
  predicate Consistent(v6: V6, c: Conn, sent: Bytes) {
    && (c.timerArmed <==> c.phase == Waiting)
    && match c.phase
       case Fresh => c.buf == [] && c.received == [] && sent == []
       case Waiting => ParseHeader(v6, sent) == NeedMore && c.buf == sent && c.received == []
       case Secured(client) =>
         var p := ParseHeader(v6, sent);
         c.buf == [] && p.Header? && p.client == client && p.consumed <= |sent| && c.received == sent[p.consumed..]
       case Dropped => c.received == []
       case Gone => c.received == [] || Secure(v6, c.received, sent)
  }

  /** `received` follows a header in `sent`. */
  predicate Secure(v6: V6, received: Bytes, sent: Bytes) {
    var p := ParseHeader(v6, sent);
    p.Header? && p.consumed + |received| <= |sent| && received == sent[p.consumed..p.consumed + |received|]
  }

  lemma StepKeepsConsistent(v6: V6, c: Conn, e: Event, sent: Bytes)
    requires Consistent(v6, c, sent) && Enabled(c, e)
    ensures Consistent(v6, Next(v6, c, e), sent + Carried(e))
  {
    if e.Data? {
      DataKeepsConsistent(v6, c, e.chunk, sent);
    } else {
      assert sent + [] == sent;
    }
  }

  lemma DataKeepsConsistent(v6: V6, c: Conn, chunk: Bytes, sent: Bytes)
    requires Consistent(v6, c, sent) && c.phase != Fresh
    ensures Consistent(v6, Data1(v6, c, chunk), sent + chunk)
  {
    UndecidedIsShort(v6, sent + chunk);
    if ParseHeader(v6, sent) != NeedMore {
      DecisionIsStable(v6, sent, chunk);
    }
  }

  lemma {:induction false} ConsistentRun(v6: V6, c: Conn, run: seq<Event>, sent: Bytes, total: Bytes)
    requires Consistent(v6, c, sent) && ValidRun(v6, c, run) && total == sent + Sent(run)
    ensures Consistent(v6, Final(v6, c, run), total)
    decreases |run|
  {
    if run == [] {
      assert sent + [] == sent;
    } else {
      var next := sent + Carried(run[0]);
      assert total == next + Sent(run[1..]);
      StepKeepsConsistent(v6, c, run[0], sent);
      ConsistentRun(v6, Next(v6, c, run[0]), run[1..], next, total);
    }
  }

  /** In every run, TLS reads exactly what follows the header, and the timer runs exactly while waiting. */
  lemma TlsReadsWhatFollowsTheHeader(v6: V6, run: seq<Event>)
    requires ValidRun(v6, INITIAL, run)
    ensures Consistent(v6, Final(v6, INITIAL, run), Sent(run))
  {
    ConsistentRun(v6, INITIAL, run, [], Sent(run));
  }

  lemma {:induction false} ClosedStaysClosed(v6: V6, c: Conn, run: seq<Event>)
    requires c.phase in {Dropped, Gone} && !c.timerArmed && ValidRun(v6, c, run)
    ensures Final(v6, c, run).phase in {Dropped, Gone} && Final(v6, c, run).received == c.received
    decreases |run|
  {
    if run != [] {
      ClosedStaysClosed(v6, Next(v6, c, run[0]), run[1..]);
    }
  }

  /** Nothing an untrusted peer sends reaches TLS. */
  lemma UntrustedReachesNothing(v6: V6, run: seq<Event>)
    requires ValidRun(v6, INITIAL, run) && run != [] && run[0] == Made(false)
    ensures !Final(v6, INITIAL, run).phase.Secured? && Final(v6, INITIAL, run).received == []
  {
    ClosedStaysClosed(v6, Next(v6, INITIAL, run[0]), run[1..]);
  }

  predicate OnlyData(run: seq<Event>) {
    forall i :: 0 <= i < |run| ==> run[i].Data?
  }

  /** Delivering two chunks is delivering their concatenation, as far as anyone can see. */
  lemma ChunksMerge(v6: V6, c: Conn, x: Bytes, y: Bytes)
    requires c.phase == Waiting ==> ParseHeader(v6, c.buf) == NeedMore
    ensures var two := Data1(v6, Data1(v6, c, x), y);
      var one := Data1(v6, c, x + y);
      two.phase == one.phase && two.received == one.received && two.timerArmed == one.timerArmed
  {
    assert c.buf + (x + y) == (c.buf + x) + y;
    assert c.received + (x + y) == (c.received + x) + y;
    if c.phase == Waiting {
      var buf := c.buf + x;
      UndecidedIsShort(v6, buf);
      if ParseHeader(v6, buf) != NeedMore {
        DecisionIsStable(v6, buf, y);
        if ParseHeader(v6, buf).Header? {
          var n := ParseHeader(v6, buf).consumed;
          assert (buf + y)[n..] == buf[n..] + y;
          assert c.received + (buf[n..] + y) == (c.received + buf[n..]) + y;
        }
      }
    }
  }

  /** However the peer's bytes are cut into chunks, the connection ends as if they came at once. */
  lemma {:induction false} ChunkingDoesNotMatter(v6: V6, c: Conn, run: seq<Event>)
    requires c.phase == Waiting && ParseHeader(v6, c.buf) == NeedMore && OnlyData(run)
    ensures var whole := Data1(v6, c, Sent(run));
      Final(v6, c, run).phase == whole.phase && Final(v6, c, run).received == whole.received
    decreases |run|
  {
    if run == [] {
      assert c.buf + [] == c.buf;
    } else {
      assert run[0].Data?;
      var d := Data1(v6, c, run[0].chunk);
      ChunksMerge(v6, c, run[0].chunk, Sent(run[1..]));
      if d.phase == Waiting {
        ChunkingDoesNotMatter(v6, d, run[1..]);
      } else {
        DecidedTakesAll(v6, d, run[1..]);
      }
    }
  }

  lemma {:induction false} DecidedTakesAll(v6: V6, c: Conn, run: seq<Event>)
    requires c.phase != Waiting && OnlyData(run)
    ensures var whole := Data1(v6, c, Sent(run));
      Final(v6, c, run).phase == whole.phase && Final(v6, c, run).received == whole.received
    decreases |run|
  {
    if run == [] {
      assert c.received + [] == c.received;
    } else {
      assert run[0].Data?;
      ChunksMerge(v6, c, run[0].chunk, Sent(run[1..]));
      DecidedTakesAll(v6, Data1(v6, c, run[0].chunk), run[1..]);
    }
  }
}
