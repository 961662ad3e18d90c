/**
 Redeeming enrollment tokens as concurrent transactions.

 A redemption checks the token, takes the hub's advisory lock, consumes one use with a guarded
 UPDATE, allocates an address and inserts the client, then commits or rolls everything back and
 gives the lock up. Redemptions interleave with each other, with revocations, sweeps and client
 deletions, and a worker may die at any point.

 Writes become visible at commit. A consumed token row stays locked until then, so no other
 transaction can change it. What a transaction reads under the advisory lock depends on the
 isolation level: at READ COMMITTED every query sees the newest committed rows, at REPEATABLE
 READ it sees the rows as they were when the transaction first read, which is when the token was
 looked up, before the lock was taken.
 */
module Enrollment {
  import opened Common
  import opened Ipam
  import opened Tokens

  datatype Isolation = ReadCommitted | RepeatableRead

  datatype Hub = Hub(network: Network, serverIp: nat)

  /**
   A client row; `via` is the token it was enrolled with. A registered client that is not provisioned
   yet has the key "". An address that is not set is 0, which no hub hands out.
   */
  datatype Client = Client(server: nat, name: string, key: string, address: nat, via: nat)

  type Clients = map<nat, Client>

  datatype Phase =
    | Checked
    | Holding
    | Using(row: Token)
    | Admitted(row: Token, client: Client)
    | Finished
  {
    predicate HasLock() {
      Holding? || Using? || Admitted?
    }

    predicate HasRow() {
      Using? || Admitted?
    }
  }

  /**
   `snapshot` is the client table when the transaction looked its token up, `seen` the number of
   rows ever committed by then.
   */
  datatype Redemption = Redemption(
    token: nat, server: nat, hostname: string, key: string, snapshot: Clients, seen: nat, phase: Phase)

  /** `log` records every client row ever committed, oldest first; it survives deletions. */
  datatype State = State(
    isolation: Isolation,
    hubs: map<nat, Hub>,
    now: int,
    tokens: map<nat, Token>,
    minted: set<nat>,
    clients: Clients,
    log: seq<Client>,
    locks: map<nat, nat>,
    redemptions: map<nat, Redemption>)

  datatype Action =
    | Check(x: nat, token: nat, hostname: string, key: string)
    | Acquire(x: nat)
    | GiveUp(x: nat)
    | Consume(x: nat)
    | Admit(x: nat)
    | Commit(x: nat, id: nat)
    | Rollback(x: nat)
    | Release(x: nat)
    | Die(x: nat)
    | Mint(id: nat, row: Token)
    | Revoke(id: nat)
    | Sweep(retention: nat)
    | Delete(id: nat)
    | Tick(to: int)

  /** The client rows a redemption's queries see. */
  function View(s: State, r: Redemption): Clients {
    if s.isolation.ReadCommitted? then s.clients else r.snapshot
  }

  function AddressesOf(clients: Clients, server: nat): set<nat> {
    set c | c in clients && clients[c].server == server :: clients[c].address
  }

  predicate KeyFree(clients: Clients, key: string) {
    forall c :: c in clients ==> clients[c].key != key
  }

  predicate NameFree(clients: Clients, name: string) {
    forall c :: c in clients ==> clients[c].name != name
  }

  /** The row a redemption would insert, or None when `_admit` refuses it. */
  function Candidate(s: State, r: Redemption): Option<Client>
    requires r.phase.HasRow() && r.server in s.hubs && Valid(s.hubs[r.server].network)
  {
    var view := View(s, r);
    var name := r.phase.row.namePrefix + "-" + r.hostname;
    var hub := s.hubs[r.server];
    if !NameFree(view, name) || !KeyFree(view, r.key) then None
    else
      match Allocate(hub.network, hub.serverIp, AddressesOf(view, r.server))
      case None => None
      case Some(a) => Some(Client(r.server, name, r.key, a, r.token))
  }

  /** Nobody else has the token's row locked. */
  predicate RowUnlocked(s: State, token: nat) {
    forall x :: x in s.redemptions && s.redemptions[x].phase.HasRow()
      ==> s.redemptions[x].token != token
  }

  /** The unique index on the name admits the row: no committed and no pending one has it. */
  predicate NameIndexed(s: State, name: string) {
    && NameFree(s.clients, name)
    && forall x :: x in s.redemptions && s.redemptions[x].phase.Admitted?
         ==> s.redemptions[x].phase.client.name != name
  }

  predicate Enabled(s: State, a: Action) {
    match a
    case Check(x, token, _, _) =>
      && x !in s.redemptions && token in s.tokens
      && TokenStatus(s.tokens[token], s.now) == Active
      && s.tokens[token].server in s.hubs
    case Acquire(x) =>
      x in s.redemptions && s.redemptions[x].phase.Checked? && s.redemptions[x].server !in s.locks
    case GiveUp(x) => x in s.redemptions && s.redemptions[x].phase.Checked?
    case Consume(x) =>
      x in s.redemptions && s.redemptions[x].phase.Holding? && RowUnlocked(s, s.redemptions[x].token)
    case Admit(x) =>
      && x in s.redemptions && s.redemptions[x].phase.Using?
      && s.redemptions[x].server in s.hubs && Valid(s.hubs[s.redemptions[x].server].network)
      && var c := Candidate(s, s.redemptions[x]);
         c.Some? && NameIndexed(s, c.value.name)
    case Commit(x, id) =>
      x in s.redemptions && s.redemptions[x].phase.Admitted? && id !in s.clients
    case Rollback(x) => x in s.redemptions && s.redemptions[x].phase.HasLock()
    case Release(x) =>
      && x in s.redemptions && s.redemptions[x].phase.Finished?
      && s.redemptions[x].server in s.locks && s.locks[s.redemptions[x].server] == x
    case Die(x) => x in s.redemptions
    case Mint(id, row) =>
      id !in s.minted && row.useCount == 0 <= row.maxUses && row.revokedAt.None?
    case Revoke(id) => id in s.tokens && RowUnlocked(s, id)
    case Sweep(retention) =>
      forall id :: id in s.tokens && Dead(s.tokens[id], s.now - retention) ==> RowUnlocked(s, id)
    case Delete(id) => id in s.clients
    case Tick(to) => s.now <= to
  }

  function Move(s: State, x: nat, p: Phase): State
    requires x in s.redemptions
  {
    s.(redemptions := s.redemptions[x := s.redemptions[x].(phase := p)])
  }

  function Unlock(s: State, x: nat): State
    requires x in s.redemptions
  {
    var server := s.redemptions[x].server;
    if server in s.locks && s.locks[server] == x then s.(locks := s.locks - {server}) else s
  }

  function Next(s: State, a: Action): State
    requires Enabled(s, a)
  {
    match a
    case Check(x, token, hostname, key) =>
      var r := Redemption(token, s.tokens[token].server, hostname, key, s.clients, |s.log|, Checked);
      s.(redemptions := s.redemptions[x := r])
    case Acquire(x) => Move(s, x, Holding).(locks := s.locks[s.redemptions[x].server := x])
    case GiveUp(x) => Move(s, x, Finished)
    case Consume(x) =>
      var token := s.redemptions[x].token;
      var row := if token in s.tokens then Consumed(s.tokens[token]) else None;
      if row.Some? then Move(s, x, Using(row.value)) else Move(s, x, Finished)
    case Admit(x) =>
      var r := s.redemptions[x];
      Move(s, x, Admitted(r.phase.row, Candidate(s, r).value))
    case Commit(x, id) =>
      var p := s.redemptions[x].phase;
      Move(s, x, Finished)
        .(tokens := s.tokens[s.redemptions[x].token := p.row],
          clients := s.clients[id := p.client],
          log := s.log + [p.client])
    case Rollback(x) => Move(s, x, Finished)
    case Release(x) => Unlock(s, x)
    case Die(x) => Unlock(Move(s, x, Finished), x)
    case Mint(id, row) => s.(tokens := s.tokens[id := row], minted := s.minted + {id})
    case Revoke(id) => s.(tokens := s.tokens[id := RevokedRow(s.tokens[id], s.now)])
    case Sweep(retention) =>
      s.(tokens := map id | id in s.tokens && !Dead(s.tokens[id], s.now - retention) :: s.tokens[id])
    case Delete(id) => s.(clients := s.clients - {id})
    case Tick(to) => s.(now := to)
  }

  // ---------------------------------------------------------------------------
  // Properties
  // ---------------------------------------------------------------------------

  /** Two rows of one hub with the same address or the same key, once these are set. */
  predicate Collides(a: Client, b: Client) {
    && a.server == b.server
    && ((a.address == b.address && a.address != 0) || (a.key == b.key && a.key != ""))
  }

  /** Clients of one hub never share an address or a key, and names are unique everywhere. */
  predicate Distinct(clients: Clients) {
    forall c, d :: c in clients && d in clients && c != d ==>
      clients[c].name != clients[d].name && !Collides(clients[c], clients[d])
  }

  /** A usable host address of the hub: never the network, broadcast or server address. */
  predicate GoodAddress(hub: Hub, a: nat) {
    && Valid(hub.network)
    && hub.network.base < a < Broadcast(hub.network)
    && a != hub.serverIp
  }

  /** Every row a redemption ever committed has a usable address of its hub. */
  predicate Placed(hubs: map<nat, Hub>, log: seq<Client>) {
    forall i :: 0 <= i < |log| ==> log[i].server in hubs && GoodAddress(hubs[log[i].server], log[i].address)
  }

  function CountVia(log: seq<Client>, token: nat): nat {
    if log == [] then 0
    else CountVia(log[..|log| - 1], token) + if log[|log| - 1].via == token then 1 else 0
  }

  /** Every use of a token is a client row committed through it, and none exceeds the cap. */
  predicate Conserved(s: State) {
    forall t :: t in s.tokens ==>
      s.tokens[t].useCount == CountVia(s.log, t) <= s.tokens[t].maxUses
  }

  // ---------------------------------------------------------------------------
  // Invariant
  // ---------------------------------------------------------------------------

  /** `view` shows every committed client of the hub. */
  predicate SeesHub(view: Clients, clients: Clients, server: nat) {
    forall c :: c in clients && clients[c].server == server ==> c in view && view[c] == clients[c]
  }

  /** A pending row fits beside the committed ones. */
  predicate Fits(clients: Clients, row: Client) {
    forall c :: c in clients ==> clients[c].name != row.name && !Collides(clients[c], row)
  }

  /** A locked token row is the committed one with one more use. */
  predicate RowOk(s: State, x: nat)
    requires x in s.redemptions
  {
    var r := s.redemptions[x];
    && (r.phase.HasRow() ==>
          r.token in s.tokens && Consumed(s.tokens[r.token]) == Some(r.phase.row))
    && (r.phase.Admitted? ==> r.phase.client.via == r.token)
  }

  /** What the advisory lock and the reads under it give a redemption. */
  predicate HubOk(s: State, x: nat)
    requires x in s.redemptions
  {
    var r := s.redemptions[x];
    && r.server in s.hubs
    && (r.phase.HasLock() ==> r.server in s.locks && s.locks[r.server] == x)
    && (r.phase.Holding? || r.phase.Using? ==> SeesHub(View(s, r), s.clients, r.server))
    && (r.phase.Admitted? ==>
          && r.phase.client.server == r.server
          && GoodAddress(s.hubs[r.server], r.phase.client.address)
          && Fits(s.clients, r.phase.client))
  }

  /** Two redemptions never have the same row locked or the same name pending. */
  predicate Apart(s: State, x: nat, y: nat)
    requires x in s.redemptions && y in s.redemptions
  {
    var r, q := s.redemptions[x], s.redemptions[y];
    && (r.phase.HasRow() && q.phase.HasRow() ==> r.token != q.token)
    && (r.phase.Admitted? && q.phase.Admitted? ==> r.phase.client.name != q.phase.client.name)
  }

  predicate TablesOk(s: State) {
    && (forall h :: h in s.hubs ==> Valid(s.hubs[h].network))
    && Distinct(s.clients)
    && Placed(s.hubs, s.log)
  }

  predicate TokensOk(s: State) {
    && Conserved(s)
    && s.tokens.Keys <= s.minted
    && (forall i :: 0 <= i < |s.log| ==> s.log[i].via in s.minted)
  }

  /** What every step keeps at any isolation level. */
  ghost predicate RowInv(s: State) {
    && TokensOk(s)
    && (forall x :: x in s.redemptions ==> RowOk(s, x))
    && (forall x, y :: x in s.redemptions && y in s.redemptions && x != y ==> Apart(s, x, y))
  }

  ghost predicate Inv(s: State) {
    && RowInv(s)
    && TablesOk(s)
    && (forall x :: x in s.redemptions ==> HubOk(s, x))
  }

  /** Nothing is in flight and the token accounts are straight, whatever was enrolled before. */
  predicate Quiet(s: State) {
    TokensOk(s) && s.redemptions == map[] && s.locks == map[]
  }

  /** A quiet state in which, besides, clients are distinct. */
  predicate Init(s: State) {
    Quiet(s) && TablesOk(s)
  }

  lemma InitInv(s: State)
    requires Init(s)
    ensures Inv(s)
  {
  }

  // ---------------------------------------------------------------------------
  // Steps: token rows, at any isolation level
  // ---------------------------------------------------------------------------

  /** The redemption an action moves, if any. */
  function Mover(a: Action): Option<nat> {
    if a.Mint? || a.Revoke? || a.Sweep? || a.Delete? || a.Tick? then None else Some(a.x)
  }

  lemma OthersStay(s: State, a: Action)
    requires Enabled(s, a)
    ensures Next(s, a).isolation == s.isolation && Next(s, a).hubs == s.hubs
    ensures forall y :: y in Next(s, a).redemptions && Mover(a) != Some(y) ==>
      y in s.redemptions && Next(s, a).redemptions[y] == s.redemptions[y]
  {
  }

  /** While a redemption has a token's row locked, nobody else changes the row. */
  lemma RowLockShieldsToken(s: State, a: Action, y: nat)
    requires RowInv(s) && Enabled(s, a) && y in s.redemptions && Mover(a) != Some(y)
    requires s.redemptions[y].phase.HasRow()
    ensures var token := s.redemptions[y].token;
      token in s.tokens && token in Next(s, a).tokens && Next(s, a).tokens[token] == s.tokens[token]
  {
    assert RowOk(s, y);
    if a.Commit? {
      assert Apart(s, a.x, y);
    }
  }

  lemma MoverRowOk(s: State, a: Action, x: nat)
    requires RowInv(s) && Enabled(s, a) && Mover(a) == Some(x)
    ensures x in Next(s, a).redemptions && RowOk(Next(s, a), x)
  {
    assert x in s.redemptions ==> RowOk(s, x);
  }

  lemma MoverTokenApart(s: State, a: Action, x: nat, y: nat)
    requires RowInv(s) && Enabled(s, a) && Mover(a) == Some(x)
    requires y in s.redemptions && x != y && x in Next(s, a).redemptions
    requires Next(s, a).redemptions[x].phase.HasRow() && s.redemptions[y].phase.HasRow()
    ensures Next(s, a).redemptions[x].token != s.redemptions[y].token
  {
    if x in s.redemptions {
      assert Apart(s, x, y);
    }
  }

  lemma MoverNameApart(s: State, a: Action, x: nat, y: nat)
    requires RowInv(s) && Enabled(s, a) && Mover(a) == Some(x)
    requires y in s.redemptions && x != y && x in Next(s, a).redemptions
    requires Next(s, a).redemptions[x].phase.Admitted? && s.redemptions[y].phase.Admitted?
    ensures Next(s, a).redemptions[x].phase.client.name != s.redemptions[y].phase.client.name
  {
    if x in s.redemptions {
      assert Apart(s, x, y);
    }
  }

  lemma MoverApart(s: State, s': State, a: Action, x: nat, y: nat)
    requires RowInv(s) && Enabled(s, a) && Mover(a) == Some(x) && s' == Next(s, a)
    requires y in s.redemptions && x != y && x in s'.redemptions && y in s'.redemptions
    requires s'.redemptions[y] == s.redemptions[y]
    ensures Apart(s', x, y) && Apart(s', y, x)
  {
    if s'.redemptions[x].phase.HasRow() && s.redemptions[y].phase.HasRow() { MoverTokenApart(s, a, x, y); }
    if s'.redemptions[x].phase.Admitted? && s.redemptions[y].phase.Admitted? { MoverNameApart(s, a, x, y); }
  }

  lemma CountSnoc(log: seq<Client>, c: Client, t: nat)
    ensures CountVia(log + [c], t) == CountVia(log, t) + if c.via == t then 1 else 0
  {
    assert (log + [c])[..|log|] == log;
  }

  lemma {:induction false} CountNone(log: seq<Client>, t: nat)
    requires forall i :: 0 <= i < |log| ==> log[i].via != t
    ensures CountVia(log, t) == 0
  {
    if log != [] {
      CountNone(log[..|log| - 1], t);
    }
  }

  lemma TokensStep(s: State, a: Action)
    requires RowInv(s) && Enabled(s, a)
    ensures TokensOk(Next(s, a))
  {
    if a.Commit? {
      assert RowOk(s, a.x);
      forall t { CountSnoc(s.log, s.redemptions[a.x].phase.client, t); }
    } else if a.Mint? {
      CountNone(s.log, a.id);
    }
  }

  /** Every step at every isolation level keeps the token accounts straight. */
  lemma RowStep(s: State, a: Action)
    requires RowInv(s) && Enabled(s, a)
    ensures RowInv(Next(s, a))
  {
    var s' := Next(s, a);
    TokensStep(s, a);
    OthersStay(s, a);
    forall x | x in s'.redemptions ensures RowOk(s', x) {
      if Mover(a) == Some(x) {
        MoverRowOk(s, a, x);
      } else {
        assert RowOk(s, x);
        if s.redemptions[x].phase.HasRow() { RowLockShieldsToken(s, a, x); }
      }
    }
    forall x, y | x in s'.redemptions && y in s'.redemptions && x != y ensures Apart(s', x, y) {
      if Mover(a) == Some(x) {
        MoverApart(s, s', a, x, y);
      } else if Mover(a) == Some(y) {
        MoverApart(s, s', a, y, x);
      } else {
        assert Apart(s, x, y);
      }
    }
  }

  // ---------------------------------------------------------------------------
  // Steps: addresses, keys and names
  // ---------------------------------------------------------------------------

  /**
   The assumption address uniqueness rests on: when `x` takes the lock, its reads see every
   client committed on the hub so far. READ COMMITTED grants it always.
   */
  predicate Current(s: State, x: nat)
    requires x in s.redemptions
  {
    SeesHub(View(s, s.redemptions[x]), s.clients, s.redemptions[x].server)
  }

  /** The client table only changes by one commit or one deletion. */
  lemma ClientsAfter(s: State, a: Action)
    requires Enabled(s, a)
    ensures forall c :: c in Next(s, a).clients ==>
      || (c in s.clients && Next(s, a).clients[c] == s.clients[c])
      || (a.Commit? && c == a.id && Next(s, a).clients[c] == s.redemptions[a.x].phase.client)
  {
  }

  lemma LockKept(s: State, a: Action, y: nat)
    requires Enabled(s, a) && y in s.redemptions && Mover(a) != Some(y)
    requires s.redemptions[y].server in s.locks && s.locks[s.redemptions[y].server] == y
    ensures s.redemptions[y].server in Next(s, a).locks
    ensures Next(s, a).locks[s.redemptions[y].server] == y
  {
  }

  /** While a redemption holds a hub's lock, nobody else adds a client to that hub. */
  lemma LockShieldsHub(s: State, s': State, a: Action, y: nat)
    requires Inv(s) && Enabled(s, a) && s' == Next(s, a)
    requires y in s.redemptions && Mover(a) != Some(y) && s.redemptions[y].phase.HasLock()
    ensures SeesHub(s.clients, s'.clients, s.redemptions[y].server)
  {
    ClientsAfter(s, a);
    assert HubOk(s, y);
    if a.Commit? {
      assert HubOk(s, a.x);
    }
  }

  /** A pending name keeps its place in the unique index. */
  lemma IndexShieldsName(s: State, s': State, a: Action, y: nat)
    requires Inv(s) && Enabled(s, a) && s' == Next(s, a)
    requires y in s.redemptions && Mover(a) != Some(y) && s.redemptions[y].phase.Admitted?
    ensures NameFree(s'.clients, s.redemptions[y].phase.client.name)
  {
    ClientsAfter(s, a);
    assert HubOk(s, y);
    if a.Commit? {
      assert Apart(s, a.x, y);
    }
  }

  lemma HubFrame(s: State, s': State, y: nat)
    requires y in s.redemptions && y in s'.redemptions && s'.redemptions[y] == s.redemptions[y]
    requires HubOk(s, y) && s'.isolation == s.isolation && s'.hubs == s.hubs
    requires s.redemptions[y].phase.HasLock() ==>
      && s.redemptions[y].server in s'.locks && s'.locks[s.redemptions[y].server] == y
      && SeesHub(s.clients, s'.clients, s.redemptions[y].server)
    requires s.redemptions[y].phase.Admitted? ==>
      NameFree(s'.clients, s.redemptions[y].phase.client.name)
    ensures HubOk(s', y)
  {
  }

  lemma OtherHubOk(s: State, s': State, a: Action, y: nat)
    requires Inv(s) && Enabled(s, a) && s' == Next(s, a)
    requires y in s.redemptions && Mover(a) != Some(y) && y in s'.redemptions
    ensures HubOk(s', y)
  {
    OthersStay(s, a);
    if s.redemptions[y].phase.HasLock() {
      assert HubOk(s, y);
      LockKept(s, a, y);
      LockShieldsHub(s, s', a, y);
    }
    if s.redemptions[y].phase.Admitted? { IndexShieldsName(s, s', a, y); }
    HubFrame(s, s', y);
  }

  /** A usable address of the hub that no client in `view` has there. */
  predicate AddressOpen(hub: Hub, view: Clients, server: nat, a: nat) {
    GoodAddress(hub, a) && forall c :: c in view && view[c].server == server ==> view[c].address != a
  }

  lemma OpenIff(hub: Hub, view: Clients, server: nat, a: nat)
    requires Valid(hub.network)
    ensures AddressOpen(hub, view, server, a) <==>
      hub.network.base < a < Broadcast(hub.network) && a != hub.serverIp && a !in AddressesOf(view, server)
  {
  }

  /**
   When `_admit` accepts a host, and the row it then inserts: the name and key asked for are free and an
   address is left, and the row has that name, that key, the token's hub and the lowest address left.
   */
  lemma CandidateExactly(s: State, r: Redemption)
    requires r.phase.HasRow() && r.server in s.hubs && Valid(s.hubs[r.server].network)
    ensures var view := if s.isolation.ReadCommitted? then s.clients else r.snapshot;
      var name := r.phase.row.namePrefix + "-" + r.hostname;
      var hub := s.hubs[r.server];
      var c := Candidate(s, r);
      && (c.Some? <==>
            && (forall d :: d in view ==> view[d].name != name && view[d].key != r.key)
            && exists a :: AddressOpen(hub, view, r.server, a))
      && (c.Some? ==>
            && c.value == Client(r.server, name, r.key, c.value.address, r.token)
            && AddressOpen(hub, view, r.server, c.value.address)
            && forall a :: AddressOpen(hub, view, r.server, a) ==> c.value.address <= a)
  {
    var view, hub := View(s, r), s.hubs[r.server];
    AllocateIsLeastFreeHost(hub.network, hub.serverIp, AddressesOf(view, r.server));
    forall a: nat ensures AddressOpen(hub, view, r.server, a) <==>
      hub.network.base < a < Broadcast(hub.network) && a != hub.serverIp && a !in AddressesOf(view, r.server)
    {
      OpenIff(hub, view, r.server, a);
    }
  }

  /** What allocation under the lock gives: a good address that fits. */
  lemma CandidateFits(s: State, r: Redemption)
    requires TablesOk(s) && r.phase.HasRow() && r.server in s.hubs
    requires SeesHub(View(s, r), s.clients, r.server) && Candidate(s, r).Some?
    requires NameFree(s.clients, Candidate(s, r).value.name)
    ensures GoodAddress(s.hubs[r.server], Candidate(s, r).value.address)
    ensures Fits(s.clients, Candidate(s, r).value)
    ensures Candidate(s, r).value.key == r.key
    ensures forall c :: c in s.clients && s.clients[c].server == r.server ==> s.clients[c].key != r.key
  {
    CandidateExactly(s, r);
    var hub := s.hubs[r.server];
    AllocateIsLeastFreeHost(hub.network, hub.serverIp, AddressesOf(View(s, r), r.server));
    forall c | c in s.clients && s.clients[c].server == r.server
      ensures s.clients[c].address in AddressesOf(View(s, r), r.server)
    {
      assert c in View(s, r) && View(s, r)[c] == s.clients[c];
    }
  }

  lemma MoverHubOk(s: State, a: Action, x: nat)
    requires Inv(s) && Enabled(s, a) && Mover(a) == Some(x)
    requires a.Acquire? ==> Current(s, x)
    ensures x in Next(s, a).redemptions && HubOk(Next(s, a), x)
  {
    if x in s.redemptions {
      assert HubOk(s, x);
      if a.Admit? {
        CandidateFits(s, s.redemptions[x]);
      }
    }
  }

  lemma OnlyCommitsLog(s: State, a: Action)
    requires Enabled(s, a) && !a.Commit?
    ensures Next(s, a).log == s.log
  {
  }

  lemma TablesShrink(s: State, s': State)
    requires TablesOk(s) && s'.hubs == s.hubs && s'.log == s.log
    requires forall c :: c in s'.clients ==> c in s.clients && s'.clients[c] == s.clients[c]
    ensures TablesOk(s')
  {
  }

  lemma TablesStep(s: State, a: Action)
    requires Inv(s) && Enabled(s, a)
    ensures TablesOk(Next(s, a))
  {
    if a.Commit? {
      assert HubOk(s, a.x);
    } else {
      ClientsAfter(s, a);
      OthersStay(s, a);
      OnlyCommitsLog(s, a);
      TablesShrink(s, Next(s, a));
    }
  }

  /** Every step keeps the invariant, provided the lock is only taken with current reads. */
  lemma Step(s: State, a: Action)
    requires Inv(s) && Enabled(s, a)
    requires a.Acquire? ==> Current(s, a.x)
    ensures Inv(Next(s, a))
  {
    var s' := Next(s, a);
    RowStep(s, a);
    TablesStep(s, a);
    OthersStay(s, a);
    forall x | x in s'.redemptions ensures HubOk(s', x) {
      if Mover(a) == Some(x) { MoverHubOk(s, a, x); } else { OtherHubOk(s, s', a, x); }
    }
  }
}
