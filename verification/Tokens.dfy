/** Enrollment tokens: their derived status, and the guarded changes of a token row. */
module Tokens {
  import opened Common

  /** Times are instants on one clock; `server` is the hub the token enrolls hosts into. */
  datatype Token = Token(
    server: nat,
    namePrefix: string,
    maxUses: int,
    useCount: int,
    expiresAt: int,
    revokedAt: Option<int>)

  datatype Status = Active | Revoked | Expired | Exhausted

  predicate IsExpired(row: Token, now: int) {
    row.expiresAt <= now
  }

  function TokenStatus(row: Token, now: int): Status {
    if row.revokedAt.Some? then Revoked
    else if IsExpired(row, now) then Expired
    else if row.useCount >= row.maxUses then Exhausted
    else Active
  }

  /** The SQL condition list queries use for active tokens. */
  predicate ActiveFilter(row: Token, now: int) {
    && row.revokedAt.None?
    && row.expiresAt > now
    && row.useCount < row.maxUses
  }

  lemma FilterAgreesWithStatus(row: Token, now: int)
    ensures ActiveFilter(row, now) <==> TokenStatus(row, now) == Active
    ensures TokenStatus(row, now) == Expired <==> row.revokedAt.None? && row.expiresAt <= now
    ensures TokenStatus(row, now) == Exhausted <==>
      row.revokedAt.None? && row.expiresAt > now && row.useCount >= row.maxUses
  {
  }

  /** The row after `consume_token`, or None when its guard fails. Expiry is not re-checked. */
  function Consumed(row: Token): Option<Token> {
    if row.useCount < row.maxUses && row.revokedAt.None?
    then Some(row.(useCount := row.useCount + 1))
    else None
  }

  function RevokedRow(row: Token, now: int): Token {
    if row.revokedAt.Some? then row else row.(revokedAt := Some(now))
  }

  /** The sweep's condition: dead for longer than the retention. A NULL compares as false. */
  predicate Dead(row: Token, cutoff: int) {
    row.expiresAt < cutoff || (row.revokedAt.Some? && row.revokedAt.value < cutoff)
  }

  /** One token row changes only by one consume or one revoke. */
  predicate Evolves(row: Token, row': Token) {
    || row' == row
    || Consumed(row) == Some(row')
    || (row.revokedAt.None? && row'.revokedAt.Some? && row' == RevokedRow(row, row'.revokedAt.value))
  }

  /** A row that is not active stays that way as it evolves and time passes. */
  lemma InactiveForGood(row: Token, row': Token, now: int, later: int)
    requires Evolves(row, row') && now <= later && TokenStatus(row, now) != Active
    ensures TokenStatus(row', later) != Active
  {
  }

  /**
   What the sweep deletes, in the row's own fields: expired or revoked more than the retention ago. Such a
   token could never be redeemed again.
   */
  lemma DeadIsInactive(row: Token, retention: nat, now: int)
    ensures Dead(row, now - retention) <==>
      || row.expiresAt + retention < now
      || (row.revokedAt.Some? && row.revokedAt.value + retention < now)
    ensures Dead(row, now - retention) ==> (IsExpired(row, now) || row.revokedAt.Some?) && !ActiveFilter(row, now)
  {
  }

  ghost predicate Ascending(ids: seq<nat>) {
    forall i, j :: 0 <= i < j < |ids| ==> ids[i] < ids[j]
  }

  /** The token table, updated in place inside a caller's transaction. */
  class TokenTable {
    var rows: map<nat, Token>

    constructor (rows: map<nat, Token>)
      ensures this.rows == rows
    {
      this.rows := rows;
    }

    /** One guarded UPDATE; false when no row matched. */
    method Consume(id: nat) returns (taken: bool)
      modifies this
      ensures taken <==> id in old(rows) && Consumed(old(rows)[id]).Some?
      ensures rows == if taken then old(rows)[id := Consumed(old(rows)[id]).value] else old(rows)
    {
      taken := id in rows && rows[id].useCount < rows[id].maxUses && rows[id].revokedAt.None?;
      if taken {
        rows := rows[id := rows[id].(useCount := rows[id].useCount + 1)];
      }
    }

    /** Mark a row revoked unless it already is. */
    method Revoke(id: nat, now: int) returns (revoked: bool)
      requires id in rows
      modifies this
      ensures revoked <==> old(rows)[id].revokedAt.None?
      ensures rows == old(rows)[id := RevokedRow(old(rows)[id], now)]
    {
      if rows[id].revokedAt.Some? {
        return false;
      }
      rows := rows[id := rows[id].(revokedAt := Some(now))];
      revoked := true;
    }

    /** Delete the tokens dead for longer than `retention`; report their ids in order. */
    method DeleteDead(retention: nat, now: int) returns (ids: seq<nat>)
      modifies this
      ensures Ascending(ids)
      ensures forall id :: id in ids <==>
        && id in old(rows)
        && (|| old(rows)[id].expiresAt + retention < now
            || (old(rows)[id].revokedAt.Some? && old(rows)[id].revokedAt.value + retention < now))
      ensures rows == map id | id in old(rows) && id !in ids :: old(rows)[id]
    {
      var dead := set id | id in rows && Dead(rows[id], now - retention);
      ids := [];
      var left := dead;
      while left != {}
        invariant rows == old(rows) && left <= dead
        invariant forall id :: id in dead <==> id in ids || id in left
        invariant forall i, id :: 0 <= i < |ids| && id in left ==> ids[i] < id
        invariant Ascending(ids)
        decreases left
      {
        var least := Least(left);
        ids := ids + [least];
        left := left - {least};
      }
      rows := map id | id in rows && id !in ids :: rows[id];
    }
  }
}
