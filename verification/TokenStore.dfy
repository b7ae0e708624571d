/**
 The repository and the refresh service run one call at a time: every method states the whole
 new table as one of the atomic changes that the interleaved protocol is made of.
 */
module TokenStore {
  import opened Options
  import opened RefreshTokens

  class RefreshTokenRepository {
    var rows: Table
    ghost var chains: Chains

    ghost predicate Valid()
      reads this
    {
      Chained(rows, chains)
    }

    constructor ()
      ensures Valid() && rows == map[]
    {
      rows := map[];
      chains := map[];
    }

    /** A login inserts the first token of a fresh family. */
    method Create(id: TokenId, family: FamilyId, user: UserId, expires: int)
      requires Valid() && id !in rows && forall t | t in rows :: rows[t].family != family
      modifies this
      ensures Valid() && rows == Issue(old(rows), id, family, user, expires)
      ensures LiveOf(rows, family) == {id}
    {
      ghost var before := chains - {family};
      assert Chained(rows, before);
      IssueKeepsChains(rows, before, id, family, user, expires);
      rows := Issue(rows, id, family, user, expires);
      chains := before[family := [id]];
      AtMostOneLiveOf(rows, chains, id);
    }

    method ByHash(token: TokenId) returns (stored: Option<Token>)
      ensures stored.Some? <==> token in rows
      ensures stored.Some? ==> stored.value == rows[token]
    {
      stored := if token in rows then Some(rows[token]) else None;
    }

    /** The transaction works on its own copy; returning before the end rolls it back. */
    method Rotate(presented: TokenId, next: TokenId, family: FamilyId, user: UserId, expires: int)
      returns (rotated: bool)
      requires Valid() && next !in rows && next != presented
      requires presented in rows ==> rows[presented].family == family && rows[presented].user == user
      modifies this
      ensures Valid()
      ensures rotated <==> presented in old(rows) && !old(rows)[presented].revoked
      ensures rows == if rotated then Rotation(old(rows), presented, next, expires) else old(rows)
      ensures rotated ==> LiveOf(rows, family) == {next}
    {
      var tx := rows;
      tx := Issue(tx, next, family, user, expires);
      if presented !in tx || tx[presented].revoked {
        return false;
      }
      AtMostOneLiveOf(rows, chains, presented);
      RotationKeepsChains(rows, chains, presented, next, expires);
      tx := tx[presented := tx[presented].(revoked := true, replacedBy := Some(next))];
      rows := tx;
      chains := chains[family := chains[family] + [next]];
      AtMostOneLiveOf(rows, chains, next);
      rotated := true;
    }

    method RevokeFamily(family: FamilyId) returns (revoked: nat)
      requires Valid()
      modifies this
      ensures Valid() && rows == Revocation(old(rows), LiveOf(old(rows), family))
      ensures LiveOf(rows, family) == {} && revoked == |LiveOf(old(rows), family)|
    {
      var live := LiveOf(rows, family);
      RevocationKeepsChains(rows, chains, live);
      rows := Revocation(rows, live);
      revoked := |live|;
    }
  }

  lemma AtMostOneLiveOf(rows: Table, chains: Chains, id: TokenId)
    requires Chained(rows, chains) && id in rows && !rows[id].revoked
    ensures LiveOf(rows, rows[id].family) == {id}
  {
    forall other | other in LiveOf(rows, rows[id].family)
      ensures other == id
    {
      AtMostOneLive(rows, chains, id, other);
    }
  }

  // ---------------------------------------------------------------- the service

  datatype Answer = Renewed(next: TokenId) | Rejected

  class Auth {
    const tokens: RefreshTokenRepository
    const refreshTTL: int

    constructor (tokens: RefreshTokenRepository, refreshTTL: int)
      ensures this.tokens == tokens && this.refreshTTL == refreshTTL
    {
      this.tokens := tokens;
      this.refreshTTL := refreshTTL;
    }

    /**
     A live, unexpired token of a known user is exchanged for its only live successor. A revoked
     token kills its family, even when it has also expired. Anything else changes nothing.
     */
    method Refresh(token: TokenId, now: int, knownUsers: set<UserId>, next: TokenId) returns (answer: Answer)
      requires tokens.Valid() && next !in tokens.rows && next != token
      modifies tokens
      ensures tokens.Valid()
      ensures answer.Renewed? <==> token in old(tokens.rows) && var t := old(tokens.rows)[token];
                                   !t.revoked && now < t.expires && t.user in knownUsers
      ensures answer.Renewed? ==>
                && answer.next == next
                && tokens.rows == Rotation(old(tokens.rows), token, next, now + refreshTTL)
                && LiveOf(tokens.rows, old(tokens.rows)[token].family) == {next}
      ensures answer.Rejected? ==>
                if token in old(tokens.rows) && old(tokens.rows)[token].revoked
                then var family := old(tokens.rows)[token].family;
                     && tokens.rows == Revocation(old(tokens.rows), LiveOf(old(tokens.rows), family))
                     && LiveOf(tokens.rows, family) == {}
                else tokens.rows == old(tokens.rows)
    {
      var found := tokens.ByHash(token);
      if found.None? {
        return Rejected;
      }
      answer := Exchange(token, found.value, now, knownUsers, next);
    }

    /**
     The rest of `Refresh`, from the row it read. By now that row may have been revoked by another
     call; then the rotation fails and the family is revoked as well.
     */
    method Exchange(token: TokenId, stored: Token, now: int, knownUsers: set<UserId>, next: TokenId)
      returns (answer: Answer)
      requires tokens.Valid() && next !in tokens.rows && next != token && token in tokens.rows
      requires var t := tokens.rows[token];
               t.family == stored.family && t.user == stored.user && t.expires == stored.expires
               && (stored.revoked ==> t.revoked)
      modifies tokens
      ensures tokens.Valid()
      ensures var usable := now < stored.expires && stored.user in knownUsers;
              && (answer.Renewed? <==> usable && !old(tokens.rows)[token].revoked)
              && (answer.Renewed? ==>
                    && answer.next == next && LiveOf(tokens.rows, stored.family) == {next}
                    && tokens.rows == Rotation(old(tokens.rows), token, next, now + refreshTTL))
              && (answer.Rejected? ==>
                    tokens.rows == if stored.revoked || usable
                                   then Revocation(old(tokens.rows), LiveOf(old(tokens.rows), stored.family))
                                   else old(tokens.rows))
              && (answer.Rejected? && (stored.revoked || usable) ==> LiveOf(tokens.rows, stored.family) == {})
    {
      if stored.revoked {
        RevokeCompromisedFamily(stored);
        return Rejected;
      }
      if !(now < stored.expires) || stored.user !in knownUsers {
        return Rejected;
      }
      var rotated := tokens.Rotate(token, next, stored.family, stored.user, now + refreshTTL);
      if !rotated {
        RevokeCompromisedFamily(stored);
        return Rejected;
      }
      return Renewed(next);
    }

    method RevokeCompromisedFamily(token: Token)
      requires tokens.Valid()
      modifies tokens
      ensures tokens.Valid() && tokens.rows == Revocation(old(tokens.rows), LiveOf(old(tokens.rows), token.family))
      ensures LiveOf(tokens.rows, token.family) == {}
    {
      var _ := tokens.RevokeFamily(token.family);
    }

    method Logout(token: TokenId)
      requires tokens.Valid()
      modifies tokens
      ensures tokens.Valid()
      ensures token !in old(tokens.rows) ==> tokens.rows == old(tokens.rows)
      ensures token in old(tokens.rows) ==>
                var family := old(tokens.rows)[token].family;
                && tokens.rows == Revocation(old(tokens.rows), LiveOf(old(tokens.rows), family))
                && LiveOf(tokens.rows, family) == {}
    {
      var found := tokens.ByHash(token);
      if found.Some? {
        var _ := tokens.RevokeFamily(found.value.family);
      }
    }

    /** Presenting a token twice buys one session; the replay takes that session away again. */
    method RefreshTwice(token: TokenId, now: int, knownUsers: set<UserId>, next: TokenId, other: TokenId)
      returns (first: Answer, second: Answer)
      requires tokens.Valid() && next !in tokens.rows && other !in tokens.rows && token !in {next, other}
               && next != other
      modifies tokens
      ensures tokens.Valid() && second.Rejected?
      ensures first.Renewed? ==> token in old(tokens.rows) && LiveOf(tokens.rows, old(tokens.rows)[token].family) == {}
    {
      first := Refresh(token, now, knownUsers, next);
      second := Refresh(token, now, knownUsers, other);
    }
  }
}
