/**
 The refresh-token table and the four ways in which committed rows change: a session starts a
 family, a rotation replaces a token, a family is revoked, a set of rows is revoked.

 Token and family ids stand for the uuids. Hashing is injective, so a raw token is named by the
 id of the row it belongs to. `revoked_at` is kept as a flag.
 */
module RefreshTokens {
  import opened Options

  type TokenId = int
  type FamilyId = int
  type UserId = int

  datatype Token = Token(family: FamilyId, user: UserId, expires: int, revoked: bool, replacedBy: Option<TokenId>)

  type Table = map<TokenId, Token>

  /** Tokens of each family in the order in which rotation made them, the token of the login first. */
  type Chains = map<FamilyId, seq<TokenId>>

  // ---------------------------------------------------------------- committed changes

  function Issue(rows: Table, id: TokenId, family: FamilyId, user: UserId, expires: int): Table {
    rows[id := Token(family, user, expires, false, None)]
  }

  function Rotation(rows: Table, presented: TokenId, next: TokenId, expires: int): Table
    requires presented in rows
  {
    var stored := rows[presented];
    Issue(rows, next, stored.family, stored.user, expires)
      [presented := stored.(revoked := true, replacedBy := Some(next))]
  }

  function Revocation(rows: Table, ids: set<TokenId>): Table {
    map id | id in rows :: if id in ids then rows[id].(revoked := true) else rows[id]
  }

  function LiveOf(rows: Table, family: FamilyId): set<TokenId> {
    set id | id in rows && rows[id].family == family && !rows[id].revoked
  }

  function LiveOfUser(rows: Table, user: UserId): set<TokenId> {
    set id | id in rows && rows[id].user == user && !rows[id].revoked
  }

  ghost predicate FamilyDead(rows: Table, family: FamilyId) {
    forall id | id in rows && rows[id].family == family :: rows[id].revoked
  }

  ghost predicate UserDead(rows: Table, user: UserId) {
    forall id | id in rows && rows[id].user == user :: rows[id].revoked
  }

  lemma DeadHasNoLive(rows: Table, family: FamilyId)
    ensures FamilyDead(rows, family) <==> LiveOf(rows, family) == {}
  {
    if id :| id in rows && rows[id].family == family && !rows[id].revoked {
      assert id in LiveOf(rows, family);
    } else {
      assert forall id :: id !in LiveOf(rows, family);
    }
  }

  lemma RevocationKeepsDead(rows: Table, ids: set<TokenId>, family: FamilyId)
    requires FamilyDead(rows, family)
    ensures FamilyDead(Revocation(rows, ids), family)
  {
  }

  lemma RotationKeepsDead(rows: Table, presented: TokenId, next: TokenId, expires: int, family: FamilyId)
    requires FamilyDead(rows, family) && presented in rows && !rows[presented].revoked
    ensures FamilyDead(Rotation(rows, presented, next, expires), family)
  {
  }

  // ---------------------------------------------------------------- the family invariant

  /**
   `chain` lists every token of the family, each once, linked by `replacedBy`; only the last may be
   live, and all belong to one user.
   */
  ghost predicate IsChain(rows: Table, family: FamilyId, chain: seq<TokenId>) {
    && |chain| > 0
    && (forall i | 0 <= i < |chain| :: chain[i] in rows && rows[chain[i]].family == family)
    && (forall i | 0 <= i < |chain| :: rows[chain[i]].user == rows[chain[0]].user)
    && (forall i, j | 0 <= i < j < |chain| :: chain[i] != chain[j])
    && (forall id | id in rows && rows[id].family == family :: id in chain)
    && (forall i | 0 <= i < |chain| - 1 :: rows[chain[i]].revoked && rows[chain[i]].replacedBy == Some(chain[i + 1]))
    && rows[chain[|chain| - 1]].replacedBy == None
  }

  ghost predicate Chained(rows: Table, chains: Chains) {
    && (forall id | id in rows :: rows[id].family in chains)
    && (forall f | f in chains :: IsChain(rows, f, chains[f]))
  }

  /** At most one token of a family is live, and it is the last of the chain. */
  lemma AtMostOneLive(rows: Table, chains: Chains, a: TokenId, b: TokenId)
    requires Chained(rows, chains)
    requires a in rows && b in rows && rows[a].family == rows[b].family
    requires !rows[a].revoked && !rows[b].revoked
    ensures a == b
    ensures a == chains[rows[a].family][|chains[rows[a].family]| - 1] && rows[a].replacedBy == None
  {
    var chain := chains[rows[a].family];
    assert IsChain(rows, rows[a].family, chain);
    var i :| 0 <= i < |chain| && chain[i] == a;
    var j :| 0 <= j < |chain| && chain[j] == b;
  }

  /** Where following `replacedBy` for `n` hops leads. */
  function Follow(rows: Table, id: TokenId, n: nat): (r: Option<TokenId>)
    decreases n
  {
    if n == 0 then Some(id)
    else if id in rows && rows[id].replacedBy.Some? then Follow(rows, rows[id].replacedBy.value, n - 1)
    else None
  }

  /**
   Following `replacedBy` from the token of the login walks the chain, visits every token of the
   family, ends at the last one and never comes back: the links are acyclic.
   */
  lemma {:induction false} FollowWalksTheChain(rows: Table, family: FamilyId, chain: seq<TokenId>, start: nat, n: nat)
    requires IsChain(rows, family, chain) && start < |chain|
    ensures Follow(rows, chain[start], n) == if start + n < |chain| then Some(chain[start + n]) else None
    decreases n
  {
    if n > 0 {
      if start + 1 < |chain| {
        FollowWalksTheChain(rows, family, chain, start + 1, n - 1);
      }
    }
  }

  lemma NoTokenIsItsOwnSuccessor(rows: Table, chains: Chains, id: TokenId, n: nat)
    requires Chained(rows, chains) && id in rows && n > 0
    ensures Follow(rows, id, n) != Some(id)
  {
    var chain := chains[rows[id].family];
    assert IsChain(rows, rows[id].family, chain);
    var i :| 0 <= i < |chain| && chain[i] == id;
    FollowWalksTheChain(rows, rows[id].family, chain, i, n);
  }

  // ---------------------------------------------------------------- each change keeps the chains

  lemma IssueKeepsChains(rows: Table, chains: Chains, id: TokenId, family: FamilyId, user: UserId, expires: int)
    requires Chained(rows, chains) && id !in rows && family !in chains
    ensures Chained(Issue(rows, id, family, user, expires), chains[family := [id]])
  {
    var rows' := Issue(rows, id, family, user, expires);
    var chains' := chains[family := [id]];
    forall f | f in chains'
      ensures IsChain(rows', f, chains'[f])
    {
      if f == family { NewChain(rows, id, family, user, expires); } else { assert IsChain(rows, f, chains[f]); }
    }
  }

  lemma NewChain(rows: Table, id: TokenId, family: FamilyId, user: UserId, expires: int)
    requires forall x | x in rows :: rows[x].family != family
    ensures IsChain(Issue(rows, id, family, user, expires), family, [id])
  {
  }

  lemma RevocationKeepsChains(rows: Table, chains: Chains, ids: set<TokenId>)
    requires Chained(rows, chains)
    ensures Chained(Revocation(rows, ids), chains)
  {
    forall f | f in chains
      ensures IsChain(Revocation(rows, ids), f, chains[f])
    {
      RevocationKeepsChain(rows, f, chains[f], ids);
    }
  }

  lemma RevocationKeepsChain(rows: Table, family: FamilyId, chain: seq<TokenId>, ids: set<TokenId>)
    requires IsChain(rows, family, chain)
    ensures IsChain(Revocation(rows, ids), family, chain)
  {
  }

  lemma RotationExtendsItsChain(rows: Table, presented: TokenId, next: TokenId, expires: int, chain: seq<TokenId>)
    requires presented in rows && next !in rows && IsChain(rows, rows[presented].family, chain)
    requires presented == chain[|chain| - 1]
    ensures IsChain(Rotation(rows, presented, next, expires), rows[presented].family, chain + [next])
  {
    var family := rows[presented].family;
    var rows' := Rotation(rows, presented, next, expires);
    var chain' := chain + [next];
    assert forall i | 0 <= i < |chain| - 1 :: chain[i] != presented;
    assert forall i | 0 <= i < |chain| - 1 :: rows'[chain[i]] == rows[chain[i]];
    forall i | 0 <= i < |chain'| - 1
      ensures rows'[chain'[i]].revoked && rows'[chain'[i]].replacedBy == Some(chain'[i + 1])
    {
      if i < |chain| - 1 { assert rows[chain[i]].replacedBy == Some(chain[i + 1]); }
    }
    forall id | id in rows' && rows'[id].family == family
      ensures id in chain'
    {
      if id == next { assert chain'[|chain|] == next; } else { assert id in chain; }
    }
  }

  lemma RotationLeavesOtherChains(rows: Table, presented: TokenId, next: TokenId, expires: int,
                                  family: FamilyId, chain: seq<TokenId>)
    requires presented in rows && next !in rows && IsChain(rows, family, chain)
    requires family != rows[presented].family
    ensures IsChain(Rotation(rows, presented, next, expires), family, chain)
  {
    var rows' := Rotation(rows, presented, next, expires);
    forall i | 0 <= i < |chain|
      ensures chain[i] in rows' && rows'[chain[i]] == rows[chain[i]]
    {
      assert rows[chain[i]].family == family;
    }
  }

  lemma RotationKeepsChains(rows: Table, chains: Chains, presented: TokenId, next: TokenId, expires: int)
    requires Chained(rows, chains) && presented in rows && !rows[presented].revoked && next !in rows
    ensures var f := rows[presented].family;
            Chained(Rotation(rows, presented, next, expires), chains[f := chains[f] + [next]])
  {
    var family := rows[presented].family;
    AtMostOneLive(rows, chains, presented, presented);
    RotationExtendsItsChain(rows, presented, next, expires, chains[family]);
    forall f | f in chains && f != family
      ensures IsChain(Rotation(rows, presented, next, expires), f, chains[f])
    {
      RotationLeavesOtherChains(rows, presented, next, expires, f, chains[f]);
    }
  }
}
