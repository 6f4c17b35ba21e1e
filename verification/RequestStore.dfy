/** The `account_deletion_requests` table: email-link tokens and audit rows in one. */
module RequestStore {
  import opened Wrappers
  import opened Text

  datatype Source = EmailLink | InProduct
  datatype Status = Pending | Revoked | Consumed | Completed | Failed

  /** A digest, taken as injective: two digests are equal when the digested texts are. */
  datatype Digest = Sha256(text: string) | Anonymous

  function HashEmail(email: string): Digest {
    Sha256(Lower(Trim(email)))
  }

  /** Two addresses are one exactly when they are equal but for the case of letters and white space around them. */
  lemma SameAddress(a: string, b: string)
    ensures HashEmail(a) == HashEmail(b) <==>
              && |Trim(a)| == |Trim(b)|
              && forall i :: 0 <= i < |Trim(a)| ==> LowerChar(Trim(a)[i]) == LowerChar(Trim(b)[i])
  {
    if HashEmail(a) == HashEmail(b) {
      assert forall i :: 0 <= i < |Trim(a)| ==> Lower(Trim(a))[i] == Lower(Trim(b))[i];
    }
  }

  datatype Row = Row(
    source: Source, emailHash: Digest, tokenHash: Option<Digest>, userId: Option<string>, status: Status,
    expiresAt: Option<int>, consumedAt: Option<int>, completedAt: Option<int>, failureCode: Option<string>,
    createdAt: int)

  /** What `update` may change; None leaves a column alone. */
  datatype Patch = Patch(
    status: Option<Status>, userId: Option<Option<string>>, completedAt: Option<int>, failureCode: Option<string>)

  // ------------------------------------------------------------ the statements, on the rows

  predicate IssuedSince(row: Row, emailHash: Digest, since: int) {
    row.emailHash == emailHash && row.source == EmailLink && row.createdAt >= since
  }

  function CountIssued(rows: seq<Row>, emailHash: Digest, since: int): nat {
    if rows == [] then 0
    else
      CountIssued(rows[..|rows| - 1], emailHash, since)
      + if IssuedSince(rows[|rows| - 1], emailHash, since) then 1 else 0
  }

  /** The links of an address created at this moment or later. */
  ghost function LinksSince(rows: seq<Row>, emailHash: Digest, since: int): set<nat> {
    set k: nat | k < |rows| && rows[k].source == EmailLink && rows[k].emailHash == emailHash
                 && rows[k].createdAt >= since
  }

  lemma LinksSnoc(rows: seq<Row>, n: nat, emailHash: Digest, since: int)
    requires n < |rows|
    ensures var last := if IssuedSince(rows[n], emailHash, since) then {n} else {};
            LinksSince(rows[..n + 1], emailHash, since) == LinksSince(rows[..n], emailHash, since) + last
    ensures n !in LinksSince(rows[..n], emailHash, since)
  {
  }

  /** The count is of the links of the address, each once. */
  lemma {:induction false} CountIsOfLinks(rows: seq<Row>, n: nat, emailHash: Digest, since: int)
    requires n <= |rows|
    ensures CountIssued(rows[..n], emailHash, since) == |LinksSince(rows[..n], emailHash, since)|
  {
    if n == 0 {
      assert LinksSince(rows[..0], emailHash, since) == {};
    } else {
      CountIsOfLinks(rows, n - 1, emailHash, since);
      assert rows[..n][..n - 1] == rows[..n - 1];
      LinksSnoc(rows, n - 1, emailHash, since);
    }
  }

  predicate PendingFor(row: Row, emailHash: Digest) {
    row.emailHash == emailHash && row.status == Pending
  }

  function RevokePendingRows(rows: seq<Row>, emailHash: Digest): seq<Row> {
    seq(|rows|, i requires 0 <= i < |rows| =>
      if PendingFor(rows[i], emailHash) then rows[i].(status := Revoked) else rows[i])
  }

  predicate Claimable(row: Row, tokenHash: Digest, now: int) {
    row.tokenHash == Some(tokenHash) && row.status == Pending && row.expiresAt.Some? && row.expiresAt.value > now
  }

  function ClaimRows(rows: seq<Row>, tokenHash: Digest, now: int): seq<Row> {
    seq(|rows|, i requires 0 <= i < |rows| =>
      if Claimable(rows[i], tokenHash, now) then rows[i].(status := Consumed, consumedAt := Some(now)) else rows[i])
  }

  function Apply(row: Row, patch: Patch): Row {
    row.(status := if patch.status.Some? then patch.status.value else row.status,
         userId := if patch.userId.Some? then patch.userId.value else row.userId,
         completedAt := if patch.completedAt.Some? then patch.completedAt else row.completedAt,
         failureCode := if patch.failureCode.Some? then patch.failureCode else row.failureCode)
  }

  function UpdateRows(rows: seq<Row>, id: nat, patch: Patch): seq<Row> {
    if id < |rows| then rows[id := Apply(rows[id], patch)] else rows
  }

  function RevokeUserRows(rows: seq<Row>, userId: string): seq<Row> {
    seq(|rows|, i requires 0 <= i < |rows| =>
      if rows[i].userId == Some(userId) && rows[i].status == Pending then rows[i].(status := Revoked) else rows[i])
  }

  function ForgetUserRows(rows: seq<Row>, userId: string): seq<Row> {
    seq(|rows|, i requires 0 <= i < |rows| =>
      if rows[i].userId == Some(userId) then rows[i].(userId := None) else rows[i])
  }

  /** The unique index on `tokenHash`. */
  ghost predicate UniqueTokens(rows: seq<Row>) {
    forall i, j :: 0 <= i < j < |rows| && rows[i].tokenHash.Some? ==> rows[i].tokenHash != rows[j].tokenHash
  }

  predicate TokenTaken(rows: seq<Row>, tokenHash: Option<Digest>) {
    tokenHash.Some? && exists i :: 0 <= i < |rows| && rows[i].tokenHash == tokenHash
  }

  /** Index of the row with this token, if any. */
  function FindToken(rows: seq<Row>, tokenHash: Digest): (found: Option<nat>)
    ensures found.Some? ==> found.value < |rows| && rows[found.value].tokenHash == Some(tokenHash)
    ensures found.None? ==> forall i :: 0 <= i < |rows| ==> rows[i].tokenHash != Some(tokenHash)
  {
    if rows == [] then None
    else if rows[|rows| - 1].tokenHash == Some(tokenHash) then Some(|rows| - 1)
    else FindToken(rows[..|rows| - 1], tokenHash)
  }

  // ------------------------------------------------------------ the store

  /** The store. Row ids are positions: rows are only ever appended. */
  class Store {
    var rows: seq<Row>

    constructor ()
      ensures rows == []
    {
      rows := [];
    }

    method CountIssuedSince(emailHash: Digest, since: int) returns (n: nat)
      ensures n == CountIssued(rows, emailHash, since) == |LinksSince(rows, emailHash, since)|
    {
      n := CountIssued(rows, emailHash, since);
      CountIsOfLinks(rows, |rows|, emailHash, since);
      assert rows[..|rows|] == rows;
    }

    /** Revokes the pending links of one address; every other row, of that address or another, stays as it was. */
    method RevokePending(emailHash: Digest)
      modifies this
      ensures rows == RevokePendingRows(old(rows), emailHash)
      ensures |rows| == |old(rows)|
      ensures forall i :: 0 <= i < |rows| && old(rows)[i].emailHash == emailHash && old(rows)[i].status == Pending ==>
                rows[i] == old(rows)[i].(status := Revoked)
      ensures forall i :: 0 <= i < |rows| && (old(rows)[i].emailHash != emailHash || old(rows)[i].status != Pending) ==>
                rows[i] == old(rows)[i]
    {
      rows := RevokePendingRows(rows, emailHash);
    }

    /** Saves a row; the unique index refuses a token that is already there. */
    method Insert(row: Row) returns (id: Option<nat>)
      requires UniqueTokens(rows)
      modifies this
      ensures UniqueTokens(rows)
      ensures id.None? <==> TokenTaken(old(rows), row.tokenHash)
      ensures id.None? ==> rows == old(rows)
      ensures id.Some? ==> id.value == |old(rows)| && rows == old(rows) + [row]
    {
      if TokenTaken(rows, row.tokenHash) {
        return None;
      }
      id := Some(|rows|);
      rows := rows + [row];
    }

    method FindByTokenHash(tokenHash: Digest) returns (found: Option<nat>)
      ensures found == FindToken(rows, tokenHash)
    {
      found := FindToken(rows, tokenHash);
    }

    /** One conditional UPDATE: true for the caller whose statement matched a row. */
    method Claim(tokenHash: Digest, now: int) returns (won: bool)
      requires UniqueTokens(rows)
      modifies this
      ensures UniqueTokens(rows)
      ensures rows == ClaimRows(old(rows), tokenHash, now)
      ensures won <==> exists i :: 0 <= i < |old(rows)| && Claimable(old(rows)[i], tokenHash, now)
      ensures forall i :: 0 <= i < |rows| ==> !Claimable(rows[i], tokenHash, now)
      ensures |rows| == |old(rows)|
      ensures forall i :: 0 <= i < |rows| && rows[i] != old(rows)[i] ==>
                && old(rows)[i].tokenHash == Some(tokenHash) && old(rows)[i].status == Pending
                && old(rows)[i].expiresAt.Some? && now < old(rows)[i].expiresAt.value
                && rows[i] == old(rows)[i].(status := Consumed, consumedAt := Some(now))
    {
      var found := FindToken(rows, tokenHash);
      won := found.Some? && Claimable(rows[found.value], tokenHash, now);
      rows := ClaimRows(rows, tokenHash, now);
    }

    /** Changes the columns the patch names, of one row. */
    method Update(id: nat, patch: Patch)
      modifies this
      ensures rows == UpdateRows(old(rows), id, patch)
      ensures |rows| == |old(rows)| && forall i :: 0 <= i < |rows| && i != id ==> rows[i] == old(rows)[i]
      ensures id < |rows| ==>
                && (patch.status.Some? ==> rows[id].status == patch.status.value)
                && (patch.userId.Some? ==> rows[id].userId == patch.userId.value)
                && (patch.completedAt.Some? ==> rows[id].completedAt == patch.completedAt)
                && (patch.failureCode.Some? ==> rows[id].failureCode == patch.failureCode)
      ensures id < |rows| ==>
                && (patch.status.None? ==> rows[id].status == old(rows)[id].status)
                && (patch.userId.None? ==> rows[id].userId == old(rows)[id].userId)
                && (patch.completedAt.None? ==> rows[id].completedAt == old(rows)[id].completedAt)
                && (patch.failureCode.None? ==> rows[id].failureCode == old(rows)[id].failureCode)
    {
      rows := UpdateRows(rows, id, patch);
    }

    /** First statement of `clearUser`. */
    method RevokeUser(userId: string)
      modifies this
      ensures rows == RevokeUserRows(old(rows), userId)
      ensures |rows| == |old(rows)|
      ensures forall i :: 0 <= i < |rows| && old(rows)[i].userId == Some(userId) && old(rows)[i].status == Pending ==>
                rows[i] == old(rows)[i].(status := Revoked)
      ensures forall i :: 0 <= i < |rows| && (old(rows)[i].userId != Some(userId) || old(rows)[i].status != Pending) ==>
                rows[i] == old(rows)[i]
    {
      rows := RevokeUserRows(rows, userId);
    }

    method ClearUser(userId: string)
      modifies this
      ensures rows == ForgetUserRows(RevokeUserRows(old(rows), userId), userId)
      ensures forall i :: 0 <= i < |rows| ==> rows[i].userId != Some(userId)
      ensures |rows| == |old(rows)|
      ensures forall i :: 0 <= i < |rows| ==>
                rows[i] ==
                if old(rows)[i].userId != Some(userId) then old(rows)[i]
                else old(rows)[i].(userId := None,
                                   status := if old(rows)[i].status == Pending then Revoked else old(rows)[i].status)
    {
      RevokeUser(userId);
      rows := ForgetUserRows(rows, userId);
    }
  }
}
