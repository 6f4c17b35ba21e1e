/** What a deletion leaves in the table of requests: an audit row, and nothing that names the account. */
module DeletionAudit {
  import opened Wrappers
  import opened RequestStore

  datatype Trigger = FromTheProduct | FromALink(requestId: nat)

  /** How far the two statements that forget the account came. */
  datatype Clearing = NothingCleared | LinksRevoked | AllCleared

  /** The address and clock readings a deletion writes down, and what the table lets it write. */
  datatype Audit = Audit(email: Option<string>, startedAt: int, completedAt: int, insertedAt: int, written: bool,
                         clearing: Clearing)

  /** The digest of the address; an account without one is anonymous. */
  function AuditHash(email: Option<string>): Digest {
    if email.None? || email.value == "" then Anonymous else HashEmail(email.value)
  }

  function FailureRow(audit: Audit, code: string): Row {
    Row(InProduct, AuditHash(audit.email), None, None, Failed, None, None, None, Some(code), audit.insertedAt)
  }

  function CompletionRow(audit: Audit): Row {
    Row(InProduct, AuditHash(audit.email), None, None, Completed, None, Some(audit.startedAt),
        Some(audit.completedAt), None, audit.insertedAt)
  }

  function FailurePatch(code: string): Patch {
    Patch(Some(Failed), None, None, Some(code))
  }

  function CompletionPatch(audit: Audit): Patch {
    Patch(Some(Completed), Some(None), Some(audit.completedAt), None)
  }

  /** The rows after a failed deletion; an error while writing is dropped. */
  function FailureRecorded(rows: seq<Row>, trigger: Trigger, audit: Audit, code: string): seq<Row> {
    if !audit.written then rows
    else match trigger
      case FromTheProduct => rows + [FailureRow(audit, code)]
      case FromALink(id) => UpdateRows(rows, id, FailurePatch(code))
  }

  function CompletionRecorded(rows: seq<Row>, trigger: Trigger, audit: Audit): seq<Row> {
    if !audit.written then rows
    else match trigger
      case FromTheProduct => rows + [CompletionRow(audit)]
      case FromALink(id) => UpdateRows(rows, id, CompletionPatch(audit))
  }

  function Forgotten(rows: seq<Row>, userId: string, clearing: Clearing): seq<Row> {
    match clearing
    case NothingCleared => rows
    case LinksRevoked => RevokeUserRows(rows, userId)
    case AllCleared => ForgetUserRows(RevokeUserRows(rows, userId), userId)
  }

  /** The rows after a completed deletion. */
  function Closed(rows: seq<Row>, userId: string, trigger: Trigger, audit: Audit): seq<Row> {
    Forgotten(CompletionRecorded(rows, trigger, audit), userId, audit.clearing)
  }

  /** A link that names the account and may still be claimed. */
  predicate OpenLinkOf(row: Row, userId: string) {
    row.userId == Some(userId) && row.status == Pending
  }

  /**
   * After a completed deletion no row names the account if and only if both statements went through or no row named it
   * before, but the one the deletion was asked for by, whose own record forgets it.
   */
  lemma NoRowNamesTheAccount(rows: seq<Row>, userId: string, trigger: Trigger, audit: Audit)
    ensures (forall row :: row in Closed(rows, userId, trigger, audit) ==> row.userId != Some(userId)) <==>
              audit.clearing.AllCleared?
              || forall i :: 0 <= i < |rows| && rows[i].userId == Some(userId) ==>
                   audit.written && trigger == FromALink(i)
  {
    var recorded := CompletionRecorded(rows, trigger, audit);
    RecordedNames(rows, userId, trigger, audit);
    ForgottenNames(recorded, userId, audit.clearing);
  }

  lemma RecordedNames(rows: seq<Row>, userId: string, trigger: Trigger, audit: Audit)
    ensures (forall row :: row in CompletionRecorded(rows, trigger, audit) ==> row.userId != Some(userId)) <==>
              forall i :: 0 <= i < |rows| && rows[i].userId == Some(userId) ==> audit.written && trigger == FromALink(i)
  {
    var recorded := CompletionRecorded(rows, trigger, audit);
    assert forall i :: 0 <= i < |rows| ==>
      recorded[i].userId == if audit.written && trigger == FromALink(i) then None else rows[i].userId;
    assert forall row :: row in recorded <==> exists i :: 0 <= i < |recorded| && recorded[i] == row;
  }

  lemma ForgottenNames(rows: seq<Row>, userId: string, clearing: Clearing)
    ensures (forall row :: row in Forgotten(rows, userId, clearing) ==> row.userId != Some(userId)) <==>
              clearing.AllCleared? || forall row :: row in rows ==> row.userId != Some(userId)
  {
    var after := Forgotten(rows, userId, clearing);
    assert |after| == |rows|;
    assert forall i :: 0 <= i < |rows| ==>
      after[i].userId == if clearing.AllCleared? && rows[i].userId == Some(userId) then None else rows[i].userId;
  }

  /**
   * A deletion closes the account's links and nobody else's: once the first statement went through none of them can be
   * claimed, a link that can be could be before, other people's rows are as they were, and the tokens stay one each.
   */
  lemma NoLinkIsLeftOpen(rows: seq<Row>, userId: string, trigger: Trigger, audit: Audit)
    requires UniqueTokens(rows)
    ensures var after := Closed(rows, userId, trigger, audit);
            && UniqueTokens(after)
            && (!audit.clearing.NothingCleared? ==> forall row :: row in after ==> !OpenLinkOf(row, userId))
            && (forall i, tokenHash, now :: 0 <= i < |rows| && i < |after| && Claimable(after[i], tokenHash, now) ==>
                  after[i].userId == rows[i].userId && Claimable(rows[i], tokenHash, now))
            && (forall i :: 0 <= i < |rows| && rows[i].userId != Some(userId) && trigger != FromALink(i) ==>
                  i < |after| && after[i] == rows[i])
  {
    var after := Closed(rows, userId, trigger, audit);
    assert |after| >= |rows|;
    assert forall i :: 0 <= i < |rows| ==> after[i].tokenHash == rows[i].tokenHash;
    assert forall i :: |rows| <= i < |after| ==> after[i].tokenHash == None;
    assert forall i :: 0 <= i < |rows| && after[i].status == Pending ==>
      rows[i].status == Pending && after[i].expiresAt == rows[i].expiresAt;
  }

  /** Every row but at most this one is as it was. */
  ghost predicate OthersAreAsTheyWere(before: seq<Row>, after: seq<Row>, id: nat) {
    |after| >= |before| && forall i :: 0 <= i < |before| && i != id ==> after[i] == before[i]
  }

  /** What a deletion asked for in the product writes down: one more row, which names nobody and holds no token. */
  ghost predicate NewRecord(before: seq<Row>, after: seq<Row>, status: Status, code: Option<string>, audit: Audit) {
    && |after| == |before| + 1
    && var row := after[|before|];
       && row.status == status && row.failureCode == code && row.source == InProduct
       && row.userId == None && row.tokenHash == None && row.expiresAt == None && row.createdAt == audit.insertedAt
       && (row.emailHash == if audit.email.Some? && audit.email.value != "" then HashEmail(audit.email.value)
                            else Anonymous)
       && (row.completedAt == if status == Completed then Some(audit.completedAt) else None)
  }

  /** A failure is on record with its code, when the table lets it be written; nothing else has changed. */
  lemma FailureIsOnRecord(rows: seq<Row>, trigger: Trigger, audit: Audit, code: string)
    ensures var after := FailureRecorded(rows, trigger, audit, code);
            && (!audit.written ==> after == rows)
            && (audit.written && trigger.FromTheProduct? ==>
                  NewRecord(rows, after, Failed, Some(code), audit) && OthersAreAsTheyWere(rows, after, |rows|))
            && (audit.written && trigger.FromALink? ==>
                  && |after| == |rows| && OthersAreAsTheyWere(rows, after, trigger.requestId)
                  && (trigger.requestId < |rows| ==>
                        after[trigger.requestId] ==
                        rows[trigger.requestId].(status := Failed, failureCode := Some(code))))
  {
    assert audit.written && trigger.FromTheProduct? ==>
      FailureRecorded(rows, trigger, audit, code)[|rows|] == FailureRow(audit, code);
  }

  /** A completed deletion is on record as that, when the table lets it be written, however far the clean-up came. */
  lemma CompletionIsOnRecord(rows: seq<Row>, userId: string, trigger: Trigger, audit: Audit)
    ensures var after := Closed(rows, userId, trigger, audit);
            && (!audit.written ==> |after| == |rows|)
            && (audit.written && trigger.FromTheProduct? ==>
                  NewRecord(rows, after, Completed, None, audit)
                  && after[|rows|].consumedAt == Some(audit.startedAt))
            && (audit.written && trigger.FromALink? ==>
                  && |after| == |rows|
                  && (trigger.requestId < |rows| ==>
                        after[trigger.requestId] ==
                        rows[trigger.requestId].(status := Completed, userId := None,
                                                 completedAt := Some(audit.completedAt))))
  {
    var recorded := CompletionRecorded(rows, trigger, audit);
    assert forall i :: 0 <= i < |recorded| && recorded[i].userId == None ==>
      Forgotten(recorded, userId, audit.clearing)[i] == recorded[i];
  }
}
