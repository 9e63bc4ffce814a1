/** The backup file of a whole family. Rows point at each other by refs that mean something only
    inside the file. */
module FamilyArchive {
  import opened Basics
  import opened LedgerHistory

  const ARCHIVE_FORMAT := "rewardpointsweb.family"
  const ARCHIVE_VERSION := 2
  const SUPPORTED_ARCHIVE_VERSIONS := {1, ARCHIVE_VERSION}

  datatype Role = Owner | Parent | Child | Display {
    predicate IsGuardian() { Owner? || Parent? }
    predicate CanAdministerFamily() { Owner? }
    predicate IsDisplay() { Display? }
    predicate HasOwnLedger() { Child? }
  }

  datatype ArchivedTransaction = ArchivedTransaction(
    ref: string,
    amount: int,
    reason: string,
    occurredAt: int,
    grantedBy: Option<string>,
    reverses: Option<string>,
    corrects: Option<string>)

  datatype ArchivedDailyBonus = ArchivedDailyBonus(
    amount: int,
    reason: string,
    startsOn: int,
    grantedThrough: Option<int>)

  datatype ArchivedLedger = ArchivedLedger(
    transactions: seq<ArchivedTransaction>,
    dailyBonus: Option<ArchivedDailyBonus>)

  datatype ArchivedMember = ArchivedMember(
    ref: string,
    displayName: string,
    role: Role,
    ledger: Option<ArchivedLedger>)

  datatype Archive = Archive(
    format: string,
    version: int,
    exportedAt: int,
    familyName: string,
    familyRules: Option<string>,
    members: seq<ArchivedMember>)

  function MoveOf(entry: ArchivedTransaction): Move<string> {
    Move(entry.ref, entry.amount, entry.reverses, entry.corrects)
  }

  function Moves(entries: seq<ArchivedTransaction>): seq<Move<string>> {
    seq(|entries|, i requires 0 <= i < |entries| => MoveOf(entries[i]))
  }

  function RefsOf(members: seq<ArchivedMember>): seq<string> {
    seq(|members|, i requires 0 <= i < |members| => members[i].ref)
  }

  /** The members that may stand in a `grantedBy` column. */
  function Recorders(members: seq<ArchivedMember>): set<string> {
    set i | 0 <= i < |members| && members[i].role.IsGuardian() :: members[i].ref
  }

  function Administers(): ArchivedMember -> bool { (m: ArchivedMember) => m.role.CanAdministerFamily() }

  /** Owner and parents may have recorded a row, nobody else may. */
  lemma RecordersAreOwnerAndParents(members: seq<ArchivedMember>, ref: string)
    ensures ref in Recorders(members) <==>
              exists i :: 0 <= i < |members| && members[i].ref == ref && (members[i].role == Owner || members[i].role == Parent)
  {
  }
}
