/** Making a family again from a backup file, one append after the other. */
module ArchiveRestore {
  import opened Basics
  import opened LedgerHistory
  import opened FamilyArchive
  import opened PointTransactions
  import opened Texts
  import opened Memberships
  import opened LedgerUseCases
  import opened FamilyStore
  import opened ArchiveRules
  import opened ArchiveWriter

  const IMPORT_KEY_PREFIX := "import-"
  const REF_MAX_LENGTH := 32
  const MAX_ARCHIVED_MEMBERS := 100
  const MAX_ARCHIVED_TRANSACTIONS := 20_000

  datatype RestoreError =
    | NotImportable(cause: ImportError)
    | AlreadyBelongsToFamily
    | InvalidText
    | InvalidBonus
    | UnknownRef
    | RowRefused(refusal: AppendError)

  // ---------------------------------------------------------------- the document's field checks

  predicate RefCharacter(c: char) {
    'A' <= c <= 'Z' || 'a' <= c <= 'z' || '0' <= c <= '9' || c == '_' || c == '-'
  }

  predicate RefShape(ref: string) {
    1 <= |ref| <= REF_MAX_LENGTH && forall c :: c in ref ==> RefCharacter(c)
  }

  predicate LinkShape(link: Option<string>) { link.Some? ==> RefShape(link.value) }

  predicate EntryShape(e: ArchivedTransaction) {
    && RefShape(e.ref) && ValidAmount(e.amount) && ValidReason(e.reason)
    && LinkShape(e.grantedBy) && LinkShape(e.reverses) && LinkShape(e.corrects)
  }

  predicate BonusShape(b: ArchivedDailyBonus) {
    1 <= b.amount <= MAX_MAGNITUDE && ValidReason(b.reason)
  }

  predicate LedgerShape(l: ArchivedLedger) {
    && (forall i :: 0 <= i < |l.transactions| ==> EntryShape(l.transactions[i]))
    && (l.dailyBonus.Some? ==> BonusShape(l.dailyBonus.value))
  }

  predicate MemberShape(m: ArchivedMember) {
    && RefShape(m.ref) && ValidText(m.displayName, DISPLAY_NAME_MAX_LENGTH)
    && (m.ledger.Some? ==> LedgerShape(m.ledger.value))
  }

  /** Every field of the file has an acceptable value. */
  predicate DocumentShape(a: Archive) {
    && ValidText(a.familyName, FAMILY_NAME_MAX_LENGTH)
    && (a.familyRules.Some? ==> |a.familyRules.value| <= FAMILY_RULES_MAX_LENGTH)
    && (forall i :: 0 <= i < |a.members| ==> MemberShape(a.members[i]))
  }

  function TransactionCount(members: seq<ArchivedMember>): nat {
    if members == [] then 0
    else
      var last := members[|members| - 1];
      TransactionCount(members[..|members| - 1]) + (if last.ledger.Some? then |last.ledger.value.transactions| else 0)
  }

  /** The caps are put on the whole file, not on each ledger. */
  predicate WithinCaps(a: Archive) {
    |a.members| <= MAX_ARCHIVED_MEMBERS && TransactionCount(a.members) <= MAX_ARCHIVED_TRANSACTIONS
  }

  predicate DocumentAccepts(a: Archive) { DocumentShape(a) && WithinCaps(a) }

  // ---------------------------------------------------------------- restoring

  function NormalRules(rules: Option<string>): Option<string> {
    if rules.None? || Blank(rules.value) then None else rules
  }

  function AddFamily(s: Store, name: string, rules: Option<string>): Result<Family, RestoreError> {
    if !ValidText(name, FAMILY_NAME_MAX_LENGTH) then Err(InvalidText)
    else if NormalRules(rules).Some? && |rules.value| > FAMILY_RULES_MAX_LENGTH then Err(InvalidText)
    else Ok(Family(s.nextFamily, name, NormalRules(rules)))
  }

  /** Only the owner's seat is taken by the account that imports. */
  function AccountFor(m: ArchivedMember, accountId: nat): Option<nat> {
    if m.role.CanAdministerFamily() then Some(accountId) else None
  }

  datatype MemberTable = MemberTable(rows: seq<Membership>, next: nat)

  function RestoreMember(t: MemberTable, familyId: nat, accountId: nat,
                         m: ArchivedMember): Result<MemberTable, RestoreError> {
    if !ValidText(m.displayName, DISPLAY_NAME_MAX_LENGTH) then Err(InvalidText)
    else Ok(MemberTable(t.rows + [NewMember(t.rows, t.next, familyId, AccountFor(m, accountId), m.role, m.displayName)], t.next + 1))
  }

  /** The members table after the first n members have been added in the order of the file. */
  function RestoreMembers(t: MemberTable, familyId: nat, accountId: nat, members: seq<ArchivedMember>,
                          n: nat): Result<MemberTable, RestoreError>
    requires n <= |members|
  {
    if n == 0 then Ok(t)
    else
      match RestoreMembers(t, familyId, accountId, members, n - 1)
      case Err(e) => Err(e)
      case Ok(u) => RestoreMember(u, familyId, accountId, members[n - 1])
  }

  /** The dictionary from refs to the ids of the members made from them, in the order of the file. */
  function MemberIds(members: seq<ArchivedMember>, first: nat): map<string, nat> {
    if members == [] then map[]
    else MemberIds(members[..|members| - 1], first)[members[|members| - 1].ref := first + |members| - 1]
  }

  /** A link is followed only when it is there and not the empty text. */
  function Resolve(link: Option<string>, ids: map<string, nat>): Result<Option<nat>, RestoreError> {
    if link.None? || link.value == "" then Ok(None)
    else if link.value in ids then Ok(Some(ids[link.value]))
    else Err(UnknownRef)
  }

  datatype Replay = Replay(table: Table, ids: map<string, nat>)

  function ReplayEntry(r: Replay, e: ArchivedTransaction, ledgerId: nat,
                       memberIds: map<string, nat>): Result<Replay, RestoreError> {
    match Resolve(e.grantedBy, memberIds)
    case Err(x) => Err(x)
    case Ok(grantedBy) =>
      match Resolve(e.reverses, r.ids)
      case Err(x) => Err(x)
      case Ok(reversalOf) =>
        match Resolve(e.corrects, r.ids)
        case Err(x) => Err(x)
        case Ok(corrects) =>
          var n := NewTransaction(ledgerId, e.amount, e.reason, grantedBy, e.occurredAt,
                                  IMPORT_KEY_PREFIX + e.ref, reversalOf, corrects);
          match PointTransactions.Written(r.table.rows, r.table.next, n)
          case Err(x) => Err(RowRefused(x))
          case Ok(done) => Ok(Replay(Table(done.rows, done.next), r.ids[e.ref := done.row.id]))
  }

  /** The first n entries appended in the order of the file. */
  function AppendHistory(t: Table, entries: seq<ArchivedTransaction>, n: nat, ledgerId: nat,
                         memberIds: map<string, nat>): Result<Replay, RestoreError>
    requires n <= |entries|
  {
    if n == 0 then Ok(Replay(t, map[]))
    else
      match AppendHistory(t, entries, n - 1, ledgerId, memberIds)
      case Err(x) => Err(x)
      case Ok(r) => ReplayEntry(r, entries[n - 1], ledgerId, memberIds)
  }

  function RestoreBonus(bonuses: map<nat, DailyBonus>, bonus: Option<ArchivedDailyBonus>,
                        ledgerId: nat): Result<map<nat, DailyBonus>, RestoreError> {
    if bonus.None? then Ok(bonuses)
    else
      var b := bonus.value;
      if !ValidAmount(b.amount) || !ValidReason(b.reason) || b.amount <= 0 then Err(InvalidBonus)
      else Ok(bonuses[ledgerId := DailyBonus(b.amount, b.reason, b.startsOn, b.grantedThrough)])
  }

  /** The tables that restoring a ledger writes. */
  datatype LedgerTables = LedgerTables(ledgers: seq<Ledger>, next: nat, table: Table, bonuses: map<nat, DailyBonus>)

  function RestoreLedger(t: LedgerTables, familyId: nat, m: ArchivedMember,
                         memberIds: map<string, nat>): Result<LedgerTables, RestoreError> {
    if m.ledger.None? then Ok(t)
    else if m.ref !in memberIds then Err(UnknownRef)
    else
      var entries := m.ledger.value.transactions;
      match AppendHistory(t.table, entries, |entries|, t.next, memberIds)
      case Err(x) => Err(x)
      case Ok(r) =>
        match RestoreBonus(t.bonuses, m.ledger.value.dailyBonus, t.next)
        case Err(x) => Err(x)
        case Ok(bonuses) =>
          Ok(LedgerTables(t.ledgers + [Ledger(t.next, familyId, memberIds[m.ref])], t.next + 1, r.table, bonuses))
  }

  function RestoreLedgers(t: LedgerTables, familyId: nat, members: seq<ArchivedMember>, n: nat,
                          memberIds: map<string, nat>): Result<LedgerTables, RestoreError>
    requires n <= |members|
  {
    if n == 0 then Ok(t)
    else
      match RestoreLedgers(t, familyId, members, n - 1, memberIds)
      case Err(x) => Err(x)
      case Ok(u) => RestoreLedger(u, familyId, members[n - 1], memberIds)
  }

  /** What the check before the import answers. */
  ghost function Checked(a: Archive): Result<(), ImportError> {
    if a.format != ARCHIVE_FORMAT then Err(InvalidFamilyArchive)
    else if a.version !in SUPPORTED_ARCHIVE_VERSIONS then Err(UnsupportedArchiveVersion)
    else if !SoundFamily(a.members) then Err(InvalidFamilyArchive)
    else Ok(())
  }

  function MembersOf(s: Store): MemberTable { MemberTable(s.members, s.nextMember) }

  function LedgersIn(s: Store): LedgerTables { LedgerTables(s.ledgers, s.nextLedger, Table(s.rows, s.nextRow), s.bonuses) }

  /** The store once the parts written by an import are in place. */
  function Assembled(s: Store, family: Family, members: MemberTable, ledgers: LedgerTables): Store {
    Store(s.families + [family], s.nextFamily + 1, members.rows, members.next,
          ledgers.ledgers, ledgers.next, ledgers.table.rows, ledgers.table.next, ledgers.bonuses)
  }

  /** The whole import: the store with the new family in it, whose id is the old store's next one. */
  ghost function Restore(s: Store, accountId: nat, a: Archive): Result<Store, RestoreError> {
    match Checked(a)
    case Err(x) => Err(NotImportable(x))
    case Ok(_) =>
      if ListForAccount(s.members, accountId) != [] then Err(AlreadyBelongsToFamily)
      else
        match AddFamily(s, a.familyName, a.familyRules)
        case Err(x) => Err(x)
        case Ok(family) =>
          match RestoreMembers(MembersOf(s), s.nextFamily, accountId, a.members, |a.members|)
          case Err(x) => Err(x)
          case Ok(members) =>
            match RestoreLedgers(LedgersIn(s), s.nextFamily, a.members, |a.members|, MemberIds(a.members, s.nextMember))
            case Err(x) => Err(x)
            case Ok(ledgers) => Ok(Assembled(s, family, members, ledgers))
  }

  // ---------------------------------------------------------------- one ledger's rows

  function RefsOfEntries(entries: seq<ArchivedTransaction>): seq<string> {
    seq(|entries|, i requires 0 <= i < |entries| => entries[i].ref)
  }

  /** Where a ref first stands; the length of the list when it is not there. */
  function IndexOf(refs: seq<string>, ref: string): (i: nat)
    ensures i <= |refs|
    ensures i < |refs| ==> refs[i] == ref
    ensures i == |refs| ==> ref !in refs
  {
    if refs == [] then 0 else if refs[0] == ref then 0 else 1 + IndexOf(refs[1..], ref)
  }

  lemma {:induction false} IndexOfDistinct(refs: seq<string>, k: nat)
    requires Distinct(refs) && k < |refs|
    ensures IndexOf(refs, refs[k]) == k
  {
  }

  function LinkTo(entries: seq<ArchivedTransaction>, first: nat, link: Option<string>): Option<nat> {
    if link.None? then None else Some(first + IndexOf(RefsOfEntries(entries), link.value))
  }

  function RecorderId(memberIds: map<string, nat>, link: Option<string>): Option<nat> {
    if link.Some? && link.value in memberIds then Some(memberIds[link.value]) else None
  }

  /** The row made from entry i when the first entry becomes row `first`. */
  function RestoredRow(entries: seq<ArchivedTransaction>, i: nat, ledgerId: nat, first: nat,
                       memberIds: map<string, nat>): Transaction
    requires i < |entries|
  {
    var e := entries[i];
    Transaction(first + i, ledgerId, e.amount, e.reason, RecorderId(memberIds, e.grantedBy), e.occurredAt,
                IMPORT_KEY_PREFIX + e.ref, LinkTo(entries, first, e.reverses), LinkTo(entries, first, e.corrects))
  }

  function RestoredRows(entries: seq<ArchivedTransaction>, n: nat, ledgerId: nat, first: nat,
                        memberIds: map<string, nat>): seq<Transaction>
    requires n <= |entries|
  {
    seq(n, i requires 0 <= i < n => RestoredRow(entries, i, ledgerId, first, memberIds))
  }

  function EntryIds(entries: seq<ArchivedTransaction>, n: nat, first: nat): map<string, nat>
    requires n <= |entries|
  {
    if n == 0 then map[] else EntryIds(entries, n - 1, first)[entries[n - 1].ref := first + n - 1]
  }

  lemma {:induction false} EntryIdAt(entries: seq<ArchivedTransaction>, n: nat, first: nat, j: nat)
    requires Distinct(RefsOfEntries(entries)) && j < n <= |entries|
    ensures entries[j].ref in EntryIds(entries, n, first) && EntryIds(entries, n, first)[entries[j].ref] == first + j
    ensures IndexOf(RefsOfEntries(entries), entries[j].ref) == j
  {
    IndexOfDistinct(RefsOfEntries(entries), j);
    if j < n - 1 {
      EntryIdAt(entries, n - 1, first, j);
      assert RefsOfEntries(entries)[j] != RefsOfEntries(entries)[n - 1];
    }
  }

  /** A history that can be replayed: it passed the checker, its fields are acceptable, and its
      recorders are members that have been made. */
  ghost predicate Replayable(entries: seq<ArchivedTransaction>, memberIds: map<string, nat>) {
    && Consistent(Moves(entries))
    && (forall i :: 0 <= i < |entries| ==> EntryShape(entries[i]))
    && (forall i :: 0 <= i < |entries| && entries[i].grantedBy.Some? ==> entries[i].grantedBy.value in memberIds)
  }

  lemma ReplayableRefsDistinct(entries: seq<ArchivedTransaction>)
    requires Consistent(Moves(entries))
    ensures Distinct(RefsOfEntries(entries))
  {
    ConsistentIsWellPaired(Moves(entries));
    forall i, j | 0 <= i < j < |entries| ensures RefsOfEntries(entries)[i] != RefsOfEntries(entries)[j] {
      assert Moves(entries)[i].key != Moves(entries)[j].key;
    }
  }

  /** A link of entry n leads to an entry before it, whose row already has its id. */
  lemma LinkIsResolved(entries: seq<ArchivedTransaction>, n: nat, first: nat, link: Option<string>)
    requires Consistent(Moves(entries)) && (forall i :: 0 <= i < |entries| ==> EntryShape(entries[i]))
    requires n < |entries| && (link == entries[n].reverses || link == entries[n].corrects)
    ensures Resolve(link, EntryIds(entries, n, first)) == Ok(LinkTo(entries, first, link))
    ensures link.Some? ==> exists j :: 0 <= j < n && entries[j].ref == link.value && LinkTo(entries, first, link) == Some(first + j)
  {
    if link.Some? {
      ReplayableRefsDistinct(entries);
      var h := Moves(entries);
      assert Writable(h, n);
      assert EntryShape(entries[n]);
      var j :| 0 <= j < n && h[j].key == link.value;
      EntryIdAt(entries, n, first, j);
    }
  }

  lemma RecorderIsResolved(link: Option<string>, memberIds: map<string, nat>)
    requires LinkShape(link) && (link.Some? ==> link.value in memberIds)
    ensures Resolve(link, memberIds) == Ok(RecorderId(memberIds, link))
  {
  }

  lemma ImportKeyIsValid(ref: string)
    requires RefShape(ref)
    ensures ValidKey(IMPORT_KEY_PREFIX + ref)
  {
    assert (IMPORT_KEY_PREFIX + ref)[0] == 'i' && 'i' in IMPORT_KEY_PREFIX + ref;
  }

  lemma ImportKeysDiffer(a: string, b: string)
    requires a != b
    ensures IMPORT_KEY_PREFIX + a != IMPORT_KEY_PREFIX + b
  {
    assert (IMPORT_KEY_PREFIX + a)[|IMPORT_KEY_PREFIX|..] == a;
    assert (IMPORT_KEY_PREFIX + b)[|IMPORT_KEY_PREFIX|..] == b;
  }

  /** The table while a history is replayed: old rows of other ledgers, then the rows made so far. */
  ghost predicate Replaying(before: seq<Transaction>, first: nat, rows: seq<Transaction>, entries: seq<ArchivedTransaction>,
                            n: nat, ledgerId: nat, memberIds: map<string, nat>) {
    && n <= |entries|
    && ValidTable(before, first)
    && (forall i :: 0 <= i < |before| ==> before[i].ledgerId != ledgerId)
    && rows == before + RestoredRows(entries, n, ledgerId, first, memberIds)
  }

  lemma RowDuringReplay(before: seq<Transaction>, first: nat, rows: seq<Transaction>, entries: seq<ArchivedTransaction>,
                        n: nat, ledgerId: nat, memberIds: map<string, nat>, i: nat)
    requires Replaying(before, first, rows, entries, n, ledgerId, memberIds) && i < |rows|
    ensures i < |before| ==> rows[i] == before[i]
    ensures i >= |before| ==> i - |before| < n && rows[i] == RestoredRow(entries, i - |before|, ledgerId, first, memberIds)
  {
  }

  lemma KeyIsFree(before: seq<Transaction>, first: nat, rows: seq<Transaction>, entries: seq<ArchivedTransaction>,
                  n: nat, ledgerId: nat, memberIds: map<string, nat>)
    requires Replaying(before, first, rows, entries, n, ledgerId, memberIds) && n < |entries|
    requires Distinct(RefsOfEntries(entries))
    ensures !KeyTaken(rows, ledgerId, IMPORT_KEY_PREFIX + entries[n].ref)
  {
    forall i | 0 <= i < |rows| ensures rows[i].ledgerId != ledgerId || rows[i].key != IMPORT_KEY_PREFIX + entries[n].ref {
      RowDuringReplay(before, first, rows, entries, n, ledgerId, memberIds, i);
      if i >= |before| {
        var k := i - |before|;
        assert RefsOfEntries(entries)[k] != RefsOfEntries(entries)[n];
        ImportKeysDiffer(entries[k].ref, entries[n].ref);
      }
    }
  }

  lemma TargetIsThere(before: seq<Transaction>, first: nat, rows: seq<Transaction>, entries: seq<ArchivedTransaction>,
                      n: nat, ledgerId: nat, memberIds: map<string, nat>, j: nat)
    requires Replaying(before, first, rows, entries, n, ledgerId, memberIds) && j < n
    ensures Exists(rows, first + j)
  {
    RowDuringReplay(before, first, rows, entries, n, ledgerId, memberIds, |before| + j);
    assert rows[|before| + j].id == first + j;
  }

  lemma ReversalIsFree(before: seq<Transaction>, first: nat, rows: seq<Transaction>, entries: seq<ArchivedTransaction>,
                       n: nat, ledgerId: nat, memberIds: map<string, nat>, j: nat)
    requires Replaying(before, first, rows, entries, n, ledgerId, memberIds) && j < n < |entries|
    requires Consistent(Moves(entries)) && entries[n].reverses == Some(entries[j].ref)
    requires forall i :: 0 <= i < |entries| ==> EntryShape(entries[i])
    ensures !ReversalTaken(rows, first + j)
  {
    ReplayableRefsDistinct(entries);
    assert Writable(Moves(entries), n);
    forall i | 0 <= i < |rows| ensures rows[i].reversalOf != Some(first + j) {
      RowDuringReplay(before, first, rows, entries, n, ledgerId, memberIds, i);
      if i >= |before| && entries[i - |before|].reverses.Some? {
        var k := i - |before|;
        assert Moves(entries)[k].reverses != Moves(entries)[n].reverses;
        LinkIsResolved(entries, k, first, entries[k].reverses);
      }
    }
  }

  lemma CorrectionIsFree(before: seq<Transaction>, first: nat, rows: seq<Transaction>, entries: seq<ArchivedTransaction>,
                         n: nat, ledgerId: nat, memberIds: map<string, nat>, j: nat)
    requires Replaying(before, first, rows, entries, n, ledgerId, memberIds) && j < n < |entries|
    requires Consistent(Moves(entries)) && entries[n].corrects == Some(entries[j].ref)
    requires forall i :: 0 <= i < |entries| ==> EntryShape(entries[i])
    ensures !CorrectionTaken(rows, first + j)
  {
    ReplayableRefsDistinct(entries);
    assert Writable(Moves(entries), n);
    forall i | 0 <= i < |rows| ensures rows[i].corrects != Some(first + j) {
      RowDuringReplay(before, first, rows, entries, n, ledgerId, memberIds, i);
      if i >= |before| && entries[i - |before|].corrects.Some? {
        var k := i - |before|;
        assert Moves(entries)[k].corrects != Moves(entries)[n].corrects;
        LinkIsResolved(entries, k, first, entries[k].corrects);
      }
    }
  }

  /** The constraints of the table let entry n in. */
  lemma EntryIsAdmitted(before: seq<Transaction>, first: nat, rows: seq<Transaction>, entries: seq<ArchivedTransaction>,
                        n: nat, ledgerId: nat, memberIds: map<string, nat>, new_: NewTransaction)
    requires Replaying(before, first, rows, entries, n, ledgerId, memberIds) && n < |entries|
    requires Replayable(entries, memberIds)
    requires new_.WithId(first + n) == RestoredRow(entries, n, ledgerId, first, memberIds)
    ensures Admits(rows, new_)
  {
    ReplayableRefsDistinct(entries);
    KeyIsFree(before, first, rows, entries, n, ledgerId, memberIds);
    LinkIsResolved(entries, n, first, entries[n].reverses);
    LinkIsResolved(entries, n, first, entries[n].corrects);
    if entries[n].reverses.Some? {
      var j :| 0 <= j < n && entries[j].ref == entries[n].reverses.value && LinkTo(entries, first, entries[n].reverses) == Some(first + j);
      TargetIsThere(before, first, rows, entries, n, ledgerId, memberIds, j);
      ReversalIsFree(before, first, rows, entries, n, ledgerId, memberIds, j);
    }
    if entries[n].corrects.Some? {
      var j :| 0 <= j < n && entries[j].ref == entries[n].corrects.value && LinkTo(entries, first, entries[n].corrects) == Some(first + j);
      TargetIsThere(before, first, rows, entries, n, ledgerId, memberIds, j);
      CorrectionIsFree(before, first, rows, entries, n, ledgerId, memberIds, j);
    }
  }

  /** The table with the first n entries replayed behind the old rows. */
  function ReplayedTable(t: Table, entries: seq<ArchivedTransaction>, n: nat, ledgerId: nat,
                         memberIds: map<string, nat>): Table
    requires n <= |entries|
  {
    Table(t.rows + RestoredRows(entries, n, ledgerId, t.next, memberIds), t.next + n)
  }

  ghost predicate GoodTable(t: Table) { ValidTable(t.rows, t.next) }

  lemma OneMoreRow(t: Table, entries: seq<ArchivedTransaction>, n: nat, ledgerId: nat, memberIds: map<string, nat>)
    requires n < |entries|
    ensures ReplayedTable(t, entries, n, ledgerId, memberIds).rows + [RestoredRow(entries, n, ledgerId, t.next, memberIds)]
            == ReplayedTable(t, entries, n + 1, ledgerId, memberIds).rows
  {
  }

  /** The request made from entry n once its links are resolved. */
  function EntryRequest(entries: seq<ArchivedTransaction>, n: nat, ledgerId: nat, first: nat,
                        memberIds: map<string, nat>): NewTransaction
    requires n < |entries|
  {
    var e := entries[n];
    NewTransaction(ledgerId, e.amount, e.reason, RecorderId(memberIds, e.grantedBy), e.occurredAt,
                   IMPORT_KEY_PREFIX + e.ref, LinkTo(entries, first, e.reverses), LinkTo(entries, first, e.corrects))
  }

  lemma EntryIsWritten(t: Table, entries: seq<ArchivedTransaction>, n: nat, ledgerId: nat, memberIds: map<string, nat>)
    requires ValidTable(t.rows, t.next) && (forall i :: 0 <= i < |t.rows| ==> t.rows[i].ledgerId != ledgerId)
    requires n < |entries| && Replayable(entries, memberIds)
    ensures var made := ReplayedTable(t, entries, n, ledgerId, memberIds);
            var row := RestoredRow(entries, n, ledgerId, t.next, memberIds);
            && PointTransactions.Written(made.rows, made.next, EntryRequest(entries, n, ledgerId, t.next, memberIds))
               == Ok(Appended(made.rows + [row], made.next + 1, row))
            && made.rows + [row] == ReplayedTable(t, entries, n + 1, ledgerId, memberIds).rows
  {
    hide ValidTable;
    var made := ReplayedTable(t, entries, n, ledgerId, memberIds);
    assert EntryShape(entries[n]);
    ImportKeyIsValid(entries[n].ref);
    EntryIsAdmitted(t.rows, t.next, made.rows, entries, n, ledgerId, memberIds, EntryRequest(entries, n, ledgerId, t.next, memberIds));
    OneMoreRow(t, entries, n, ledgerId, memberIds);
  }

  lemma EntryReplays(t: Table, entries: seq<ArchivedTransaction>, n: nat, ledgerId: nat, memberIds: map<string, nat>)
    requires ValidTable(t.rows, t.next) && (forall i :: 0 <= i < |t.rows| ==> t.rows[i].ledgerId != ledgerId)
    requires n < |entries| && Replayable(entries, memberIds)
    ensures ReplayEntry(Replay(ReplayedTable(t, entries, n, ledgerId, memberIds), EntryIds(entries, n, t.next)),
                        entries[n], ledgerId, memberIds) ==
            Ok(Replay(ReplayedTable(t, entries, n + 1, ledgerId, memberIds), EntryIds(entries, n + 1, t.next)))
  {
    hide ValidTable;
    LinkIsResolved(entries, n, t.next, entries[n].reverses);
    LinkIsResolved(entries, n, t.next, entries[n].corrects);
    assert EntryShape(entries[n]);
    RecorderIsResolved(entries[n].grantedBy, memberIds);
    hide PointTransactions.Written, LinkTo, RecorderId, Resolve, Replayable;
    EntryIsWritten(t, entries, n, ledgerId, memberIds);
  }

  lemma EntryKeepsTable(t: Table, entries: seq<ArchivedTransaction>, n: nat, ledgerId: nat, memberIds: map<string, nat>)
    requires ValidTable(t.rows, t.next) && (forall i :: 0 <= i < |t.rows| ==> t.rows[i].ledgerId != ledgerId)
    requires n < |entries| && Replayable(entries, memberIds)
    requires GoodTable(ReplayedTable(t, entries, n, ledgerId, memberIds))
    ensures GoodTable(ReplayedTable(t, entries, n + 1, ledgerId, memberIds))
  {
    hide ValidTable, Replayable, PointTransactions.Written;
    var made := ReplayedTable(t, entries, n, ledgerId, memberIds);
    EntryIsWritten(t, entries, n, ledgerId, memberIds);
    AppendKeepsTable(made.rows, made.next, EntryRequest(entries, n, ledgerId, t.next, memberIds));
  }

  lemma {:induction false} ReplayedTableIsValid(t: Table, entries: seq<ArchivedTransaction>, n: nat, ledgerId: nat,
                                                memberIds: map<string, nat>)
    requires n <= |entries| && ValidTable(t.rows, t.next) && Replayable(entries, memberIds)
    requires forall i :: 0 <= i < |t.rows| ==> t.rows[i].ledgerId != ledgerId
    ensures GoodTable(ReplayedTable(t, entries, n, ledgerId, memberIds))
  {
    hide Replayable, ReplayEntry, ValidTable, RestoredRow;
    if n == 0 {
      assert t.rows + RestoredRows(entries, 0, ledgerId, t.next, memberIds) == t.rows;
    } else {
      hide GoodTable, ReplayedTable;
      ReplayedTableIsValid(t, entries, n - 1, ledgerId, memberIds);
      EntryKeepsTable(t, entries, n - 1, ledgerId, memberIds);
    }
  }

  /** Every entry of an accepted history is appended as one new row, and every ref met on the way is
      already resolved. */
  lemma {:induction false} HistoryReplays(t: Table, entries: seq<ArchivedTransaction>, n: nat, ledgerId: nat,
                                          memberIds: map<string, nat>)
    requires n <= |entries| && ValidTable(t.rows, t.next) && Replayable(entries, memberIds)
    requires forall i :: 0 <= i < |t.rows| ==> t.rows[i].ledgerId != ledgerId
    ensures var r := AppendHistory(t, entries, n, ledgerId, memberIds);
            r.Ok? && r.value == Replay(ReplayedTable(t, entries, n, ledgerId, memberIds), EntryIds(entries, n, t.next))
  {
    if n == 0 {
      assert t.rows + RestoredRows(entries, 0, ledgerId, t.next, memberIds) == t.rows;
    } else {
      HistoryReplays(t, entries, n - 1, ledgerId, memberIds);
      EntryReplays(t, entries, n - 1, ledgerId, memberIds);
    }
  }

  // ---------------------------------------------------------------- the members

  function RestoredMember(members: seq<ArchivedMember>, i: nat, familyId: nat, accountId: nat, first: nat): Membership
    requires i < |members|
  {
    Membership(first + i, familyId, AccountFor(members[i], accountId), members[i].role, members[i].displayName, i)
  }

  function RestoredMembers(members: seq<ArchivedMember>, n: nat, familyId: nat, accountId: nat,
                           first: nat): seq<Membership>
    requires n <= |members|
  {
    seq(n, i requires 0 <= i < n => RestoredMember(members, i, familyId, accountId, first))
  }

  function WithMembers(t: MemberTable, members: seq<ArchivedMember>, n: nat, familyId: nat, accountId: nat): MemberTable
    requires n <= |members|
  {
    MemberTable(t.rows + RestoredMembers(members, n, familyId, accountId, t.next), t.next + n)
  }

  lemma NextMemberIsRestored(t: MemberTable, members: seq<ArchivedMember>, n: nat, familyId: nat, accountId: nat)
    requires n < |members| && forall m :: m in t.rows ==> m.familyId != familyId
    requires ValidText(members[n].displayName, DISPLAY_NAME_MAX_LENGTH)
    ensures var r := RestoreMember(WithMembers(t, members, n, familyId, accountId), familyId, accountId, members[n]);
            r.Ok? && r.value == WithMembers(t, members, n + 1, familyId, accountId)
  {
  }

  lemma NobodyRestoredYet(t: MemberTable, familyId: nat, accountId: nat, members: seq<ArchivedMember>)
    ensures WithMembers(t, members, 0, familyId, accountId) == t
  {
  }

  lemma {:induction false} MembersAreRestored(t: MemberTable, familyId: nat, accountId: nat,
                                              members: seq<ArchivedMember>, n: nat)
    requires n <= |members| && forall m :: m in t.rows ==> m.familyId != familyId
    requires forall i :: 0 <= i < |members| ==> ValidText(members[i].displayName, DISPLAY_NAME_MAX_LENGTH)
    ensures var r := RestoreMembers(t, familyId, accountId, members, n);
            r.Ok? && r.value == WithMembers(t, members, n, familyId, accountId)
  {
    hide RestoreMember, WithMembers, ValidText;
    if n == 0 {
      NobodyRestoredYet(t, familyId, accountId, members);
    } else {
      MembersAreRestored(t, familyId, accountId, members, n - 1);
      NextMemberIsRestored(t, members, n - 1, familyId, accountId);
    }
  }

  lemma {:induction false} MemberIdAt(members: seq<ArchivedMember>, first: nat, i: nat)
    requires Distinct(RefsOf(members)) && i < |members|
    ensures members[i].ref in MemberIds(members, first) && MemberIds(members, first)[members[i].ref] == first + i
  {
    var front := members[..|members| - 1];
    if i < |front| {
      assert forall a :: 0 <= a < |front| ==> RefsOf(front)[a] == RefsOf(members)[a];
      MemberIdAt(front, first, i);
      assert RefsOf(members)[i] != RefsOf(members)[|front|];
    }
  }

  // ---------------------------------------------------------------- the ledgers

  /** Ledger `ledgerId` is the archived ledger, replayed from row `first` on. */
  ghost predicate LedgerRestoredAs(t: LedgerTables, familyId: nat, archived: ArchivedLedger, membershipId: nat,
                                   memberIds: map<string, nat>, ledgerId: nat, first: nat) {
    && Ledger(ledgerId, familyId, membershipId) in t.ledgers
    && Filter(t.table.rows, InLedger(ledgerId)) == RestoredRows(archived.transactions, |archived.transactions|, ledgerId, first, memberIds)
    && ToBonus(t.bonuses, ledgerId) == archived.dailyBonus
  }

  ghost predicate LedgerRestored(t: LedgerTables, familyId: nat, archived: ArchivedLedger, membershipId: nat,
                                 memberIds: map<string, nat>) {
    exists ledgerId: nat, first: nat :: LedgerRestoredAs(t, familyId, archived, membershipId, memberIds, ledgerId, first)
  }

  ghost predicate LedgerReplayable(m: ArchivedMember, memberIds: map<string, nat>) {
    m.ledger.Some? ==>
      && Replayable(m.ledger.value.transactions, memberIds)
      && (m.ledger.value.dailyBonus.Some? ==> BonusShape(m.ledger.value.dailyBonus.value))
  }

  /** The id counters and unique keys of the ledger tables hold. */
  ghost predicate LedgerTablesValid(t: LedgerTables) {
    && (forall i :: 0 <= i < |t.ledgers| ==> t.ledgers[i].id < t.next)
    && (forall i, j :: 0 <= i < j < |t.ledgers| ==> t.ledgers[i].id < t.ledgers[j].id)
    && (forall i, j :: 0 <= i < j < |t.ledgers| ==> t.ledgers[i].membershipId != t.ledgers[j].membershipId)
    && ValidTable(t.table.rows, t.table.next)
    && (forall i :: 0 <= i < |t.table.rows| ==> t.table.rows[i].ledgerId < t.next)
    && (forall l :: l in t.bonuses ==> l < t.next)
  }

  function BonusesAfter(bonuses: map<nat, DailyBonus>, bonus: Option<ArchivedDailyBonus>,
                        ledgerId: nat): map<nat, DailyBonus> {
    if bonus.None? then bonuses
    else
      var b := bonus.value;
      bonuses[ledgerId := DailyBonus(b.amount, b.reason, b.startsOn, b.grantedThrough)]
  }

  /** The tables after one more archived ledger has been made. */
  function AfterLedger(t: LedgerTables, familyId: nat, archived: ArchivedLedger, membershipId: nat,
                       memberIds: map<string, nat>): LedgerTables {
    LedgerTables(t.ledgers + [Ledger(t.next, familyId, membershipId)],
                 t.next + 1,
                 ReplayedTable(t.table, archived.transactions, |archived.transactions|, t.next, memberIds),
                 BonusesAfter(t.bonuses, archived.dailyBonus, t.next))
  }

  lemma LedgerIsRestored(t: LedgerTables, familyId: nat, m: ArchivedMember, memberIds: map<string, nat>)
    requires LedgerTablesValid(t) && LedgerReplayable(m, memberIds) && m.ref in memberIds && m.ledger.Some?
    ensures var r := RestoreLedger(t, familyId, m, memberIds);
            r.Ok? && r.value == AfterLedger(t, familyId, m.ledger.value, memberIds[m.ref], memberIds)
  {
    HistoryReplays(t.table, m.ledger.value.transactions, |m.ledger.value.transactions|, t.next, memberIds);
  }

  lemma AfterLedgerKeepsTables(t: LedgerTables, familyId: nat, archived: ArchivedLedger, membershipId: nat,
                               memberIds: map<string, nat>)
    requires LedgerTablesValid(t) && Replayable(archived.transactions, memberIds)
    requires forall i :: 0 <= i < |t.ledgers| ==> t.ledgers[i].membershipId != membershipId
    ensures LedgerTablesValid(AfterLedger(t, familyId, archived, membershipId, memberIds))
  {
    ReplayedTableIsValid(t.table, archived.transactions, |archived.transactions|, t.next, memberIds);
  }

  lemma RestoredRowsOfLedger(t: Table, entries: seq<ArchivedTransaction>, ledgerId: nat, memberIds: map<string, nat>,
                             l: nat)
    ensures Filter(ReplayedTable(t, entries, |entries|, ledgerId, memberIds).rows, InLedger(l)) ==
            Filter(t.rows, InLedger(l)) + (if l == ledgerId then RestoredRows(entries, |entries|, ledgerId, t.next, memberIds) else [])
  {
    var made := RestoredRows(entries, |entries|, ledgerId, t.next, memberIds);
    FilterAppend(t.rows, made, InLedger(l));
    if l == ledgerId {
      FilterAll(made, InLedger(l));
    } else {
      FilterNone(made, InLedger(l));
    }
  }

  lemma NewLedgerIsThere(t: LedgerTables, familyId: nat, archived: ArchivedLedger, membershipId: nat,
                         memberIds: map<string, nat>)
    requires LedgerTablesValid(t)
    ensures LedgerRestored(AfterLedger(t, familyId, archived, membershipId, memberIds), familyId, archived, membershipId, memberIds)
  {
    RestoredRowsOfLedger(t.table, archived.transactions, t.next, memberIds, t.next);
    FilterNone(t.table.rows, InLedger(t.next));
    var after := AfterLedger(t, familyId, archived, membershipId, memberIds);
    assert after.ledgers[|t.ledgers|] == Ledger(t.next, familyId, membershipId);
    assert LedgerRestoredAs(after, familyId, archived, membershipId, memberIds, t.next, t.table.next);
  }

  /** Ledgers that are already there are not touched by making another one. */
  lemma EarlierLedgersStay(t: LedgerTables, familyId: nat, archived: ArchivedLedger, membershipId: nat, memberIds: map<string, nat>,
                           earlier: ArchivedLedger, earlierMember: nat)
    requires LedgerTablesValid(t) && LedgerRestored(t, familyId, earlier, earlierMember, memberIds)
    ensures LedgerRestored(AfterLedger(t, familyId, archived, membershipId, memberIds), familyId, earlier, earlierMember, memberIds)
  {
    var l: nat, first: nat :| LedgerRestoredAs(t, familyId, earlier, earlierMember, memberIds, l, first);
    var after := AfterLedger(t, familyId, archived, membershipId, memberIds);
    var k :| 0 <= k < |t.ledgers| && t.ledgers[k] == Ledger(l, familyId, earlierMember);
    assert l < t.next;
    assert after.ledgers[k] == t.ledgers[k];
    RestoredRowsOfLedger(t.table, archived.transactions, t.next, memberIds, l);
    assert Filter(t.table.rows, InLedger(l)) + [] == Filter(t.table.rows, InLedger(l));
    assert LedgerRestoredAs(after, familyId, earlier, earlierMember, memberIds, l, first);
  }

  // ---------------------------------------------------------------- all ledgers of the file

  /** Every archived ledger among the first n members is there, and every ledger of the new family
      was made for one of them. */
  ghost predicate LedgersRestored(t: LedgerTables, familyId: nat, members: seq<ArchivedMember>, n: nat, first: nat,
                                  memberIds: map<string, nat>)
    requires n <= |members|
  {
    && (forall i :: 0 <= i < n && members[i].ledger.Some? ==>
          LedgerRestored(t, familyId, members[i].ledger.value, first + i, memberIds))
    && (forall k :: 0 <= k < |t.ledgers| && t.ledgers[k].familyId == familyId ==>
          exists i :: 0 <= i < n && members[i].ledger.Some? && t.ledgers[k].membershipId == first + i)
  }

  /** Nothing refers to families and members that are not made yet. */
  ghost predicate LedgersBelow(t: LedgerTables, familyId: nat, limit: nat) {
    forall k :: 0 <= k < |t.ledgers| ==> t.ledgers[k].membershipId < limit && t.ledgers[k].familyId <= familyId
  }

  /** The state of the import after the ledgers of the first n members. */
  ghost predicate Importing(t: LedgerTables, familyId: nat, members: seq<ArchivedMember>, n: nat, first: nat,
                            memberIds: map<string, nat>)
    requires n <= |members|
  {
    LedgerTablesValid(t) && LedgersBelow(t, familyId, first + n) && LedgersRestored(t, familyId, members, n, first, memberIds)
  }

  lemma RestoredLedgersStay(t: LedgerTables, familyId: nat, members: seq<ArchivedMember>, n: nat, first: nat,
                            memberIds: map<string, nat>, i: nat)
    requires n < |members| && members[n].ledger.Some? && LedgerTablesValid(t)
    requires LedgersRestored(t, familyId, members, n, first, memberIds)
    requires i < n + 1 && members[i].ledger.Some?
    ensures LedgerRestored(AfterLedger(t, familyId, members[n].ledger.value, first + n, memberIds),
                           familyId, members[i].ledger.value, first + i, memberIds)
  {
    hide LedgerRestored, LedgerTablesValid, AfterLedger;
    if i == n {
      NewLedgerIsThere(t, familyId, members[n].ledger.value, first + n, memberIds);
    } else {
      EarlierLedgersStay(t, familyId, members[n].ledger.value, first + n, memberIds, members[i].ledger.value, first + i);
    }
  }

  lemma NewLedgerAmongRestored(t: LedgerTables, familyId: nat, members: seq<ArchivedMember>, n: nat, first: nat,
                               memberIds: map<string, nat>)
    requires n < |members| && members[n].ledger.Some? && LedgerTablesValid(t)
    requires LedgersRestored(t, familyId, members, n, first, memberIds)
    ensures LedgersRestored(AfterLedger(t, familyId, members[n].ledger.value, first + n, memberIds), familyId, members, n + 1, first, memberIds)
  {
    hide LedgerRestored, LedgerTablesValid;
    var after := AfterLedger(t, familyId, members[n].ledger.value, first + n, memberIds);
    forall i | 0 <= i < n + 1 && members[i].ledger.Some?
      ensures LedgerRestored(after, familyId, members[i].ledger.value, first + i, memberIds)
    {
      RestoredLedgersStay(t, familyId, members, n, first, memberIds, i);
    }
    forall k | 0 <= k < |after.ledgers| && after.ledgers[k].familyId == familyId
      ensures exists i :: 0 <= i < n + 1 && members[i].ledger.Some? && after.ledgers[k].membershipId == first + i
    {
      if k == |t.ledgers| {
        assert after.ledgers[k].membershipId == first + n;
      } else {
        assert after.ledgers[k] == t.ledgers[k];
      }
    }
  }

  lemma NextLedgerIsRestored(t: LedgerTables, familyId: nat, members: seq<ArchivedMember>, n: nat, first: nat,
                             memberIds: map<string, nat>)
    requires n < |members| && Importing(t, familyId, members, n, first, memberIds)
    requires LedgerReplayable(members[n], memberIds) && members[n].ledger.Some?
    ensures Importing(AfterLedger(t, familyId, members[n].ledger.value, first + n, memberIds), familyId, members, n + 1, first, memberIds)
  {
    hide LedgerTablesValid, LedgersRestored, Replayable;
    var archived := members[n].ledger.value;
    AfterLedgerKeepsTables(t, familyId, archived, first + n, memberIds);
    NewLedgerAmongRestored(t, familyId, members, n, first, memberIds);
  }

  lemma MemberWithoutLedger(t: LedgerTables, familyId: nat, members: seq<ArchivedMember>, n: nat, first: nat,
                            memberIds: map<string, nat>)
    requires n < |members| && Importing(t, familyId, members, n, first, memberIds) && members[n].ledger.None?
    ensures Importing(t, familyId, members, n + 1, first, memberIds)
  {
  }

  ghost predicate AllReplayable(members: seq<ArchivedMember>, first: nat, memberIds: map<string, nat>) {
    forall i :: 0 <= i < |members| ==>
      LedgerReplayable(members[i], memberIds) && members[i].ref in memberIds && memberIds[members[i].ref] == first + i
  }

  lemma NextMembersLedger(t: LedgerTables, familyId: nat, members: seq<ArchivedMember>, n: nat, first: nat,
                          memberIds: map<string, nat>)
    requires n < |members| && AllReplayable(members, first, memberIds)
    requires Importing(t, familyId, members, n, first, memberIds)
    ensures var r := RestoreLedger(t, familyId, members[n], memberIds);
            r.Ok? && Importing(r.value, familyId, members, n + 1, first, memberIds)
  {
    hide LedgerReplayable, LedgerTablesValid, LedgersBelow, LedgersRestored, AfterLedger;
    if members[n].ledger.Some? {
      LedgerIsRestored(t, familyId, members[n], memberIds);
      NextLedgerIsRestored(t, familyId, members, n, first, memberIds);
    } else {
      MemberWithoutLedger(t, familyId, members, n, first, memberIds);
    }
  }

  lemma {:induction false} LedgersAreRestored(t: LedgerTables, familyId: nat, members: seq<ArchivedMember>, n: nat,
                                              first: nat, memberIds: map<string, nat>)
    requires n <= |members| && AllReplayable(members, first, memberIds)
    requires Importing(t, familyId, members, 0, first, memberIds)
    ensures var r := RestoreLedgers(t, familyId, members, n, memberIds);
            r.Ok? && Importing(r.value, familyId, members, n, first, memberIds)
  {
    hide Importing, AllReplayable, RestoreLedger;
    if n > 0 {
      LedgersAreRestored(t, familyId, members, n - 1, first, memberIds);
      var u := RestoreLedgers(t, familyId, members, n - 1, memberIds).value;
      NextMembersLedger(u, familyId, members, n - 1, first, memberIds);
    }
  }

  /** The members' ids cover the recorders of every ledger. */
  lemma ImportableLedgersReplay(a: Archive, first: nat, i: nat)
    requires SoundFamily(a.members) && DocumentShape(a) && i < |a.members|
    ensures LedgerReplayable(a.members[i], MemberIds(a.members, first))
    ensures a.members[i].ref in MemberIds(a.members, first) && MemberIds(a.members, first)[a.members[i].ref] == first + i
  {
    MemberIdAt(a.members, first, i);
    assert ImportableMember(a.members[i], Recorders(a.members)) && MemberShape(a.members[i]);
    forall ref | ref in Recorders(a.members) ensures ref in MemberIds(a.members, first) {
      var k :| 0 <= k < |a.members| && a.members[k].role.IsGuardian() && a.members[k].ref == ref;
      MemberIdAt(a.members, first, k);
    }
  }

  lemma TablesBeforeImport(s: Store)
    requires TablesValid(s)
    ensures LedgerTablesValid(LedgersIn(s)) && LedgersBelow(LedgersIn(s), s.nextFamily, s.nextMember)
    ensures forall k :: 0 <= k < |s.ledgers| ==> s.ledgers[k].familyId < s.nextFamily
    ensures forall m :: m in s.members ==> m.familyId != s.nextFamily
  {
  }

  /** What an import of an acceptable file leaves behind. */
  ghost predicate ImportDone(s: Store, t: Store, accountId: nat, a: Archive) {
    && t.families == s.families + [Family(s.nextFamily, a.familyName, NormalRules(a.familyRules))]
    && MembersOf(t) == WithMembers(MembersOf(s), a.members, |a.members|, s.nextFamily, accountId)
    && t.nextFamily == s.nextFamily + 1
    && LedgerTablesValid(LedgersIn(t)) && LedgersBelow(LedgersIn(t), s.nextFamily, t.nextMember)
    && LedgersRestored(LedgersIn(t), s.nextFamily, a.members, |a.members|, s.nextMember, MemberIds(a.members, s.nextMember))
  }

  /** Every file that passes the field checks and the checker is restored: no constraint of the
      tables is tripped on the way and no ref is met before it is resolved. */
  lemma AcceptedBackupIsRestored(s: Store, accountId: nat, a: Archive)
    requires TablesValid(s) && DocumentShape(a) && Importable(a)
    requires ListForAccount(s.members, accountId) == []
    ensures Restore(s, accountId, a).Ok? && ImportDone(s, Restore(s, accountId, a).value, accountId, a)
  {
    var ids := MemberIds(a.members, s.nextMember);
    TablesBeforeImport(s);
    assert forall i :: 0 <= i < |a.members| ==> MemberShape(a.members[i]);
    MembersAreRestored(MembersOf(s), s.nextFamily, accountId, a.members, |a.members|);
    assert AllReplayable(a.members, s.nextMember, ids) by {
      forall i | 0 <= i < |a.members|
        ensures LedgerReplayable(a.members[i], ids) && a.members[i].ref in ids && ids[a.members[i].ref] == s.nextMember + i
      {
        ImportableLedgersReplay(a, s.nextMember, i);
      }
    }
    assert Importing(LedgersIn(s), s.nextFamily, a.members, 0, s.nextMember, ids);
    LedgersAreRestored(LedgersIn(s), s.nextFamily, a.members, |a.members|, s.nextMember, ids);
  }
}
