/** What a backup says about the tables it was made from, and what the tables made from a backup say, field
    by field. The order of a ledger's entries is the order of the ids of its rows. */
module ArchiveContents {
  import opened Basics
  import opened Decimal
  import opened Texts
  import opened LedgerHistory
  import opened FamilyArchive
  import opened PointTransactions
  import opened Memberships
  import opened FamilyStore
  import opened ArchiveRules
  import opened ArchiveWriter
  import opened ArchiveRestore

  /** All rows of the ledger and no other, the older ones in front. */
  ghost predicate IsLedger(own: seq<Transaction>, rows: seq<Transaction>, ledgerId: nat) {
    && (forall t :: t in own <==> t in rows && t.ledgerId == ledgerId)
    && (forall i, j :: 0 <= i < j < |own| ==> own[i].id < own[j].id)
  }

  lemma RowsOfLedger(rows: seq<Transaction>, next: nat, ledgerId: nat)
    requires ValidTable(rows, next)
    ensures IsLedger(Filter(rows, InLedger(ledgerId)), rows, ledgerId)
  {
    FilterMembers(rows, InLedger(ledgerId));
    var at := FilterPositions(rows, InLedger(ledgerId));
  }

  // ---------------------------------------------------------------- a backup says what the tables say

  /** A link names the place in the file of the row it leads to; a link that leads out of the file is left
      out. */
  ghost predicate LinkSays(link: Option<string>, id: Option<nat>, ids: seq<nat>, prefix: char) {
    && (forall j :: 0 <= j < |ids| && id == Some(ids[j]) ==> link == Some(Ref(prefix, j + 1)))
    && ((forall j :: 0 <= j < |ids| ==> id != Some(ids[j])) ==> link == None)
  }

  lemma RefOfSays(id: Option<nat>, ids: seq<nat>, prefix: char)
    requires Distinct(ids)
    ensures LinkSays(RefOf(id, NumberedRefs(prefix, ids)), id, ids, prefix)
  {
    NumberedKeys(prefix, ids);
    forall j | 0 <= j < |ids| && id == Some(ids[j]) ensures RefOf(id, NumberedRefs(prefix, ids)) == Some(Ref(prefix, j + 1)) {
      NumberedRefAt(prefix, ids, j);
    }
  }

  ghost predicate EntrySays(e: ArchivedTransaction, own: seq<Transaction>, k: nat, persons: seq<Membership>)
    requires k < |own|
  {
    && e.ref == Ref('t', k + 1)
    && e.amount == own[k].amount && e.reason == own[k].reason && e.occurredAt == own[k].occurredAt
    && LinkSays(e.grantedBy, own[k].grantedBy, IdsOf(persons), 'm')
    && LinkSays(e.reverses, own[k].reversalOf, RowIds(own), 't')
    && LinkSays(e.corrects, own[k].corrects, RowIds(own), 't')
  }

  lemma EntrySaysTheRow(own: seq<Transaction>, k: nat, persons: seq<Membership>)
    requires k < |own| && Distinct(RowIds(own)) && Distinct(IdsOf(persons))
    ensures EntrySays(Entries(own, NumberedRefs(MEMBER_PREFIX, IdsOf(persons)))[k], own, k, persons)
  {
    NumberedRefAt(ENTRY_PREFIX, RowIds(own), k);
    RefOfSays(own[k].grantedBy, IdsOf(persons), 'm');
    RefOfSays(own[k].reversalOf, RowIds(own), 't');
    RefOfSays(own[k].corrects, RowIds(own), 't');
    hide NumberedRefs, RefOf, LinkSays, Distinct, IdsOf;
    assert RowIds(own)[k] == own[k].id;
  }

  ghost predicate LedgerSays(l: ArchivedLedger, own: seq<Transaction>, persons: seq<Membership>, bonuses: map<nat, DailyBonus>, ledgerId: nat) {
    && |l.transactions| == |own|
    && (forall k :: 0 <= k < |own| ==> EntrySays(l.transactions[k], own, k, persons))
    && (ledgerId !in bonuses ==> l.dailyBonus == None)
    && (ledgerId in bonuses ==>
          var b := bonuses[ledgerId];
          l.dailyBonus == Some(ArchivedDailyBonus(b.amount, b.reason, b.startsOn, b.grantedThrough)))
  }

  lemma LedgerSaysTheRows(s: Store, ledger: Ledger, persons: seq<Membership>)
    requires ValidTable(s.rows, s.nextRow) && Distinct(IdsOf(persons))
    ensures LedgerSays(ToLedger(s, ledger, NumberedRefs(MEMBER_PREFIX, IdsOf(persons))), Filter(s.rows, InLedger(ledger.id)), persons,
                       s.bonuses, ledger.id)
  {
    var own := Filter(s.rows, InLedger(ledger.id));
    OrderedAsWritten(s.rows, s.nextRow, ledger.id);
    OwnRowIdsDistinct(s.rows, s.nextRow, ledger.id);
    hide ValidTable, Distinct, EntrySays, NumberedRefs, Filter, Ordered;
    forall k | 0 <= k < |own| ensures EntrySays(Entries(own, NumberedRefs(MEMBER_PREFIX, IdsOf(persons)))[k], own, k, persons) {
      EntrySaysTheRow(own, k, persons);
    }
  }

  /** The head of a backup and its members: the name and the rules of the family, and its persons as they
      are listed, each with a name, a role and a number. */
  lemma BackupSaysTheFamily(s: Store, familyId: nat, now: int)
    requires TablesValid(s) && Write(s, familyId, now).Some?
    ensures var a, persons := Write(s, familyId, now).value, Exported(s, familyId);
            && a.format == "rewardpointsweb.family" && a.version == 2 && a.exportedAt == now
            && (exists f :: f in s.families && f.id == familyId && f.name == a.familyName && f.rules == a.familyRules)
            && |a.members| == |persons|
            && (forall i :: 0 <= i < |persons| ==>
                  a.members[i].ref == Ref('m', i + 1) && a.members[i].displayName == persons[i].displayName
                  && a.members[i].role == persons[i].role)
  {
    var persons := Exported(s, familyId);
    ExportedDistinct(s, familyId);
    hide TablesValid, Exported, ToLedger, NumberedRefs, LedgersByMember, Distinct;
    forall i | 0 <= i < |persons| ensures MembersWritten(s, familyId)[i].ref == Ref('m', i + 1) {
      MemberAt(s, persons, LedgersByMember(LedgersOf(s.ledgers, familyId)), i);
    }
  }

  /** The persons of a family are its members but for the displays: the owner, the parents, the children,
      within a role by display order and by id. */
  lemma PersonsAreListed(s: Store, familyId: nat)
    requires ValidMembers(s.members, s.nextMember)
    ensures var persons := Exported(s, familyId);
            && (forall m :: m in persons <==> m in s.members && m.familyId == familyId && m.role != Display)
            && (forall i, j :: 0 <= i < j < |persons| ==>
                  RoleBefore(persons[i].role, persons[j].role)
                  || (persons[i].role == persons[j].role
                      && (persons[i].displayOrder < persons[j].displayOrder
                          || (persons[i].displayOrder == persons[j].displayOrder && persons[i].id < persons[j].id))))
  {
    ListedByRoleAndOrder(s.members, s.nextMember, familyId);
    FilterMembers(ListForFamily(s.members, familyId), IsPerson());
    var at := FilterPositions(ListForFamily(s.members, familyId), IsPerson());
    hide ListForFamily, Filter, ValidMembers, RoleBefore;
  }

  /** The ledgers of a backup: exactly the children have one, and it says what the rows and the bonus of
      the child's ledger say. */
  lemma BackupSaysTheLedgers(s: Store, familyId: nat, now: int, i: nat) returns (ledger: Ledger, own: seq<Transaction>)
    requires TablesValid(s) && FamilySound(s, familyId) && Write(s, familyId, now).Some?
    requires i < |Write(s, familyId, now).value.members| && i < |Exported(s, familyId)|
    ensures var m, person := Write(s, familyId, now).value.members[i], Exported(s, familyId)[i];
            && (m.ledger.Some? <==> person.role == Child)
            && (m.ledger.Some? ==>
                  && ledger in s.ledgers && ledger.membershipId == person.id && ledger.familyId == familyId
                  && IsLedger(own, s.rows, ledger.id)
                  && LedgerSays(m.ledger.value, own, Exported(s, familyId), s.bonuses, ledger.id))
  {
    var persons, ledgers := Exported(s, familyId), LedgersByMember(LedgersOf(s.ledgers, familyId));
    ExportedMembers(s, familyId);
    ExportedDistinct(s, familyId);
    assert persons[i] in persons;
    LedgerOfMember(s, familyId, persons[i]);
    hide FamilySound, Exported, LedgersByMember, LedgersOf, LedgerSays, IsLedger, NumberedRefs, ToLedger, Filter, Distinct, ValidMembers;
    ledger, own := Ledger(0, 0, 0), [];
    if persons[i].id in ledgers {
      ledger := ledgers[persons[i].id];
      own := Filter(s.rows, InLedger(ledger.id));
      LedgerInDictionary(s, familyId, persons[i].id);
      RowsOfLedger(s.rows, s.nextRow, ledger.id);
      LedgerSaysTheRows(s, ledger, persons);
    }
  }

  // ---------------------------------------------------------------- the tables say what the backup said

  /** Row k says what entry k said; its links lead to the rows and members made of what they named. */
  ghost predicate RowSays(own: seq<Transaction>, k: nat, entries: seq<ArchivedTransaction>, members: seq<ArchivedMember>, firstMember: nat)
    requires k < |own| && |own| == |entries|
  {
    var t, e := own[k], entries[k];
    && t.amount == e.amount && t.reason == e.reason && t.occurredAt == e.occurredAt && t.key == "import-" + e.ref
    && (t.grantedBy.Some? <==> e.grantedBy.Some?) && (t.reversalOf.Some? <==> e.reverses.Some?) && (t.corrects.Some? <==> e.corrects.Some?)
    && (forall j :: 0 <= j < |members| && e.grantedBy == Some(members[j].ref) ==> t.grantedBy == Some(firstMember + j))
    && (forall j :: 0 <= j < |entries| && e.reverses == Some(entries[j].ref) ==> t.reversalOf == Some(own[j].id))
    && (forall j :: 0 <= j < |entries| && e.corrects == Some(entries[j].ref) ==> t.corrects == Some(own[j].id))
  }

  lemma LinkLeadsTo(entries: seq<ArchivedTransaction>, first: nat, link: Option<string>, j: nat)
    requires Distinct(RefsOfEntries(entries)) && j < |entries| && link == Some(entries[j].ref)
    ensures LinkTo(entries, first, link) == Some(first + j)
  {
    IndexOfDistinct(RefsOfEntries(entries), j);
    assert RefsOfEntries(entries)[j] == entries[j].ref;
  }

  lemma RestoredRowSays(entries: seq<ArchivedTransaction>, ledgerId: nat, first: nat, members: seq<ArchivedMember>, firstMember: nat, k: nat)
    requires Replayable(entries, MemberIds(members, firstMember)) && Distinct(RefsOf(members)) && k < |entries|
    ensures RowSays(RestoredRows(entries, |entries|, ledgerId, first, MemberIds(members, firstMember)), k, entries, members, firstMember)
  {
    ReplayableRefsDistinct(entries);
    hide Consistent, EntryShape, LinkTo, MemberIds, Distinct;
    var e, own := entries[k], RestoredRows(entries, |entries|, ledgerId, first, MemberIds(members, firstMember));
    forall j | 0 <= j < |members| && e.grantedBy == Some(members[j].ref) ensures own[k].grantedBy == Some(firstMember + j) {
      MemberIdAt(members, firstMember, j);
    }
    forall j | 0 <= j < |entries| ensures own[j].id == first + j {}
    forall j | 0 <= j < |entries| && e.reverses == Some(entries[j].ref) ensures own[k].reversalOf == Some(first + j) {
      LinkLeadsTo(entries, first, e.reverses, j);
    }
    forall j | 0 <= j < |entries| && e.corrects == Some(entries[j].ref) ensures own[k].corrects == Some(first + j) {
      LinkLeadsTo(entries, first, e.corrects, j);
    }
    LinksAreThere(entries, first, e);
  }

  lemma LinksAreThere(entries: seq<ArchivedTransaction>, first: nat, e: ArchivedTransaction)
    ensures LinkTo(entries, first, e.reverses).Some? <==> e.reverses.Some?
    ensures LinkTo(entries, first, e.corrects).Some? <==> e.corrects.Some?
  {
  }

  /** The head of the new family and its members: the name and the rules of the file - blank rules are no
      rules -, and one member for each of the file's, behind those there were, in the order of the file,
      only the owner's seat taken by the account that imports. */
  lemma ImportMakesTheFamily(s: Store, accountId: nat, a: Archive)
    requires TablesValid(s) && DocumentShape(a) && Restore(s, accountId, a).Ok?
    ensures var t, n := Restore(s, accountId, a).value, |s.members|;
            && t.families == s.families + [Family(s.nextFamily, a.familyName,
                               if a.familyRules == None || Blank(a.familyRules.value) then None else a.familyRules)]
            && |t.members| == n + |a.members| && t.members[..n] == s.members
            && (forall i :: 0 <= i < |a.members| ==>
                  t.members[n + i] == Membership(s.nextMember + i, s.nextFamily,
                                                 if a.members[i].role == Owner then Some(accountId) else None,
                                                 a.members[i].role, a.members[i].displayName, i))
  {
    AcceptedBackupIsRestored(s, accountId, a);
    var t := Restore(s, accountId, a).value;
    hide Restore, TablesValid, DocumentShape, Importable, LedgersRestored, LedgerTablesValid, LedgersBelow, ListForAccount;
  }

  /** The ledgers of the new family: a member of the file with a ledger has one, whose rows and bonus are
      what the file says, and a member without has none. */
  lemma ImportMakesTheLedgers(s: Store, accountId: nat, a: Archive, i: nat) returns (ledgerId: nat, own: seq<Transaction>)
    requires TablesValid(s) && DocumentShape(a) && Restore(s, accountId, a).Ok? && i < |a.members|
    ensures var t := Restore(s, accountId, a).value;
            if a.members[i].ledger.None? then forall l :: l in t.ledgers && l.familyId == s.nextFamily ==> l.membershipId != s.nextMember + i
            else
              var archived := a.members[i].ledger.value;
              && Ledger(ledgerId, s.nextFamily, s.nextMember + i) in t.ledgers
              && IsLedger(own, t.rows, ledgerId)
              && |own| == |archived.transactions|
              && (forall k :: 0 <= k < |own| ==> RowSays(own, k, archived.transactions, a.members, s.nextMember))
              && (archived.dailyBonus == None ==> ledgerId !in t.bonuses)
              && (archived.dailyBonus.Some? ==>
                    && ledgerId in t.bonuses
                    && var b := archived.dailyBonus.value;
                       t.bonuses[ledgerId] == DailyBonus(b.amount, b.reason, b.startsOn, b.grantedThrough))
  {
    hide Restore, Importable, TablesValid, DocumentShape, LedgersRestored, ImportDone, ListForAccount, MemberIds, IsLedger, RowSays,
         LedgerReplayable, ValidTable, Distinct;
    RestoredMeansAccepted(s, accountId, a, i);
    AcceptedBackupIsRestored(s, accountId, a);
    ImportLeavesLedgers(s, Restore(s, accountId, a).value, accountId, a);
    ledgerId, own := RestoredMemberLedger(Restore(s, accountId, a).value, s.nextFamily, a.members, s.nextMember, i);
  }

  lemma RestoredMeansAccepted(s: Store, accountId: nat, a: Archive, i: nat)
    requires DocumentShape(a) && Restore(s, accountId, a).Ok? && i < |a.members|
    ensures Importable(a) && ListForAccount(s.members, accountId) == [] && Distinct(RefsOf(a.members))
    ensures LedgerReplayable(a.members[i], MemberIds(a.members, s.nextMember))
  {
    assert Importable(a) && ListForAccount(s.members, accountId) == [];
    hide Restore;
    ImportableLedgersReplay(a, s.nextMember, i);
  }

  lemma ImportLeavesLedgers(s: Store, t: Store, accountId: nat, a: Archive)
    requires ImportDone(s, t, accountId, a)
    ensures ValidTable(t.rows, t.nextRow)
    ensures LedgersRestored(LedgersIn(t), s.nextFamily, a.members, |a.members|, s.nextMember, MemberIds(a.members, s.nextMember))
  {
    hide LedgersRestored, ValidTable;
  }

  lemma RestoredMemberLedger(t: Store, familyId: nat, members: seq<ArchivedMember>, firstMember: nat, i: nat)
      returns (ledgerId: nat, own: seq<Transaction>)
    requires ValidTable(t.rows, t.nextRow) && Distinct(RefsOf(members)) && i < |members|
    requires LedgersRestored(LedgersIn(t), familyId, members, |members|, firstMember, MemberIds(members, firstMember))
    requires LedgerReplayable(members[i], MemberIds(members, firstMember))
    ensures if members[i].ledger.None? then forall l :: l in t.ledgers && l.familyId == familyId ==> l.membershipId != firstMember + i
            else
              var archived := members[i].ledger.value;
              && Ledger(ledgerId, familyId, firstMember + i) in t.ledgers
              && IsLedger(own, t.rows, ledgerId)
              && |own| == |archived.transactions|
              && (forall k :: 0 <= k < |own| ==> RowSays(own, k, archived.transactions, members, firstMember))
              && (archived.dailyBonus == None ==> ledgerId !in t.bonuses)
              && (archived.dailyBonus.Some? ==>
                    && ledgerId in t.bonuses
                    && var b := archived.dailyBonus.value;
                       t.bonuses[ledgerId] == DailyBonus(b.amount, b.reason, b.startsOn, b.grantedThrough))
  {
    hide MemberIds, IsLedger, RowSays, Replayable, LedgerRestoredAs, ValidTable, RestoredRows, Distinct;
    var ids := MemberIds(members, firstMember);
    ledgerId, own := 0, [];
    if members[i].ledger.None? {
      forall l | l in t.ledgers && l.familyId == familyId ensures l.membershipId != firstMember + i {
        var k :| 0 <= k < |t.ledgers| && t.ledgers[k] == l;
      }
    } else {
      var archived := members[i].ledger.value;
      assert LedgerRestored(LedgersIn(t), familyId, archived, firstMember + i, ids);
      hide LedgersRestored;
      var id: nat, first: nat :| LedgerRestoredAs(LedgersIn(t), familyId, archived, firstMember + i, ids, id, first);
      ledgerId, own := id, RestoredRows(archived.transactions, |archived.transactions|, id, first, ids);
      RestoredLedgerSays(t, familyId, members, archived, firstMember, i, id, first);
    }
  }

  lemma RestoredLedgerSays(t: Store, familyId: nat, members: seq<ArchivedMember>, archived: ArchivedLedger, firstMember: nat, i: nat,
                           id: nat, first: nat)
    requires ValidTable(t.rows, t.nextRow) && Distinct(RefsOf(members))
    requires Replayable(archived.transactions, MemberIds(members, firstMember))
    requires LedgerRestoredAs(LedgersIn(t), familyId, archived, firstMember + i, MemberIds(members, firstMember), id, first)
    ensures var own := RestoredRows(archived.transactions, |archived.transactions|, id, first, MemberIds(members, firstMember));
            && Ledger(id, familyId, firstMember + i) in t.ledgers
            && IsLedger(own, t.rows, id)
            && |own| == |archived.transactions|
            && (forall k :: 0 <= k < |own| ==> RowSays(own, k, archived.transactions, members, firstMember))
            && (archived.dailyBonus == None ==> id !in t.bonuses)
            && (archived.dailyBonus.Some? ==>
                  && id in t.bonuses
                  && var b := archived.dailyBonus.value;
                     t.bonuses[id] == DailyBonus(b.amount, b.reason, b.startsOn, b.grantedThrough))
  {
    var own := RestoredRows(archived.transactions, |archived.transactions|, id, first, MemberIds(members, firstMember));
    RowsOfLedger(t.rows, t.nextRow, id);
    hide IsLedger, ValidTable, Replayable, RowSays, Distinct, MemberIds, RestoredRow, Filter;
    forall k | 0 <= k < |own| ensures RowSays(own, k, archived.transactions, members, firstMember) {
      RestoredRowSays(archived.transactions, id, first, members, firstMember, k);
    }
  }

  // ---------------------------------------------------------------- what is refused

  /** A document is refused as of an unknown version only when it is of this format; otherwise, whatever the
      checker has against it, as no backup; and a good one only because the account has a family. */
  lemma ImportIsRefusedFor(s: Store, accountId: nat, a: Archive)
    requires TablesValid(s) && DocumentShape(a)
    ensures var outcome, member := Restore(s, accountId, a), exists m :: m in s.members && m.accountId == Some(accountId);
            && (outcome == Err(NotImportable(UnsupportedArchiveVersion)) <==>
                  a.format == "rewardpointsweb.family" && a.version != 1 && a.version != 2)
            && (outcome == Err(NotImportable(InvalidFamilyArchive)) <==>
                  a.format != "rewardpointsweb.family" || ((a.version == 1 || a.version == 2) && !Importable(a)))
            && (outcome == Err(AlreadyBelongsToFamily) <==> Importable(a) && member)
            && (outcome.Ok? <==> Importable(a) && !member)
  {
    AccountListed(s.members, accountId);
    var own := ListForAccount(s.members, accountId);
    assert own != [] ==> own[0] in own;
    hide ListForAccount, TablesValid, DocumentShape, SoundFamily, AddFamily, RestoreMembers, RestoreLedgers;
    if Importable(a) && own == [] {
      AcceptedBackupIsRestored(s, accountId, a);
    }
  }
}
