/** Export, restore, export: the second file says what the first one said. */
module ArchiveRoundTrip {
  import opened Basics
  import opened Sorting
  import opened Decimal
  import opened LedgerHistory
  import opened FamilyArchive
  import opened PointTransactions
  import opened Texts
  import opened Memberships
  import opened LedgerUseCases
  import opened FamilyStore
  import opened ArchiveRules
  import opened ArchiveWriter
  import opened ArchiveRestore

  // ---------------------------------------------------------------- the form the printer gives a file

  ghost predicate EntriesNumbered(entries: seq<ArchivedTransaction>) {
    forall i :: 0 <= i < |entries| ==> entries[i].ref == Ref(ENTRY_PREFIX, i + 1)
  }

  ghost predicate MembersNumbered(members: seq<ArchivedMember>) {
    forall i :: 0 <= i < |members| ==> members[i].ref == Ref(MEMBER_PREFIX, i + 1)
  }

  ghost predicate ByRole(members: seq<ArchivedMember>) {
    forall i, j :: 0 <= i < j < |members| ==> RoleOrder(members[i].role) <= RoleOrder(members[j].role)
  }

  /** Refs count up from 1 and the members stand in the order of the screens. */
  ghost predicate AsPrinted(a: Archive) {
    && a.format == ARCHIVE_FORMAT && a.version == ARCHIVE_VERSION
    && NormalRules(a.familyRules) == a.familyRules
    && MembersNumbered(a.members) && ByRole(a.members)
    && (forall i :: 0 <= i < |a.members| && a.members[i].ledger.Some? ==> EntriesNumbered(a.members[i].ledger.value.transactions))
  }

  // ---------------------------------------------------------------- one restored ledger, printed

  /** The two dictionaries undo each other. */
  ghost predicate RefsBack(memberIds: map<string, nat>, memberRefs: map<nat, string>) {
    forall ref :: ref in memberIds ==> memberIds[ref] in memberRefs && memberRefs[memberIds[ref]] == ref
  }

  lemma RestoredRowRef(entries: seq<ArchivedTransaction>, ledgerId: nat, first: nat, memberIds: map<string, nat>,
                       j: nat)
    requires EntriesNumbered(entries) && j < |entries|
    ensures RefOf(Some(first + j), NumberedRefs(ENTRY_PREFIX, RowIds(RestoredRows(entries, |entries|, ledgerId, first, memberIds))))
            == Some(entries[j].ref)
  {
    hide NumberedRefs, RecorderId, LinkTo;
    var ids := RowIds(RestoredRows(entries, |entries|, ledgerId, first, memberIds));
    NumberedRefAt(ENTRY_PREFIX, ids, j);
    assert ids[j] == first + j;
  }

  /** A link of entry i is printed as the ref it was read from. */
  lemma LinkPrintsBack(entries: seq<ArchivedTransaction>, ledgerId: nat, first: nat, memberIds: map<string, nat>,
                       i: nat, link: Option<string>)
    requires Replayable(entries, memberIds) && EntriesNumbered(entries) && i < |entries|
    requires link == entries[i].reverses || link == entries[i].corrects
    ensures RefOf(LinkTo(entries, first, link),
                  NumberedRefs(ENTRY_PREFIX, RowIds(RestoredRows(entries, |entries|, ledgerId, first, memberIds)))) == link
  {
    hide Consistent, EntryShape, NumberedRefs, IndexOf, RestoredRows, RowIds, EntriesNumbered, Moves;
    LinkIsResolved(entries, i, first, link);
    if link.Some? {
      hide LinkTo, RefOf, Replayable;
      var j :| 0 <= j < i && entries[j].ref == link.value && LinkTo(entries, first, link) == Some(first + j);
      RestoredRowRef(entries, ledgerId, first, memberIds, j);
    }
  }

  lemma EntryPrintsBack(entries: seq<ArchivedTransaction>, ledgerId: nat, first: nat, memberIds: map<string, nat>,
                        memberRefs: map<nat, string>, i: nat)
    requires Replayable(entries, memberIds) && EntriesNumbered(entries) && RefsBack(memberIds, memberRefs) && i < |entries|
    ensures Entries(RestoredRows(entries, |entries|, ledgerId, first, memberIds), memberRefs)[i] == entries[i]
  {
    LinkPrintsBack(entries, ledgerId, first, memberIds, i, entries[i].reverses);
    LinkPrintsBack(entries, ledgerId, first, memberIds, i, entries[i].corrects);
    var own := RestoredRows(entries, |entries|, ledgerId, first, memberIds);
    NumberedRefAt(ENTRY_PREFIX, RowIds(own), i);
    assert RefOf(own[i].grantedBy, memberRefs) == entries[i].grantedBy;
    hide Consistent, EntryShape, LinkTo, RefsBack, RecorderId, NumberedRefs, Replayable;
  }

  lemma LedgerPrintsBack(t: Store, archived: ArchivedLedger, ledger: Ledger, first: nat, memberIds: map<string, nat>,
                         memberRefs: map<nat, string>)
    requires ValidTable(t.rows, t.nextRow)
    requires LedgerRestoredAs(LedgersIn(t), ledger.familyId, archived, ledger.membershipId, memberIds, ledger.id, first)
    requires Replayable(archived.transactions, memberIds) && EntriesNumbered(archived.transactions) && RefsBack(memberIds, memberRefs)
    ensures ToLedger(t, ledger, memberRefs) == archived
  {
    hide ValidTable, Replayable, EntriesNumbered;
    var entries := archived.transactions;
    var own := RestoredRows(entries, |entries|, ledger.id, first, memberIds);
    OrderedAsWritten(t.rows, t.nextRow, ledger.id);
    assert Entries(own, memberRefs) == entries by {
      forall i | 0 <= i < |entries| ensures Entries(own, memberRefs)[i] == entries[i] {
        EntryPrintsBack(entries, ledger.id, first, memberIds, memberRefs, i);
      }
    }
  }

  // ---------------------------------------------------------------- the restored members, printed

  lemma MadeMembersAreListed(before: seq<Membership>, made: seq<Membership>, familyId: nat)
    requires forall m :: m in before ==> m.familyId != familyId
    requires forall m :: m in made ==> m.familyId == familyId && !m.role.IsDisplay()
    requires Sorted(made, ListingOrder())
    ensures Filter(ListForFamily(before + made, familyId), IsPerson()) == made
  {
    assert Filter(before + made, InFamily(familyId)) == made by {
      FilterAppend(before, made, InFamily(familyId));
      FilterNone(before, InFamily(familyId));
      FilterAll(made, InFamily(familyId));
    }
    SortOfSorted(made, ListingOrder());
    FilterAll(made, IsPerson());
    hide Sorted, Filter, SortBy;
  }

  lemma RestoredMembersAreListed(s: Store, t: Store, accountId: nat, a: Archive)
    requires (forall m :: m in s.members ==> m.familyId != s.nextFamily) && ByRole(a.members)
    requires MembersOf(t) == WithMembers(MembersOf(s), a.members, |a.members|, s.nextFamily, accountId)
    requires forall i :: 0 <= i < |a.members| ==> !a.members[i].role.IsDisplay()
    ensures Exported(t, s.nextFamily) == RestoredMembers(a.members, |a.members|, s.nextFamily, accountId, s.nextMember)
  {
    var made := RestoredMembers(a.members, |a.members|, s.nextFamily, accountId, s.nextMember);
    MadeMembersAreListed(s.members, made, s.nextFamily);
  }

  lemma RestoredMemberRef(s: Store, t: Store, accountId: nat, a: Archive, i: nat)
    requires Exported(t, s.nextFamily) == RestoredMembers(a.members, |a.members|, s.nextFamily, accountId, s.nextMember)
    requires MembersNumbered(a.members) && i < |a.members|
    ensures s.nextMember + i in MemberRefs(t, s.nextFamily) && MemberRefs(t, s.nextFamily)[s.nextMember + i] == a.members[i].ref
  {
    var ids := IdsOf(Exported(t, s.nextFamily));
    NumberedRefAt(MEMBER_PREFIX, ids, i);
    assert ids[i] == s.nextMember + i;
  }

  lemma RefsGoBack(s: Store, t: Store, accountId: nat, a: Archive)
    requires Exported(t, s.nextFamily) == RestoredMembers(a.members, |a.members|, s.nextFamily, accountId, s.nextMember)
    requires MembersNumbered(a.members)
    ensures RefsBack(MemberIds(a.members, s.nextMember), MemberRefs(t, s.nextFamily))
  {
    hide MembersNumbered, MemberIds, MemberRefs;
    var ids, refs := MemberIds(a.members, s.nextMember), MemberRefs(t, s.nextFamily);
    MemberIdsFrom(a.members, s.nextMember);
    forall ref | ref in ids ensures ids[ref] in refs && refs[ids[ref]] == ref {
      var i :| 0 <= i < |a.members| && a.members[i].ref == ref && ids[ref] == s.nextMember + i;
      RestoredMemberRef(s, t, accountId, a, i);
    }
  }

  lemma {:induction false} MemberIdsFrom(members: seq<ArchivedMember>, first: nat)
    ensures forall ref :: ref in MemberIds(members, first) ==>
              exists i :: 0 <= i < |members| && members[i].ref == ref && MemberIds(members, first)[ref] == first + i
  {
    if members != [] {
      var front := members[..|members| - 1];
      MemberIdsFrom(front, first);
      forall ref | ref in MemberIds(members, first)
        ensures exists i :: 0 <= i < |members| && members[i].ref == ref && MemberIds(members, first)[ref] == first + i
      {
        if ref != members[|front|].ref {
          var i :| 0 <= i < |front| && front[i].ref == ref && MemberIds(front, first)[ref] == first + i;
          assert members[i].ref == ref;
        }
      }
    }
  }

  /** The ledger that is found for the restored member i is the one made for it, if one was made. */
  lemma RestoredLedgerFound(t: Store, familyId: nat, a: Archive, first: nat, memberIds: map<string, nat>,
                            i: nat) returns (ledger: Ledger, row: nat)
    requires LedgerTablesValid(LedgersIn(t))
    requires LedgersRestored(LedgersIn(t), familyId, a.members, |a.members|, first, memberIds)
    requires i < |a.members| && a.members[i].ledger.Some?
    ensures var ledgers := LedgersByMember(LedgersOf(t.ledgers, familyId));
            first + i in ledgers && ledgers[first + i] == ledger && ledger.familyId == familyId && ledger.membershipId == first + i
    ensures LedgerRestoredAs(LedgersIn(t), familyId, a.members[i].ledger.value, first + i, memberIds, ledger.id, row)
  {
    hide LedgerTablesValid, LedgerRestoredAs, LedgersByMember, LedgersOf;
    assert LedgerRestored(LedgersIn(t), familyId, a.members[i].ledger.value, first + i, memberIds);
    var id: nat, at: nat :| LedgerRestoredAs(LedgersIn(t), familyId, a.members[i].ledger.value, first + i, memberIds, id, at);
    ledger, row := Ledger(id, familyId, first + i), at;
    hide LedgersRestored;
    RestoredLedgerIsIn(t, familyId, a.members[i].ledger.value, first + i, memberIds, id, at);
    ChildHasItsLedger(t, familyId, ledger);
  }

  lemma RestoredLedgerIsIn(t: Store, familyId: nat, archived: ArchivedLedger, membershipId: nat,
                           memberIds: map<string, nat>, id: nat, at: nat)
    requires LedgerTablesValid(LedgersIn(t)) && LedgerRestoredAs(LedgersIn(t), familyId, archived, membershipId, memberIds, id, at)
    ensures Ledger(id, familyId, membershipId) in t.ledgers
    ensures forall i, j :: 0 <= i < j < |t.ledgers| ==> t.ledgers[i].membershipId != t.ledgers[j].membershipId
  {
  }

  lemma NoLedgerFound(t: Store, familyId: nat, a: Archive, first: nat, memberIds: map<string, nat>, i: nat)
    requires LedgersRestored(LedgersIn(t), familyId, a.members, |a.members|, first, memberIds)
    requires i < |a.members| && a.members[i].ledger.None?
    ensures first + i !in LedgersByMember(LedgersOf(t.ledgers, familyId))
  {
    if first + i in LedgersByMember(LedgersOf(t.ledgers, familyId)) {
      LedgerInDictionary(t, familyId, first + i);
    }
  }

  lemma LedgerOfMemberPrintsBack(s: Store, t: Store, accountId: nat, a: Archive, i: nat)
    requires LedgerTablesValid(LedgersIn(t)) && DocumentShape(a) && SoundFamily(a.members) && MembersNumbered(a.members)
    requires i < |a.members| && (a.members[i].ledger.Some? ==> EntriesNumbered(a.members[i].ledger.value.transactions))
    requires LedgersRestored(LedgersIn(t), s.nextFamily, a.members, |a.members|, s.nextMember, MemberIds(a.members, s.nextMember))
    requires Exported(t, s.nextFamily) == RestoredMembers(a.members, |a.members|, s.nextFamily, accountId, s.nextMember)
    ensures var ledgers := LedgersByMember(LedgersOf(t.ledgers, s.nextFamily));
            (if s.nextMember + i in ledgers then Some(ToLedger(t, ledgers[s.nextMember + i], MemberRefs(t, s.nextFamily))) else None)
            == a.members[i].ledger
  {
    hide LedgersRestored, SoundFamily, DocumentShape, EntriesNumbered, MembersNumbered, LedgerRestoredAs, MemberRefs, LedgersByMember,
         LedgersOf, Exported, RestoredMembers, ToLedger, MemberIds, RefsBack, Replayable;
    var ids := MemberIds(a.members, s.nextMember);
    if a.members[i].ledger.Some? {
      RefsGoBack(s, t, accountId, a);
      var ledger, row := RestoredLedgerFound(t, s.nextFamily, a, s.nextMember, ids, i);
      MemberReplayable(a, s.nextMember, i);
      LedgerPrintsBack(t, a.members[i].ledger.value, ledger, row, ids, MemberRefs(t, s.nextFamily));
    } else {
      NoLedgerFound(t, s.nextFamily, a, s.nextMember, ids, i);
    }
  }

  /** Everything of a member but its ledger. */
  lemma MemberHeadPrintsBack(s: Store, t: Store, accountId: nat, a: Archive, i: nat)
    requires MembersNumbered(a.members) && i < |a.members|
    requires Exported(t, s.nextFamily) == RestoredMembers(a.members, |a.members|, s.nextFamily, accountId, s.nextMember)
    ensures |MembersWritten(t, s.nextFamily)| == |a.members|
    ensures var ledgers, m := LedgersByMember(LedgersOf(t.ledgers, s.nextFamily)), a.members[i];
            MembersWritten(t, s.nextFamily)[i] == ArchivedMember(m.ref, m.displayName, m.role,
              if s.nextMember + i in ledgers then Some(ToLedger(t, ledgers[s.nextMember + i], MemberRefs(t, s.nextFamily))) else None)
  {
    hide MembersNumbered, LedgersByMember, NumberedRefs, ToLedger, Exported, LedgersOf;
    RestoredMemberRef(s, t, accountId, a, i);
  }

  lemma MemberPrintsBack(s: Store, t: Store, accountId: nat, a: Archive, i: nat)
    requires LedgerTablesValid(LedgersIn(t)) && DocumentShape(a) && SoundFamily(a.members) && AsPrinted(a) && i < |a.members|
    requires LedgersRestored(LedgersIn(t), s.nextFamily, a.members, |a.members|, s.nextMember, MemberIds(a.members, s.nextMember))
    requires Exported(t, s.nextFamily) == RestoredMembers(a.members, |a.members|, s.nextFamily, accountId, s.nextMember)
    ensures |MembersWritten(t, s.nextFamily)| == |a.members| && MembersWritten(t, s.nextFamily)[i] == a.members[i]
  {
    hide LedgerTablesValid, LedgersRestored, SoundFamily, DocumentShape, EntriesNumbered, Exported, RestoredMembers,
         MemberRefs, LedgersByMember, LedgersOf, ToLedger, MembersNumbered, ByRole, MembersWritten, MemberIds;
    MemberHeadPrintsBack(s, t, accountId, a, i);
    LedgerOfMemberPrintsBack(s, t, accountId, a, i);
  }

  lemma MemberReplayable(a: Archive, first: nat, i: nat)
    requires SoundFamily(a.members) && DocumentShape(a) && i < |a.members| && a.members[i].ledger.Some?
    ensures Replayable(a.members[i].ledger.value.transactions, MemberIds(a.members, first))
  {
    hide SoundFamily, DocumentShape;
    ImportableLedgersReplay(a, first, i);
  }

  /** A file in the printer's form comes back word for word from the family made of it. */
  lemma RestoredBackupPrintsBack(s: Store, accountId: nat, a: Archive, now: int)
    requires TablesValid(s) && DocumentShape(a) && Importable(a) && AsPrinted(a)
    requires ListForAccount(s.members, accountId) == []
    ensures Restore(s, accountId, a).Ok?
    ensures Write(Restore(s, accountId, a).value, s.nextFamily, now) == Some(a.(exportedAt := now))
  {
    AcceptedBackupIsRestored(s, accountId, a);
    var t := Restore(s, accountId, a).value;
    hide Restore;
    assert forall i :: 0 <= i < |a.members| ==> ImportableMember(a.members[i], Recorders(a.members));
    RestoredMembersAreListed(s, t, accountId, a);
    assert MembersWritten(t, s.nextFamily) == a.members by {
      forall i | 0 <= i < |a.members| ensures MembersWritten(t, s.nextFamily)[i] == a.members[i] {
        MemberPrintsBack(s, t, accountId, a, i);
      }
    }
  }

  // ---------------------------------------------------------------- what is printed is in the printer's form

  /** The values that the entities let into the tables. */
  ghost predicate ValuesValid(s: Store, familyId: nat) {
    && (forall f :: f in s.families && f.id == familyId ==>
          ValidText(f.name, FAMILY_NAME_MAX_LENGTH)
          && (f.rules.Some? ==> ValidText(f.rules.value, FAMILY_RULES_MAX_LENGTH)))
    && (forall m :: m in s.members && m.familyId == familyId ==> ValidText(m.displayName, DISPLAY_NAME_MAX_LENGTH))
    && (forall l :: l in s.ledgers && l.familyId == familyId ==> LedgerValuesValid(s, l.id))
  }

  ghost predicate LedgerValuesValid(s: Store, ledgerId: nat) {
    && (forall t :: t in s.rows && t.ledgerId == ledgerId ==> ValidAmount(t.amount) && ValidReason(t.reason))
    && (ledgerId in s.bonuses ==> 1 <= s.bonuses[ledgerId].amount <= MAX_MAGNITUDE && ValidReason(s.bonuses[ledgerId].reason))
  }

  lemma ExportIsListed(s: Store, familyId: nat)
    ensures Sorted(Exported(s, familyId), ListingOrder())
  {
    SortSorts(Filter(s.members, InFamily(familyId)), ListingOrder());
    FilterKeepsSorted(ListForFamily(s.members, familyId), IsPerson(), ListingOrder());
  }

  lemma EntriesAreNumbered(own: seq<Transaction>, memberRefs: map<nat, string>)
    requires Distinct(RowIds(own))
    ensures EntriesNumbered(Entries(own, memberRefs))
  {
    forall i | 0 <= i < |own| ensures Entries(own, memberRefs)[i].ref == Ref(ENTRY_PREFIX, i + 1) {
      EntryLinks(own, memberRefs, i);
    }
  }

  lemma LedgerIsNumbered(s: Store, ledger: Ledger, memberRefs: map<nat, string>)
    requires ValidTable(s.rows, s.nextRow)
    ensures EntriesNumbered(ToLedger(s, ledger, memberRefs).transactions)
  {
    OrderedAsWritten(s.rows, s.nextRow, ledger.id);
    OwnRowIdsDistinct(s.rows, s.nextRow, ledger.id);
    EntriesAreNumbered(Filter(s.rows, InLedger(ledger.id)), memberRefs);
  }

  lemma ExportedMemberForm(s: Store, familyId: nat, i: nat)
    requires ValidMembers(s.members, s.nextMember) && ValidTable(s.rows, s.nextRow) && i < |Exported(s, familyId)|
    ensures |MembersWritten(s, familyId)| == |Exported(s, familyId)|
    ensures var m := MembersWritten(s, familyId)[i];
            && m.ref == Ref(MEMBER_PREFIX, i + 1) && m.role == Exported(s, familyId)[i].role
            && (m.ledger.Some? ==> EntriesNumbered(m.ledger.value.transactions))
  {
    hide ValidMembers, ValidTable, ToLedger, Exported, NumberedRefs, LedgersByMember, EntriesNumbered;
    var ledgers := LedgersByMember(LedgersOf(s.ledgers, familyId));
    var p := Exported(s, familyId)[i];
    ExportedDistinct(s, familyId);
    MemberAt(s, Exported(s, familyId), ledgers, i);
    if p.id in ledgers {
      LedgerIsNumbered(s, ledgers[p.id], MemberRefs(s, familyId));
    }
  }

  lemma ExportIsAsPrinted(s: Store, familyId: nat, now: int)
    requires TablesValid(s) && ValuesValid(s, familyId) && Write(s, familyId, now).Some?
    ensures AsPrinted(Write(s, familyId, now).value)
  {
    var a := Write(s, familyId, now).value;
    var persons := Exported(s, familyId);
    ExportIsListed(s, familyId);
    hide Exported, MembersWritten, EntriesNumbered, LedgerValuesValid, LedgersValid, ValidTable, ValidMembers;
    assert |persons| == 0 ==> |a.members| == 0 by { NobodyExported(s, familyId); }
    forall i | 0 <= i < |persons|
      ensures i < |a.members| == |persons| && a.members[i].ref == Ref(MEMBER_PREFIX, i + 1) && a.members[i].role == persons[i].role
      ensures a.members[i].ledger.Some? ==> EntriesNumbered(a.members[i].ledger.value.transactions)
    {
      ExportedMemberForm(s, familyId, i);
    }
    forall i, j | 0 <= i < j < |a.members| ensures RoleOrder(a.members[i].role) <= RoleOrder(a.members[j].role) {
      assert ListingOrder()(persons[i]).AtMost(ListingOrder()(persons[j]));
    }
  }

  lemma NobodyExported(s: Store, familyId: nat)
    ensures |MembersWritten(s, familyId)| == |Exported(s, familyId)|
  {
  }

  // ---------------------------------------------------------------- the field checks and the caps

  lemma RefIsAcceptable(prefix: char, n: nat)
    requires n <= MAX_ARCHIVED_TRANSACTIONS && (prefix == MEMBER_PREFIX || prefix == ENTRY_PREFIX)
    ensures RefShape(Ref(prefix, n))
  {
    assert Pow10(5) == 100_000;
    TextShape(n, 5);
    forall c | c in Ref(prefix, n) ensures RefCharacter(c) {
      assert c == prefix || c in Text(n);
    }
  }

  ghost predicate AllRefShaped(refs: map<nat, string>) {
    forall id :: id in refs ==> RefShape(refs[id])
  }

  lemma {:induction false} NumberedRefsFit(prefix: char, ids: seq<nat>)
    requires |ids| <= MAX_ARCHIVED_TRANSACTIONS && (prefix == MEMBER_PREFIX || prefix == ENTRY_PREFIX)
    ensures AllRefShaped(NumberedRefs(prefix, ids))
  {
    if ids != [] {
      hide RefShape;
      NumberedRefsFit(prefix, ids[..|ids| - 1]);
      RefIsAcceptable(prefix, |ids|);
    }
  }

  lemma EntryFits(own: seq<Transaction>, memberRefs: map<nat, string>, i: nat)
    requires |own| <= MAX_ARCHIVED_TRANSACTIONS && i < |own| && AllRefShaped(memberRefs)
    requires ValidAmount(own[i].amount) && ValidReason(own[i].reason)
    ensures EntryShape(Entries(own, memberRefs)[i])
  {
    hide RefShape;
    NumberedKeys(ENTRY_PREFIX, RowIds(own));
    NumberedRefsFit(ENTRY_PREFIX, RowIds(own));
    assert RowIds(own)[i] == own[i].id;
    hide NumberedRefs;
  }

  lemma LedgerFits(s: Store, ledger: Ledger, memberRefs: map<nat, string>)
    requires ValidTable(s.rows, s.nextRow) && LedgerValuesValid(s, ledger.id) && AllRefShaped(memberRefs)
    requires |ToLedger(s, ledger, memberRefs).transactions| <= MAX_ARCHIVED_TRANSACTIONS
    ensures LedgerShape(ToLedger(s, ledger, memberRefs))
  {
    hide AllRefShaped, EntryShape, ValidReason, ValidAmount;
    var own := Filter(s.rows, InLedger(ledger.id));
    OrderedAsWritten(s.rows, s.nextRow, ledger.id);
    FilterMembers(s.rows, InLedger(ledger.id));
    forall i | 0 <= i < |own| ensures EntryShape(Entries(own, memberRefs)[i]) {
      assert own[i] in own;
      EntryFits(own, memberRefs, i);
    }
  }

  function RowsOf(m: ArchivedMember): nat { if m.ledger.Some? then |m.ledger.value.transactions| else 0 }

  lemma {:induction false} CountCoversEach(members: seq<ArchivedMember>, i: nat)
    requires i < |members|
    ensures RowsOf(members[i]) <= TransactionCount(members)
  {
    if i < |members| - 1 {
      CountCoversEach(members[..|members| - 1], i);
    }
  }

  lemma ExportedMemberFits(s: Store, familyId: nat, i: nat)
    requires ValidTable(s.rows, s.nextRow) && ValidMembers(s.members, s.nextMember) && ValuesValid(s, familyId)
    requires |Exported(s, familyId)| <= MAX_ARCHIVED_MEMBERS && i < |Exported(s, familyId)|
    requires |MembersWritten(s, familyId)| == |Exported(s, familyId)|
    requires RowsOf(MembersWritten(s, familyId)[i]) <= MAX_ARCHIVED_TRANSACTIONS
    ensures MemberShape(MembersWritten(s, familyId)[i])
  {
    var persons, refs := Exported(s, familyId), MemberRefs(s, familyId);
    var ledgers := LedgersByMember(LedgersOf(s.ledgers, familyId));
    ExportedDistinct(s, familyId);
    MemberAt(s, persons, ledgers, i);
    ExportedMembers(s, familyId);
    assert persons[i] in persons;
    hide ValidTable, ValidMembers, LedgersByMember, LedgersOf, RefShape, LedgerShape, ToLedger, NumberedRefs, LedgerValuesValid, ValidText, Exported;
    RefIsAcceptable(MEMBER_PREFIX, i + 1);
    NumberedRefsFit(MEMBER_PREFIX, IdsOf(persons));
    if persons[i].id in ledgers {
      LedgerInDictionary(s, familyId, persons[i].id);
      LedgerFits(s, ledgers[persons[i].id], refs);
    }
  }

  /** Only the caps can keep an export of sound tables from being read back. */
  lemma ExportFits(s: Store, familyId: nat, now: int)
    requires TablesValid(s) && ValuesValid(s, familyId) && Write(s, familyId, now).Some?
    requires WithinCaps(Write(s, familyId, now).value)
    ensures DocumentAccepts(Write(s, familyId, now).value)
  {
    hide LedgersValid, ValidTable, ValidMembers, MemberShape, Exported, MembersWritten, LedgerValuesValid;
    var a := Write(s, familyId, now).value;
    NobodyExported(s, familyId);
    forall i | 0 <= i < |a.members| ensures MemberShape(a.members[i]) {
      CountCoversEach(a.members, i);
      ExportedMemberFits(s, familyId, i);
    }
  }

  // ---------------------------------------------------------------- counting the rows of a family

  function InSome(ledgerIds: set<nat>): Transaction -> bool { (t: Transaction) => t.ledgerId in ledgerIds }

  function FamilyLedgerIds(s: Store, familyId: nat): set<nat> {
    set i | 0 <= i < |s.ledgers| && s.ledgers[i].familyId == familyId :: s.ledgers[i].id
  }

  /** The rows of all the family's ledgers. */
  function FamilyRows(s: Store, familyId: nat): seq<Transaction> { Filter(s.rows, InSome(FamilyLedgerIds(s, familyId))) }

  lemma {:induction false} OneMoreLedgerCounted(rows: seq<Transaction>, ids: set<nat>, id: nat)
    requires id !in ids
    ensures |Filter(rows, InSome(ids + {id}))| == |Filter(rows, InSome(ids))| + |Filter(rows, InLedger(id))|
  {
    if rows != [] {
      OneMoreLedgerCounted(rows[..|rows| - 1], ids, id);
    }
  }

  /** The ledgers of the first n members. */
  ghost function LedgerIdsOf(persons: seq<Membership>, ledgers: map<nat, Ledger>, n: nat): set<nat>
    requires n <= |persons|
  {
    set i | 0 <= i < n && persons[i].id in ledgers :: ledgers[persons[i].id].id
  }

  ghost predicate EachItsOwn(persons: seq<Membership>, ledgers: map<nat, Ledger>) {
    forall i, j :: 0 <= i < j < |persons| && persons[i].id in ledgers && persons[j].id in ledgers ==>
      ledgers[persons[i].id].id != ledgers[persons[j].id].id
  }

  lemma LedgerRowsCounted(s: Store, ledger: Ledger, memberRefs: map<nat, string>)
    ensures |ToLedger(s, ledger, memberRefs).transactions| == |Filter(s.rows, InLedger(ledger.id))|
  {
    SortPermutes(Filter(s.rows, InLedger(ledger.id)), Newest());
    SortPermutes(ListByLedger(s.rows, ledger.id), ById());
  }

  lemma CountOneMore(members: seq<ArchivedMember>, n: nat)
    requires 0 < n <= |members|
    ensures TransactionCount(members[..n]) == TransactionCount(members[..n - 1]) + RowsOf(members[n - 1])
  {
    assert members[..n][..n - 1] == members[..n - 1];
  }

  lemma IdsOneMore(persons: seq<Membership>, ledgers: map<nat, Ledger>, n: nat)
    requires 0 < n <= |persons| && EachItsOwn(persons, ledgers)
    ensures var before, p := LedgerIdsOf(persons, ledgers, n - 1), persons[n - 1];
            if p.id in ledgers then LedgerIdsOf(persons, ledgers, n) == before + {ledgers[p.id].id} && ledgers[p.id].id !in before
            else LedgerIdsOf(persons, ledgers, n) == before
  {
  }

  lemma RowsOfWritten(s: Store, persons: seq<Membership>, ledgers: map<nat, Ledger>, i: nat)
    requires i < |persons|
    ensures RowsOf(ToMembers(s, persons, ledgers)[i]) ==
              if persons[i].id in ledgers then |Filter(s.rows, InLedger(ledgers[persons[i].id].id))| else 0
  {
    hide ToLedger, NumberedRefs;
    if persons[i].id in ledgers {
      LedgerRowsCounted(s, ledgers[persons[i].id], NumberedRefs(MEMBER_PREFIX, IdsOf(persons)));
    }
  }

  lemma {:induction false} RowsCounted(s: Store, persons: seq<Membership>, ledgers: map<nat, Ledger>, n: nat)
    requires n <= |persons| && EachItsOwn(persons, ledgers)
    ensures TransactionCount(ToMembers(s, persons, ledgers)[..n]) == |Filter(s.rows, InSome(LedgerIdsOf(persons, ledgers, n)))|
  {
    if n == 0 {
      FilterNone(s.rows, InSome(LedgerIdsOf(persons, ledgers, 0)));
    } else {
      hide TransactionCount, RowsOf, LedgerIdsOf, Filter, ToMember, EachItsOwn;
      RowsCounted(s, persons, ledgers, n - 1);
      CountOneMore(ToMembers(s, persons, ledgers), n);
      RowsOfWritten(s, persons, ledgers, n - 1);
      IdsOneMore(persons, ledgers, n);
      if persons[n - 1].id in ledgers {
        OneMoreLedgerCounted(s.rows, LedgerIdsOf(persons, ledgers, n - 1), ledgers[persons[n - 1].id].id);
      }
    }
  }

  lemma ExportedLedgersDiffer(s: Store, familyId: nat)
    requires ValidMembers(s.members, s.nextMember) && LedgersValid(s)
    ensures EachItsOwn(Exported(s, familyId), LedgersByMember(LedgersOf(s.ledgers, familyId)))
  {
    var persons, ledgers := Exported(s, familyId), LedgersByMember(LedgersOf(s.ledgers, familyId));
    ExportedDistinct(s, familyId);
    forall i, j | 0 <= i < j < |persons| && persons[i].id in ledgers && persons[j].id in ledgers
      ensures ledgers[persons[i].id].id != ledgers[persons[j].id].id
    {
      LedgerInDictionary(s, familyId, persons[i].id);
      LedgerInDictionary(s, familyId, persons[j].id);
      assert IdsOf(persons)[i] != IdsOf(persons)[j];
      var k :| 0 <= k < |s.ledgers| && s.ledgers[k] == ledgers[persons[i].id];
      var l :| 0 <= l < |s.ledgers| && s.ledgers[l] == ledgers[persons[j].id];
    }
  }

  lemma LedgerHasItsPerson(s: Store, familyId: nat, l: Ledger)
    requires LedgersValid(s) && LedgerSound(s, l) && l in s.ledgers && l.familyId == familyId
    ensures var persons := Exported(s, familyId);
            l.id in LedgerIdsOf(persons, LedgersByMember(LedgersOf(s.ledgers, familyId)), |persons|)
  {
    hide Consistent;
    var persons := Exported(s, familyId);
    var m :| m in s.members && m.id == l.membershipId && m.familyId == l.familyId && m.role.HasOwnLedger();
    ChildHasItsLedger(s, familyId, l);
    ExportedMembers(s, familyId);
    hide Exported, LedgersValid, LedgerSound, LedgersByMember;
    var i :| 0 <= i < |persons| && persons[i] == m;
  }

  lemma EveryLedgerHasItsPerson(s: Store, familyId: nat)
    requires TablesValid(s) && FamilySound(s, familyId)
    ensures var persons := Exported(s, familyId);
            LedgerIdsOf(persons, LedgersByMember(LedgersOf(s.ledgers, familyId)), |persons|) == FamilyLedgerIds(s, familyId)
  {
    hide LedgersValid, LedgerSound, ValidTable, ValidMembers, Exported, LedgersByMember;
    var persons, ledgers := Exported(s, familyId), LedgersByMember(LedgersOf(s.ledgers, familyId));
    var mine := LedgerIdsOf(persons, ledgers, |persons|);
    forall id | id in FamilyLedgerIds(s, familyId) ensures id in mine {
      var k :| 0 <= k < |s.ledgers| && s.ledgers[k].familyId == familyId && s.ledgers[k].id == id;
      LedgerHasItsPerson(s, familyId, s.ledgers[k]);
    }
    forall id | id in mine ensures id in FamilyLedgerIds(s, familyId) {
      var i :| 0 <= i < |persons| && persons[i].id in ledgers && ledgers[persons[i].id].id == id;
      LedgerInDictionary(s, familyId, persons[i].id);
    }
  }

  /** A backup carries every row of every ledger of the family, each once. */
  lemma ExportCarriesEveryRow(s: Store, familyId: nat)
    requires TablesValid(s) && FamilySound(s, familyId)
    ensures TransactionCount(MembersWritten(s, familyId)) == |FamilyRows(s, familyId)|
  {
    hide ValidTable, ValidMembers, LedgersValid, FamilySound, Exported, LedgersByMember, LedgersOf, EachItsOwn,
         LedgerIdsOf, FamilyLedgerIds, Filter, TransactionCount;
    var persons, ledgers := Exported(s, familyId), LedgersByMember(LedgersOf(s.ledgers, familyId));
    ExportedLedgersDiffer(s, familyId);
    RowsCounted(s, persons, ledgers, |persons|);
    EveryLedgerHasItsPerson(s, familyId);
    var members := MembersWritten(s, familyId);
    assert members[..|persons|] == members;
  }

  /** What the writer makes of sound tables meets the file's schema exactly when the family is not
      larger than the caps. */
  lemma WrittenFileFitsIff(s: Store, familyId: nat, now: int)
    requires TablesValid(s) && FamilySound(s, familyId) && ValuesValid(s, familyId)
    ensures Write(s, familyId, now).Some?
    ensures DocumentAccepts(Write(s, familyId, now).value) && Importable(Write(s, familyId, now).value) <==>
              |Exported(s, familyId)| <= MAX_ARCHIVED_MEMBERS && |FamilyRows(s, familyId)| <= MAX_ARCHIVED_TRANSACTIONS
  {
    hide TablesValid, FamilySound, ValuesValid, Importable, DocumentShape, FamilyRows, MembersWritten, Exported;
    EveryExportIsImportable(s, familyId, now);
    ExportCarriesEveryRow(s, familyId);
    NobodyExported(s, familyId);
    if WithinCaps(Write(s, familyId, now).value) {
      ExportFits(s, familyId, now);
    }
  }

  /** Export, restore, export is a fixpoint: the family made from a backup prints the backup again,
      word for word, up to the time of printing. */
  lemma ExportRestoreExport(s: Store, familyId: nat, now: int, target: Store, accountId: nat, later: int)
    requires TablesValid(s) && FamilySound(s, familyId) && ValuesValid(s, familyId)
    requires |Exported(s, familyId)| <= MAX_ARCHIVED_MEMBERS && |FamilyRows(s, familyId)| <= MAX_ARCHIVED_TRANSACTIONS
    requires TablesValid(target) && ListForAccount(target.members, accountId) == []
    ensures Write(s, familyId, now).Some?
    ensures var a := Write(s, familyId, now).value;
            var restored := Restore(target, accountId, a);
            restored.Ok? && Write(restored.value, target.nextFamily, later) == Some(a.(exportedAt := later))
  {
    hide TablesValid, FamilySound, ValuesValid, Importable, DocumentShape, AsPrinted, Restore, Write, Exported, FamilyRows;
    WrittenFileFitsIff(s, familyId, now);
    ExportIsAsPrinted(s, familyId, now);
    RestoredBackupPrintsBack(target, accountId, Write(s, familyId, now).value, later);
  }

  // ---------------------------------------------------------------- the restored family is sound again

  lemma RestoredTablesAreValid(s: Store, t: Store, accountId: nat, a: Archive)
    requires TablesValid(s) && ImportDone(s, t, accountId, a)
    ensures TablesValid(t)
  {
    hide LedgersRestored, ValidTable;
    var made := RestoredMembers(a.members, |a.members|, s.nextFamily, accountId, s.nextMember);
    assert t.members == s.members + made;
    assert ValidMembers(t.members, t.nextMember);
    assert LedgersValid(t);
  }

  /** Replaying gives the rows other names and keeps everything else that makes them a history. */
  lemma ReplayedHistoryIsConsistent(entries: seq<ArchivedTransaction>, ledgerId: nat, first: nat,
                                    memberIds: map<string, nat>)
    requires Replayable(entries, memberIds)
    ensures Consistent(MovesOf(RestoredRows(entries, |entries|, ledgerId, first, memberIds)))
  {
    var own := RestoredRows(entries, |entries|, ledgerId, first, memberIds);
    var h, g := Moves(entries), MovesOf(own);
    assert DistinctKeys(g);
    ReplayableRefsDistinct(entries);
    forall i, link | 0 <= i < |h| && link == Some(h[i].key) ensures LinkTo(entries, first, link) == Some(g[i].key) {
      IndexOfDistinct(RefsOfEntries(entries), i);
    }
    hide Consistent, IndexOf, Replayable;
    RenamedHistoryIsConsistent(h, g);
  }

  lemma RecorderIsGuardianAgain(s: Store, t: Store, accountId: nat, a: Archive, link: Option<string>)
    requires MembersOf(t) == WithMembers(MembersOf(s), a.members, |a.members|, s.nextFamily, accountId)
    requires Distinct(RefsOf(a.members)) && (link.Some? ==> link.value in Recorders(a.members))
    ensures var id := RecorderId(MemberIds(a.members, s.nextMember), link);
            id.Some? ==> GuardianOf(t, s.nextFamily, id.value)
  {
    if link.Some? {
      var k :| 0 <= k < |a.members| && a.members[k].role.IsGuardian() && a.members[k].ref == link.value;
      MemberIdAt(a.members, s.nextMember, k);
      assert t.members[|s.members| + k] == RestoredMember(a.members, k, s.nextFamily, accountId, s.nextMember);
    }
  }

  lemma RestoredLedgerIsSound(s: Store, t: Store, accountId: nat, a: Archive, i: nat, ledger: Ledger, first: nat)
    requires MembersOf(t) == WithMembers(MembersOf(s), a.members, |a.members|, s.nextFamily, accountId)
    requires SoundFamily(a.members) && DocumentShape(a) && i < |a.members| && a.members[i].ledger.Some?
    requires ledger.familyId == s.nextFamily && ledger.membershipId == s.nextMember + i
    requires LedgerRestoredAs(LedgersIn(t), s.nextFamily, a.members[i].ledger.value, ledger.membershipId,
                              MemberIds(a.members, s.nextMember), ledger.id, first)
    ensures LedgerSound(t, ledger)
  {
    var ids, archived := MemberIds(a.members, s.nextMember), a.members[i].ledger.value;
    MemberReplayable(a, s.nextMember, i);
    var own := RestoredRows(archived.transactions, |archived.transactions|, ledger.id, first, ids);
    ReplayedHistoryIsConsistent(archived.transactions, ledger.id, first, ids);
    assert ImportableMember(a.members[i], Recorders(a.members));
    assert t.members[|s.members| + i] == RestoredMember(a.members, i, s.nextFamily, accountId, s.nextMember);
    FilterMembers(t.rows, InLedger(ledger.id));
    hide Consistent, Replayable, GuardianOf, SoundFamily, DocumentShape;
    forall row | row in t.rows && row.ledgerId == ledger.id && row.grantedBy.Some?
      ensures GuardianOf(t, ledger.familyId, row.grantedBy.value)
    {
      var k :| 0 <= k < |own| && own[k] == row;
      RefsAreDistinct(a);
      RecorderIsGuardianAgain(s, t, accountId, a, archived.transactions[k].grantedBy);
    }
  }

  lemma RefsAreDistinct(a: Archive)
    requires SoundFamily(a.members)
    ensures Distinct(RefsOf(a.members))
  {
  }

  lemma RestoredOwnerIsOne(s: Store, t: Store, accountId: nat, a: Archive)
    requires MembersOf(t) == WithMembers(MembersOf(s), a.members, |a.members|, s.nextFamily, accountId)
    requires forall m :: m in s.members ==> m.familyId != s.nextFamily
    requires |Filter(a.members, Administers())| == 1
    ensures |Filter(Filter(t.members, InFamily(s.nextFamily)), HasRole(Owner))| == 1
  {
    var made := RestoredMembers(a.members, |a.members|, s.nextFamily, accountId, s.nextMember);
    assert Filter(t.members, InFamily(s.nextFamily)) == made by {
      FilterAppend(s.members, made, InFamily(s.nextFamily));
      FilterNone(s.members, InFamily(s.nextFamily));
      FilterAll(made, InFamily(s.nextFamily));
    }
    OwnersSurviveMapping(s, made, a.members);
  }

  lemma EveryRestoredLedgerIsSound(s: Store, t: Store, accountId: nat, a: Archive, l: Ledger)
    requires ImportDone(s, t, accountId, a) && SoundFamily(a.members) && DocumentShape(a)
    requires l in t.ledgers && l.familyId == s.nextFamily
    ensures LedgerSound(t, l)
  {
    hide LedgersBelow, SoundFamily, DocumentShape, LedgerRestoredAs, ValidTable;
    var k :| 0 <= k < |t.ledgers| && t.ledgers[k] == l;
    var i :| 0 <= i < |a.members| && a.members[i].ledger.Some? && t.ledgers[k].membershipId == s.nextMember + i;
    var ledger, row := RestoredLedgerFound(t, s.nextFamily, a, s.nextMember, MemberIds(a.members, s.nextMember), i);
    LedgerInDictionary(t, s.nextFamily, s.nextMember + i);
    assert ledger == l;
    RestoredLedgerIsSound(s, t, accountId, a, i, ledger, row);
  }

  lemma RestoredLedgerValues(t: Store, archived: ArchivedLedger, ledger: Ledger, first: nat, memberIds: map<string, nat>)
    requires LedgerRestoredAs(LedgersIn(t), ledger.familyId, archived, ledger.membershipId, memberIds, ledger.id, first)
    requires LedgerShape(archived)
    ensures LedgerValuesValid(t, ledger.id)
  {
    hide ValidReason, ValidAmount, RefShape;
    var entries := archived.transactions;
    var own := RestoredRows(entries, |entries|, ledger.id, first, memberIds);
    FilterMembers(t.rows, InLedger(ledger.id));
    forall row | row in t.rows && row.ledgerId == ledger.id ensures ValidAmount(row.amount) && ValidReason(row.reason) {
      var k :| 0 <= k < |own| && own[k] == row;
      assert EntryShape(entries[k]);
    }
  }

  lemma EveryRestoredLedgersValues(s: Store, t: Store, accountId: nat, a: Archive, l: Ledger)
    requires ImportDone(s, t, accountId, a) && DocumentShape(a) && l in t.ledgers && l.familyId == s.nextFamily
    ensures LedgerValuesValid(t, l.id)
  {
    hide LedgersBelow, LedgerRestoredAs, ValidTable, LedgerShape, ValidText;
    var k :| 0 <= k < |t.ledgers| && t.ledgers[k] == l;
    var i :| 0 <= i < |a.members| && a.members[i].ledger.Some? && t.ledgers[k].membershipId == s.nextMember + i;
    assert MemberShape(a.members[i]);
    var ledger, row := RestoredLedgerFound(t, s.nextFamily, a, s.nextMember, MemberIds(a.members, s.nextMember), i);
    LedgerInDictionary(t, s.nextFamily, s.nextMember + i);
    assert ledger == l;
    RestoredLedgerValues(t, a.members[i].ledger.value, l, row, MemberIds(a.members, s.nextMember));
  }

  lemma RestoredNamesAreValid(s: Store, t: Store, accountId: nat, a: Archive, m: Membership)
    requires MembersOf(t) == WithMembers(MembersOf(s), a.members, |a.members|, s.nextFamily, accountId) && DocumentShape(a)
    requires (forall m :: m in s.members ==> m.familyId != s.nextFamily) && m in t.members && m.familyId == s.nextFamily
    ensures ValidText(m.displayName, DISPLAY_NAME_MAX_LENGTH)
  {
    hide ValidText, LedgerShape;
    var k :| 0 <= k < |t.members| && t.members[k] == m;
    assert k < |s.members| ==> m in s.members;
    assert MemberShape(a.members[k - |s.members|]);
  }

  /** What was accepted on the way in is acceptable on the way out. */
  lemma RestoredValuesAreValid(s: Store, t: Store, accountId: nat, a: Archive)
    requires TablesValid(s) && ImportDone(s, t, accountId, a) && DocumentShape(a)
    ensures ValuesValid(t, s.nextFamily)
  {
    TablesBeforeImport(s);
    hide LedgersBelow, LedgersRestored, LedgerTablesValid, LedgersValid, ValidTable, LedgerValuesValid, MemberShape, ValidMembers, WithMembers;
    forall m | m in t.members && m.familyId == s.nextFamily ensures ValidText(m.displayName, DISPLAY_NAME_MAX_LENGTH) {
      RestoredNamesAreValid(s, t, accountId, a, m);
    }
    forall l | l in t.ledgers && l.familyId == s.nextFamily ensures LedgerValuesValid(t, l.id) {
      EveryRestoredLedgersValues(s, t, accountId, a, l);
    }
    forall f | f in t.families && f.id == s.nextFamily ensures f == Family(s.nextFamily, a.familyName, NormalRules(a.familyRules)) {
      var k :| 0 <= k < |t.families| && t.families[k] == f;
      assert k == |s.families|;
    }
  }

  /** A file that passed the field checks is restored exactly when the checker accepts it and the
      importing account has no family yet. The tables stay valid, and the restored family is as sound
      as one that was built step by step, with values that the entities let in: it can be used, and
      exported, like any other. */
  lemma RestoreSucceedsAndIsSound(s: Store, accountId: nat, a: Archive)
    requires TablesValid(s) && DocumentShape(a)
    ensures Restore(s, accountId, a).Ok? <==> Importable(a) && ListForAccount(s.members, accountId) == []
    ensures Restore(s, accountId, a).Ok? ==>
              var t := Restore(s, accountId, a).value;
              TablesValid(t) && FamilySound(t, s.nextFamily) && ValuesValid(t, s.nextFamily)
  {
    hide DocumentShape, TablesValid, FamilySound, ValuesValid, ImportDone;
    if Importable(a) && ListForAccount(s.members, accountId) == [] {
      AcceptedBackupIsRestored(s, accountId, a);
      ImportedFamilyIsSound(s, Restore(s, accountId, a).value, accountId, a);
      RestoredValuesAreValid(s, Restore(s, accountId, a).value, accountId, a);
    }
  }

  lemma RestoredChildrenHaveLedgers(s: Store, t: Store, accountId: nat, a: Archive)
    requires (forall m :: m in s.members ==> m.familyId != s.nextFamily) && SoundFamily(a.members)
    requires MembersOf(t) == WithMembers(MembersOf(s), a.members, |a.members|, s.nextFamily, accountId)
    requires LedgersRestored(LedgersIn(t), s.nextFamily, a.members, |a.members|, s.nextMember, MemberIds(a.members, s.nextMember))
    ensures forall m :: m in t.members && m.familyId == s.nextFamily && m.role.HasOwnLedger() ==>
              exists l :: l in t.ledgers && l.membershipId == m.id && l.familyId == s.nextFamily
  {
  }

  lemma ImportedFamilyIsSound(s: Store, t: Store, accountId: nat, a: Archive)
    requires TablesValid(s) && ImportDone(s, t, accountId, a) && SoundFamily(a.members) && DocumentShape(a)
    ensures TablesValid(t) && FamilySound(t, s.nextFamily)
  {
    hide DocumentShape, TablesValid, LedgerSound, LedgersRestored, LedgerTablesValid, LedgersBelow, WithMembers, ImportableMember;
    RestoredTablesAreValid(s, t, accountId, a);
    TablesBeforeImport(s);
    RestoredOwnerIsOne(s, t, accountId, a);
    NewFamilyIsFound(s, t, accountId, a);
    hide SoundFamily;
    RestoredChildrenHaveLedgers(s, t, accountId, a);
    forall l | l in t.ledgers && l.familyId == s.nextFamily ensures LedgerSound(t, l) {
      EveryRestoredLedgerIsSound(s, t, accountId, a, l);
    }
  }

  lemma NewFamilyIsFound(s: Store, t: Store, accountId: nat, a: Archive)
    requires ImportDone(s, t, accountId, a)
    ensures FindFamily(t.families, s.nextFamily) == Some(Family(s.nextFamily, a.familyName, NormalRules(a.familyRules)))
  {
  }

  // ---------------------------------------------------------------- nobody else is touched

  /** What a family other than the new one sees of the ledger tables: its ledgers, their rows, their bonus. */
  ghost predicate SameForOthers(t: LedgerTables, u: LedgerTables, newFamily: nat, familyId: nat, l: nat) {
    && t.next <= u.next
    && (familyId != newFamily ==> LedgersOf(u.ledgers, familyId) == LedgersOf(t.ledgers, familyId))
    && (l < t.next ==> Filter(u.table.rows, InLedger(l)) == Filter(t.table.rows, InLedger(l)) && ToBonus(u.bonuses, l) == ToBonus(t.bonuses, l))
  }

  lemma NewLedgerIsNotTheirs(t: LedgerTables, newFamily: nat, archived: ArchivedLedger, membershipId: nat, memberIds: map<string, nat>,
                             familyId: nat, l: nat)
    ensures SameForOthers(t, AfterLedger(t, newFamily, archived, membershipId, memberIds), newFamily, familyId, l)
  {
    hide Filter, ReplayedTable, RestoredRows;
    FilterSnoc(t.ledgers, Ledger(t.next, newFamily, membershipId), OfFamily(familyId));
    assert Filter(t.ledgers, OfFamily(familyId)) + [] == Filter(t.ledgers, OfFamily(familyId));
    RestoredRowsOfLedger(t.table, archived.transactions, t.next, memberIds, l);
    assert Filter(t.table.rows, InLedger(l)) + [] == Filter(t.table.rows, InLedger(l));
  }

  lemma {:induction false} EarlierTablesStay(t: LedgerTables, newFamily: nat, members: seq<ArchivedMember>, n: nat, first: nat,
                                             memberIds: map<string, nat>, familyId: nat, l: nat)
    requires n <= |members| && AllReplayable(members, first, memberIds) && Importing(t, newFamily, members, 0, first, memberIds)
    ensures RestoreLedgers(t, newFamily, members, n, memberIds).Ok?
    ensures SameForOthers(t, RestoreLedgers(t, newFamily, members, n, memberIds).value, newFamily, familyId, l)
  {
    hide LedgersRestored, LedgersBelow, LedgerReplayable, AfterLedger, LedgerTablesValid;
    LedgersAreRestored(t, newFamily, members, n, first, memberIds);
    if n > 0 {
      EarlierTablesStay(t, newFamily, members, n - 1, first, memberIds, familyId, l);
      LedgersAreRestored(t, newFamily, members, n - 1, first, memberIds);
      var u := RestoreLedgers(t, newFamily, members, n - 1, memberIds).value;
      if members[n - 1].ledger.Some? {
        LedgerIsRestored(u, newFamily, members[n - 1], memberIds);
        NewLedgerIsNotTheirs(u, newFamily, members[n - 1].ledger.value, memberIds[members[n - 1].ref], memberIds, familyId, l);
      }
    }
  }

  lemma ImportReplays(s: Store, a: Archive)
    requires TablesValid(s) && DocumentShape(a) && SoundFamily(a.members)
    ensures AllReplayable(a.members, s.nextMember, MemberIds(a.members, s.nextMember))
    ensures Importing(LedgersIn(s), s.nextFamily, a.members, 0, s.nextMember, MemberIds(a.members, s.nextMember))
  {
    TablesBeforeImport(s);
    hide SoundFamily, DocumentShape, LedgerReplayable, TablesValid, LedgerTablesValid, LedgersBelow, MemberIds;
    forall i | 0 <= i < |a.members|
      ensures LedgerReplayable(a.members[i], MemberIds(a.members, s.nextMember))
              && a.members[i].ref in MemberIds(a.members, s.nextMember)
              && MemberIds(a.members, s.nextMember)[a.members[i].ref] == s.nextMember + i
    {
      ImportableLedgersReplay(a, s.nextMember, i);
    }
  }

  lemma OthersAreListedAsBefore(s: Store, t: Store, accountId: nat, a: Archive, familyId: nat)
    requires MembersOf(t) == WithMembers(MembersOf(s), a.members, |a.members|, s.nextFamily, accountId) && familyId != s.nextFamily
    ensures Exported(t, familyId) == Exported(s, familyId)
  {
    var made := RestoredMembers(a.members, |a.members|, s.nextFamily, accountId, s.nextMember);
    FilterAppend(s.members, made, InFamily(familyId));
    FilterNone(made, InFamily(familyId));
    assert Filter(s.members, InFamily(familyId)) + [] == Filter(s.members, InFamily(familyId));
  }

  lemma TheirMemberIsWrittenAsBefore(s: Store, t: Store, newFamily: nat, familyId: nat, i: nat)
    requires LedgersValid(s) && Exported(t, familyId) == Exported(s, familyId) && i < |Exported(s, familyId)| && familyId != newFamily
    requires forall l: nat :: SameForOthers(LedgersIn(s), LedgersIn(t), newFamily, familyId, l)
    ensures MembersWritten(t, familyId)[i] == MembersWritten(s, familyId)[i]
  {
    assert SameForOthers(LedgersIn(s), LedgersIn(t), newFamily, familyId, 0);
    var ledgers := LedgersByMember(LedgersOf(s.ledgers, familyId));
    var p := Exported(s, familyId)[i];
    if p.id in ledgers {
      LedgerInDictionary(s, familyId, p.id);
      assert ledgers[p.id].id < s.nextLedger;
      assert SameForOthers(LedgersIn(s), LedgersIn(t), newFamily, familyId, ledgers[p.id].id);
      hide LedgersByMember, LedgersOf, Exported, NumberedRefs, Filter, SortBy, Entries, ToBonus, LedgersValid;
      assert ToLedger(t, ledgers[p.id], MemberRefs(s, familyId)) == ToLedger(s, ledgers[p.id], MemberRefs(s, familyId));
    }
  }

  lemma OthersTablesStay(s: Store, accountId: nat, a: Archive, familyId: nat, l: nat)
    requires TablesValid(s) && DocumentShape(a) && Restore(s, accountId, a).Ok?
    ensures SameForOthers(LedgersIn(s), LedgersIn(Restore(s, accountId, a).value), s.nextFamily, familyId, l)
  {
    hide TablesValid, DocumentShape, SoundFamily, AllReplayable, Importing, SameForOthers, MemberIds;
    ImportReplays(s, a);
    EarlierTablesStay(LedgersIn(s), s.nextFamily, a.members, |a.members|, s.nextMember, MemberIds(a.members, s.nextMember), familyId, l);
  }

  lemma OthersMembersAreWrittenAsBefore(s: Store, t: Store, newFamily: nat, familyId: nat)
    requires LedgersValid(s) && Exported(t, familyId) == Exported(s, familyId) && familyId != newFamily
    requires forall l: nat :: SameForOthers(LedgersIn(s), LedgersIn(t), newFamily, familyId, l)
    ensures MembersWritten(t, familyId) == MembersWritten(s, familyId)
  {
    hide LedgersValid, SameForOthers, Exported;
    NobodyExported(s, familyId);
    NobodyExported(t, familyId);
    hide MembersWritten;
    forall i | 0 <= i < |MembersWritten(s, familyId)| ensures MembersWritten(t, familyId)[i] == MembersWritten(s, familyId)[i] {
      TheirMemberIsWrittenAsBefore(s, t, newFamily, familyId, i);
    }
  }

  lemma OthersFamilyStays(families: seq<Family>, more: Family, familyId: nat)
    requires more.id != familyId
    ensures FindFamily(families + [more], familyId) == FindFamily(families, familyId)
  {
    assert (families + [more])[..|families + [more]| - 1] == families;
  }

  /** Importing a backup never changes what any other family would export. */
  lemma RestoreLeavesOtherFamilies(s: Store, accountId: nat, a: Archive, familyId: nat, now: int)
    requires TablesValid(s) && DocumentShape(a) && familyId != s.nextFamily && Restore(s, accountId, a).Ok?
    ensures Write(Restore(s, accountId, a).value, familyId, now) == Write(s, familyId, now)
  {
    var t := Restore(s, accountId, a).value;
    forall l: nat ensures SameForOthers(LedgersIn(s), LedgersIn(t), s.nextFamily, familyId, l) {
      OthersTablesStay(s, accountId, a, familyId, l);
    }
    AcceptedBackupIsRestored(s, accountId, a);
    hide Restore, DocumentShape, SameForOthers, LedgersRestored, LedgersBelow, LedgerTablesValid, LedgersValid, WithMembers,
         ValidTable, ValidMembers, Exported, MembersWritten, FindFamily, Importable;
    OthersAreListedAsBefore(s, t, accountId, a, familyId);
    OthersMembersAreWrittenAsBefore(s, t, s.nextFamily, familyId);
    OthersFamilyStays(s.families, Family(s.nextFamily, a.familyName, NormalRules(a.familyRules)), familyId);
  }
}
