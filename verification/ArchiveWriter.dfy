/** Printing a stored family as a backup file. */
module ArchiveWriter {
  import opened Basics
  import opened Sorting
  import opened Decimal
  import opened LedgerHistory
  import opened FamilyArchive
  import opened PointTransactions
  import opened Memberships
  import opened LedgerUseCases
  import opened FamilyStore
  import opened ArchiveRules

  const MEMBER_PREFIX := 'm'
  const ENTRY_PREFIX := 't'

  function IsPerson(): Membership -> bool { (m: Membership) => !m.role.IsDisplay() }

  /** The members a backup carries, in the order the screens list them. */
  function Exported(s: Store, familyId: nat): seq<Membership> {
    Filter(ListForFamily(s.members, familyId), IsPerson())
  }

  /** A dictionary from ids to refs, numbered from 1 in the given order. */
  function NumberedRefs(prefix: char, ids: seq<nat>): map<nat, string> {
    if ids == [] then map[]
    else NumberedRefs(prefix, ids[..|ids| - 1])[ids[|ids| - 1] := Ref(prefix, |ids|)]
  }

  /** A dictionary from member ids to their ledgers. */
  function LedgersByMember(ledgers: seq<Ledger>): map<nat, Ledger> {
    if ledgers == [] then map[]
    else LedgersByMember(ledgers[..|ledgers| - 1])[ledgers[|ledgers| - 1].membershipId := ledgers[|ledgers| - 1]]
  }

  function RowIds(rows: seq<Transaction>): seq<nat> { seq(|rows|, i requires 0 <= i < |rows| => rows[i].id) }

  function RefOf(id: Option<nat>, refs: map<nat, string>): Option<string> {
    if id.Some? && id.value in refs then Some(refs[id.value]) else None
  }

  function ToEntry(t: Transaction, entryRefs: map<nat, string>, memberRefs: map<nat, string>): ArchivedTransaction
    requires t.id in entryRefs
  {
    ArchivedTransaction(entryRefs[t.id], t.amount, t.reason, t.occurredAt,
                        RefOf(t.grantedBy, memberRefs), RefOf(t.reversalOf, entryRefs), RefOf(t.corrects, entryRefs))
  }

  lemma {:induction false} NumberedKeys(prefix: char, ids: seq<nat>)
    ensures NumberedRefs(prefix, ids).Keys == set i | 0 <= i < |ids| :: ids[i]
  {
    if ids != [] {
      NumberedKeys(prefix, ids[..|ids| - 1]);
      assert ids == ids[..|ids| - 1] + [ids[|ids| - 1]];
    }
  }

  function Entries(ordered: seq<Transaction>, memberRefs: map<nat, string>): seq<ArchivedTransaction> {
    var refs := NumberedRefs(ENTRY_PREFIX, RowIds(ordered));
    seq(|ordered|, i requires 0 <= i < |ordered| =>
      NumberedKeys(ENTRY_PREFIX, RowIds(ordered));
      assert RowIds(ordered)[i] == ordered[i].id;
      ToEntry(ordered[i], refs, memberRefs))
  }

  function ToBonus(bonuses: map<nat, DailyBonus>, ledgerId: nat): Option<ArchivedDailyBonus> {
    if ledgerId !in bonuses then None
    else
      var b := bonuses[ledgerId];
      Some(ArchivedDailyBonus(b.amount, b.reason, b.startsOn, b.grantedThrough))
  }

  /** The history arrives newest first and is put into the order of the ids: a target always has a
      smaller id than the row that points at it, whatever the two rows say happened when. */
  function Ordered(rows: seq<Transaction>, ledgerId: nat): seq<Transaction> {
    SortBy(ListByLedger(rows, ledgerId), ById())
  }

  function ToLedger(s: Store, ledger: Ledger, memberRefs: map<nat, string>): ArchivedLedger {
    ArchivedLedger(Entries(Ordered(s.rows, ledger.id), memberRefs), ToBonus(s.bonuses, ledger.id))
  }

  function ToMember(s: Store, m: Membership, ledgers: map<nat, Ledger>, memberRefs: map<nat, string>): ArchivedMember
    requires m.id in memberRefs
  {
    ArchivedMember(memberRefs[m.id], m.displayName, m.role,
                   if m.id in ledgers then Some(ToLedger(s, ledgers[m.id], memberRefs)) else None)
  }

  function ToMembers(s: Store, members: seq<Membership>, ledgers: map<nat, Ledger>): seq<ArchivedMember> {
    var refs := NumberedRefs(MEMBER_PREFIX, IdsOf(members));
    seq(|members|, i requires 0 <= i < |members| =>
      NumberedKeys(MEMBER_PREFIX, IdsOf(members));
      assert IdsOf(members)[i] == members[i].id;
      ToMember(s, members[i], ledgers, refs))
  }

  /** The members part of the file. */
  function MembersWritten(s: Store, familyId: nat): seq<ArchivedMember> {
    ToMembers(s, Exported(s, familyId), LedgersByMember(LedgersOf(s.ledgers, familyId)))
  }

  function MemberRefs(s: Store, familyId: nat): map<nat, string> {
    NumberedRefs(MEMBER_PREFIX, IdsOf(Exported(s, familyId)))
  }

  function Write(s: Store, familyId: nat, now: int): Option<Archive> {
    var family := FindFamily(s.families, familyId);
    if family.None? then None
    else
      Some(Archive(ARCHIVE_FORMAT, ARCHIVE_VERSION, now, family.value.name, family.value.rules,
                   MembersWritten(s, familyId)))
  }

  // ---------------------------------------------------------------- reading the dictionaries

  lemma {:induction false} NumberedRefAt(prefix: char, ids: seq<nat>, i: nat)
    requires Distinct(ids) && i < |ids|
    ensures ids[i] in NumberedRefs(prefix, ids) && NumberedRefs(prefix, ids)[ids[i]] == Ref(prefix, i + 1)
  {
    if i < |ids| - 1 {
      NumberedRefAt(prefix, ids[..|ids| - 1], i);
      assert ids[i] != ids[|ids| - 1];
    }
  }

  lemma {:induction false} LedgersByMemberAt(ledgers: seq<Ledger>, i: nat)
    requires forall a, b :: 0 <= a < b < |ledgers| ==> ledgers[a].membershipId != ledgers[b].membershipId
    requires i < |ledgers|
    ensures ledgers[i].membershipId in LedgersByMember(ledgers) && LedgersByMember(ledgers)[ledgers[i].membershipId] == ledgers[i]
  {
    if i < |ledgers| - 1 {
      LedgersByMemberAt(ledgers[..|ledgers| - 1], i);
    }
  }

  lemma {:induction false} LedgersByMemberFrom(ledgers: seq<Ledger>)
    ensures forall id :: id in LedgersByMember(ledgers) ==>
              LedgersByMember(ledgers)[id] in ledgers && LedgersByMember(ledgers)[id].membershipId == id
  {
    if ledgers != [] {
      LedgersByMemberFrom(ledgers[..|ledgers| - 1]);
      assert ledgers == ledgers[..|ledgers| - 1] + [ledgers[|ledgers| - 1]];
    }
  }

  /** The rows of one ledger in the order they were written. */
  lemma OrderedAsWritten(rows: seq<Transaction>, next: nat, ledgerId: nat)
    requires ValidTable(rows, next)
    ensures Ordered(rows, ledgerId) == Filter(rows, InLedger(ledgerId))
  {
    var own := Filter(rows, InLedger(ledgerId));
    var at := FilterPositions(rows, InLedger(ledgerId));
    NewestDistinguishes(rows, next, InLedger(ledgerId));
    SortPermutes(own, Newest());
    SameElementsDistinguish(own, ListByLedger(rows, ledgerId), ById());
    SortIsTheOnlyOrder(ListByLedger(rows, ledgerId), own, ById());
  }

  // ---------------------------------------------------------------- every export is importable

  /** The ref of entry i, and where a link of the stored row leads in the file. */
  lemma EntryLinks(own: seq<Transaction>, memberRefs: map<nat, string>, i: nat)
    requires Distinct(RowIds(own)) && i < |own|
    ensures Entries(own, memberRefs)[i].ref == Ref(ENTRY_PREFIX, i + 1)
    ensures forall j :: 0 <= j < |own| && own[i].reversalOf == Some(own[j].id) ==>
              Entries(own, memberRefs)[i].reverses == Some(Ref(ENTRY_PREFIX, j + 1))
    ensures forall j :: 0 <= j < |own| && own[i].corrects == Some(own[j].id) ==>
              Entries(own, memberRefs)[i].corrects == Some(Ref(ENTRY_PREFIX, j + 1))
    ensures Entries(own, memberRefs)[i].reverses.Some? ==> own[i].reversalOf.Some?
    ensures Entries(own, memberRefs)[i].corrects.Some? ==> own[i].corrects.Some?
  {
    NumberedRefAt(ENTRY_PREFIX, RowIds(own), i);
    forall j | 0 <= j < |own| ensures own[j].id in NumberedRefs(ENTRY_PREFIX, RowIds(own))
                                   && NumberedRefs(ENTRY_PREFIX, RowIds(own))[own[j].id] == Ref(ENTRY_PREFIX, j + 1) {
      NumberedRefAt(ENTRY_PREFIX, RowIds(own), j);
      assert RowIds(own)[j] == own[j].id;
    }
  }

  lemma EntriesKeepShape(own: seq<Transaction>, memberRefs: map<nat, string>)
    requires Distinct(RowIds(own)) && Consistent(MovesOf(own))
    ensures SameShape(MovesOf(own), Moves(Entries(own, memberRefs)))
    ensures DistinctKeys(Moves(Entries(own, memberRefs)))
  {
    var h, entries := MovesOf(own), Entries(own, memberRefs);
    var g := Moves(entries);
    forall i, j | 0 <= i < |g| && 0 <= j < |g| && g[i].key == g[j].key ensures i == j {
      EntryLinks(own, memberRefs, i);
      EntryLinks(own, memberRefs, j);
      RefInjective(ENTRY_PREFIX, i + 1, j + 1);
    }
    forall i | 0 <= i < |h| ensures (h[i].reverses.Some? <==> g[i].reverses.Some?) && (h[i].corrects.Some? <==> g[i].corrects.Some?) {
      EntryLinks(own, memberRefs, i);
      assert Writable(h, i);
      if h[i].reverses.Some? {
        var j :| 0 <= j < i && h[j].key == h[i].reverses.value;
        assert own[i].reversalOf == Some(own[j].id);
      }
      if h[i].corrects.Some? {
        var j :| 0 <= j < i && h[j].key == h[i].corrects.value;
        assert own[i].corrects == Some(own[j].id);
      }
    }
    forall i, j | 0 <= i < |h| && 0 <= j < |h| && h[i].reverses == Some(h[j].key) ensures g[i].reverses == Some(g[j].key) {
      EntryLinks(own, memberRefs, i);
      EntryLinks(own, memberRefs, j);
      assert own[i].reversalOf == Some(own[j].id);
    }
    forall i, j | 0 <= i < |h| && 0 <= j < |h| && h[i].corrects == Some(h[j].key) ensures g[i].corrects == Some(g[j].key) {
      EntryLinks(own, memberRefs, i);
      EntryLinks(own, memberRefs, j);
      assert own[i].corrects == Some(own[j].id);
    }
  }

  lemma OwnRowIdsDistinct(rows: seq<Transaction>, next: nat, ledgerId: nat)
    requires ValidTable(rows, next)
    ensures Distinct(RowIds(Filter(rows, InLedger(ledgerId))))
  {
    var at := FilterPositions(rows, InLedger(ledgerId));
  }

  lemma ExportedMembers(s: Store, familyId: nat)
    ensures forall m :: m in Exported(s, familyId) <==> m in s.members && m.familyId == familyId && !m.role.IsDisplay()
  {
    FilterMembers(s.members, InFamily(familyId));
    SortPermutes(Filter(s.members, InFamily(familyId)), ListingOrder());
    FilterMembers(ListForFamily(s.members, familyId), IsPerson());
  }

  lemma RisingIsDistinct(members: seq<Membership>)
    requires forall i, j :: 0 <= i < j < |members| ==> members[i].id < members[j].id
    ensures Distinct(members)
  {
  }

  lemma ExportedDistinct(s: Store, familyId: nat)
    requires ValidMembers(s.members, s.nextMember)
    ensures Distinct(IdsOf(Exported(s, familyId)))
  {
    var persons := Exported(s, familyId);
    RisingIsDistinct(s.members);
    FilterKeepsDistinct(s.members, InFamily(familyId));
    SortPermutes(Filter(s.members, InFamily(familyId)), ListingOrder());
    DistinctPermutation(Filter(s.members, InFamily(familyId)), ListForFamily(s.members, familyId));
    FilterKeepsDistinct(ListForFamily(s.members, familyId), IsPerson());
    ExportedMembers(s, familyId);
    forall i, j | 0 <= i < j < |persons| ensures persons[i].id != persons[j].id {
      assert persons[i] in persons && persons[j] in persons;
      if persons[i].id == persons[j].id {
        SameIdSameMember(s.members, s.nextMember, persons[i], persons[j]);
      }
    }
  }

  lemma MemberAt(s: Store, members: seq<Membership>, ledgers: map<nat, Ledger>, i: nat)
    requires Distinct(IdsOf(members)) && i < |members|
    ensures ToMembers(s, members, ledgers)[i].ref == Ref(MEMBER_PREFIX, i + 1)
    ensures members[i].id in NumberedRefs(MEMBER_PREFIX, IdsOf(members))
    ensures NumberedRefs(MEMBER_PREFIX, IdsOf(members))[members[i].id] == Ref(MEMBER_PREFIX, i + 1)
  {
    NumberedRefAt(MEMBER_PREFIX, IdsOf(members), i);
  }

  /** Every recorder named in the file is one of the file's guardians. */
  lemma RecorderIsGuardian(s: Store, familyId: nat, id: nat)
    requires ValidMembers(s.members, s.nextMember) && GuardianOf(s, familyId, id)
    ensures id in MemberRefs(s, familyId) && MemberRefs(s, familyId)[id] in Recorders(MembersWritten(s, familyId))
  {
    var persons := Exported(s, familyId);
    var m :| m in s.members && m.id == id && m.familyId == familyId && m.role.IsGuardian();
    ExportedMembers(s, familyId);
    ExportedDistinct(s, familyId);
    var k :| 0 <= k < |persons| && persons[k] == m;
    MemberAt(s, persons, LedgersByMember(LedgersOf(s.ledgers, familyId)), k);
    assert MembersWritten(s, familyId)[k].role.IsGuardian();
  }

  lemma ExportedEntriesConsistent(s: Store, ledgerId: nat, memberRefs: map<nat, string>)
    requires ValidTable(s.rows, s.nextRow) && Consistent(MovesIn(s.rows, ledgerId))
    ensures Consistent(Moves(Entries(Ordered(s.rows, ledgerId), memberRefs)))
  {
    var own := Filter(s.rows, InLedger(ledgerId));
    OrderedAsWritten(s.rows, s.nextRow, ledgerId);
    OwnRowIdsDistinct(s.rows, s.nextRow, ledgerId);
    EntriesKeepShape(own, memberRefs);
    RenamedHistoryIsConsistent(MovesOf(own), Moves(Entries(own, memberRefs)));
  }

  lemma ExportedHistoryWritable(s: Store, ledger: Ledger)
    requires ValidMembers(s.members, s.nextMember) && ValidTable(s.rows, s.nextRow) && LedgerSound(s, ledger)
    ensures WritableHistory(ToLedger(s, ledger, MemberRefs(s, ledger.familyId)).transactions,
                            Recorders(MembersWritten(s, ledger.familyId)))
  {
    var refs := MemberRefs(s, ledger.familyId);
    var own := Filter(s.rows, InLedger(ledger.id));
    ExportedEntriesConsistent(s, ledger.id, refs);
    OrderedAsWritten(s.rows, s.nextRow, ledger.id);
    FilterMembers(s.rows, InLedger(ledger.id));
    forall i | 0 <= i < |own| && Entries(own, refs)[i].grantedBy.Some?
      ensures Entries(own, refs)[i].grantedBy.value in Recorders(MembersWritten(s, ledger.familyId))
    {
      assert own[i] in own;
      RecorderIsGuardian(s, ledger.familyId, own[i].grantedBy.value);
    }
  }

  lemma ChildHasItsLedger(s: Store, familyId: nat, l: Ledger)
    requires forall i, j :: 0 <= i < j < |s.ledgers| ==> s.ledgers[i].membershipId != s.ledgers[j].membershipId
    requires l in s.ledgers && l.familyId == familyId
    ensures var ledgers := LedgersByMember(LedgersOf(s.ledgers, familyId));
            l.membershipId in ledgers && ledgers[l.membershipId] == l
  {
    var own := LedgersOf(s.ledgers, familyId);
    FilterMembers(s.ledgers, OfFamily(familyId));
    var k :| 0 <= k < |own| && own[k] == l;
    var at := FilterPositions(s.ledgers, OfFamily(familyId));
    LedgersByMemberAt(own, k);
  }

  lemma LedgerInDictionary(s: Store, familyId: nat, id: nat)
    requires id in LedgersByMember(LedgersOf(s.ledgers, familyId))
    ensures var l := LedgersByMember(LedgersOf(s.ledgers, familyId))[id];
            l in s.ledgers && l.familyId == familyId && l.membershipId == id
  {
    FilterMembers(s.ledgers, OfFamily(familyId));
    LedgersByMemberFrom(LedgersOf(s.ledgers, familyId));
  }

  lemma LedgerOfMember(s: Store, familyId: nat, m: Membership)
    requires TablesValid(s) && FamilySound(s, familyId) && m in s.members && m.familyId == familyId
    ensures m.id in LedgersByMember(LedgersOf(s.ledgers, familyId)) <==> m.role.HasOwnLedger()
  {
    if m.role.HasOwnLedger() {
      var l :| l in s.ledgers && l.membershipId == m.id && l.familyId == familyId;
      ChildHasItsLedger(s, familyId, l);
    }
    if m.id in LedgersByMember(LedgersOf(s.ledgers, familyId)) {
      LedgerInDictionary(s, familyId, m.id);
      var l := LedgersByMember(LedgersOf(s.ledgers, familyId))[m.id];
      assert LedgerSound(s, l);
      var owner :| owner in s.members && owner.id == l.membershipId && owner.role.HasOwnLedger();
      SameIdSameMember(s.members, s.nextMember, owner, m);
    }
  }

  lemma ExportedMemberImportable(s: Store, familyId: nat, i: nat)
    requires TablesValid(s) && FamilySound(s, familyId) && i < |Exported(s, familyId)|
    ensures ImportableMember(MembersWritten(s, familyId)[i], Recorders(MembersWritten(s, familyId)))
  {
    var persons := Exported(s, familyId);
    ExportedMembers(s, familyId);
    assert persons[i] in persons;
    LedgerOfMember(s, familyId, persons[i]);
    var ledgers := LedgersByMember(LedgersOf(s.ledgers, familyId));
    if persons[i].id in ledgers {
      LedgerInDictionary(s, familyId, persons[i].id);
      ExportedHistoryWritable(s, ledgers[persons[i].id]);
    }
  }

  lemma {:induction false} OwnersSurviveMapping(s: Store, persons: seq<Membership>, archived: seq<ArchivedMember>)
    requires |persons| == |archived| && forall i :: 0 <= i < |persons| ==> persons[i].role == archived[i].role
    ensures |Filter(archived, Administers())| == |Filter(persons, HasRole(Owner))|
  {
    if persons != [] {
      OwnersSurviveMapping(s, persons[..|persons| - 1], archived[..|archived| - 1]);
    }
  }

  lemma ExportHasOneOwner(s: Store, familyId: nat)
    requires TablesValid(s) && FamilySound(s, familyId)
    ensures |Filter(Exported(s, familyId), HasRole(Owner))| == 1
  {
    var listed := ListForFamily(s.members, familyId);
    FilterTwice(listed, IsPerson(), HasRole(Owner));
    FilterAgree(listed, BothHold(IsPerson(), HasRole(Owner)), HasRole(Owner));
    SortPermutes(Filter(s.members, InFamily(familyId)), ListingOrder());
    FilterPermutation(listed, Filter(s.members, InFamily(familyId)), HasRole(Owner));
  }

  lemma NumberedRefsDistinct(members: seq<ArchivedMember>)
    requires forall i :: 0 <= i < |members| ==> members[i].ref == Ref(MEMBER_PREFIX, i + 1)
    ensures Distinct(RefsOf(members))
  {
    forall i, j | 0 <= i < j < |members| ensures RefsOf(members)[i] != RefsOf(members)[j] {
      RefInjective(MEMBER_PREFIX, i + 1, j + 1);
    }
  }

  lemma ExportRefsDistinct(s: Store, familyId: nat)
    requires ValidMembers(s.members, s.nextMember)
    ensures Distinct(RefsOf(MembersWritten(s, familyId)))
  {
    hide ValidMembers, ToMember;
    var members := MembersWritten(s, familyId);
    ExportedDistinct(s, familyId);
    forall i | 0 <= i < |members| ensures members[i].ref == Ref(MEMBER_PREFIX, i + 1) {
      MemberAt(s, Exported(s, familyId), LedgersByMember(LedgersOf(s.ledgers, familyId)), i);
    }
    NumberedRefsDistinct(members);
  }

  /** Every backup is restorable: the file printed from sound tables is a file the checker accepts. */
  lemma EveryExportIsImportable(s: Store, familyId: nat, now: int)
    requires TablesValid(s) && FamilySound(s, familyId)
    ensures Write(s, familyId, now).Some? && Importable(Write(s, familyId, now).value)
  {
    hide LedgersValid, LedgerSound, ImportableMember, ToLedger;
    var members := MembersWritten(s, familyId);
    ExportRefsDistinct(s, familyId);
    ExportHasOneOwner(s, familyId);
    OwnersSurviveMapping(s, Exported(s, familyId), members);
    forall i | 0 <= i < |members| ensures ImportableMember(members[i], Recorders(members)) {
      ExportedMemberImportable(s, familyId, i);
    }
  }
}
