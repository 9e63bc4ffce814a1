/** The backup as it travels. One schema guards both directions: it trims the texts and refuses what is
    out of bounds, whether the file is handed out or sent in. */
module ArchiveDocuments {
  import opened Basics
  import opened Texts
  import opened LedgerHistory
  import opened FamilyArchive
  import opened PointTransactions
  import opened Memberships
  import opened Sorting
  import opened FamilyStore
  import opened ArchiveRules
  import opened ArchiveWriter
  import opened ArchiveRestore
  import opened ArchiveRoundTrip

  // ---------------------------------------------------------------- the schema

  function TrimmedEntry(e: ArchivedTransaction): ArchivedTransaction { e.(reason := Trim(e.reason)) }

  function TrimmedEntries(entries: seq<ArchivedTransaction>): (r: seq<ArchivedTransaction>)
    ensures |r| == |entries|
  {
    seq(|entries|, i requires 0 <= i < |entries| => TrimmedEntry(entries[i]))
  }

  function TrimmedLedger(l: ArchivedLedger): ArchivedLedger {
    ArchivedLedger(TrimmedEntries(l.transactions),
                   if l.dailyBonus.None? then None else Some(l.dailyBonus.value.(reason := Trim(l.dailyBonus.value.reason))))
  }

  function TrimmedMember(m: ArchivedMember): ArchivedMember {
    m.(displayName := Trim(m.displayName), ledger := if m.ledger.None? then None else Some(TrimmedLedger(m.ledger.value)))
  }

  function TrimmedMembers(members: seq<ArchivedMember>): (r: seq<ArchivedMember>)
    ensures |r| == |members|
  {
    seq(|members|, i requires 0 <= i < |members| => TrimmedMember(members[i]))
  }

  function TrimmedArchive(a: Archive): Archive {
    a.(familyName := Trim(a.familyName), members := TrimmedMembers(a.members))
  }

  /** The document made from the fields of a file, or nothing when they are not acceptable. */
  function DocumentOf(a: Archive): Option<Archive> {
    if DocumentAccepts(TrimmedArchive(a)) then Some(TrimmedArchive(a)) else None
  }

  // ---------------------------------------------------------------- the schema, field by field

  /** A name inside the file: one to 32 letters, digits, underscores and hyphens. */
  predicate NameInFile(ref: string) {
    && 1 <= |ref| <= 32
    && forall k :: 0 <= k < |ref| ==>
         var c := ref[k] as int; 65 <= c <= 90 || 97 <= c <= 122 || 48 <= c <= 57 || c == 95 || c == 45
  }

  lemma NamesInFile(ref: string)
    ensures RefShape(ref) <==> NameInFile(ref)
  {
    if NameInFile(ref) {
      forall c | c in ref ensures RefCharacter(c) {
        var k :| 0 <= k < |ref| && ref[k] == c;
      }
    }
    if RefShape(ref) {
      forall k | 0 <= k < |ref| ensures RefCharacter(ref[k]) {
        assert ref[k] in ref;
      }
    }
  }

  predicate EntryInBounds(e: ArchivedTransaction) {
    && NameInFile(e.ref) && e.amount != 0 && -1_000_000 <= e.amount <= 1_000_000 && ValidText(Trim(e.reason), 255)
    && (e.grantedBy.Some? ==> NameInFile(e.grantedBy.value))
    && (e.reverses.Some? ==> NameInFile(e.reverses.value)) && (e.corrects.Some? ==> NameInFile(e.corrects.value))
  }

  lemma EntriesInBounds(e: ArchivedTransaction)
    ensures EntryShape(TrimmedEntry(e)) <==> EntryInBounds(e)
  {
    hide RefShape, NameInFile, Trim, ValidText;
    NamesInFile(e.ref);
    if e.grantedBy.Some? {
      NamesInFile(e.grantedBy.value);
    }
    if e.reverses.Some? {
      NamesInFile(e.reverses.value);
    }
    if e.corrects.Some? {
      NamesInFile(e.corrects.value);
    }
  }

  predicate MemberInBounds(m: ArchivedMember) {
    && NameInFile(m.ref) && ValidText(Trim(m.displayName), 100)
    && (m.ledger.Some? ==>
          && (forall k :: 0 <= k < |m.ledger.value.transactions| ==> EntryInBounds(m.ledger.value.transactions[k]))
          && (m.ledger.value.dailyBonus.Some? ==>
                && 1 <= m.ledger.value.dailyBonus.value.amount <= 1_000_000
                && ValidText(Trim(m.ledger.value.dailyBonus.value.reason), 255)))
  }

  lemma MembersInBounds(m: ArchivedMember)
    ensures MemberShape(TrimmedMember(m)) <==> MemberInBounds(m)
  {
    hide RefShape, NameInFile, Trim, ValidText, EntryShape, EntryInBounds;
    NamesInFile(m.ref);
    if m.ledger.Some? {
      var entries := m.ledger.value.transactions;
      forall k | 0 <= k < |entries| ensures EntryShape(TrimmedEntries(entries)[k]) <==> EntryInBounds(entries[k]) {
        EntriesInBounds(entries[k]);
      }
    }
  }

  /** What the schema lets through, and what it makes of it: the document is the file with its names and
      reasons trimmed, and nothing else changed. */
  lemma DocumentInFull(a: Archive)
    ensures DocumentOf(a).Some? <==>
              && ValidText(Trim(a.familyName), 100) && (a.familyRules.Some? ==> |a.familyRules.value| <= 2000)
              && |a.members| <= 100 && TransactionCount(a.members) <= 20_000
              && forall i :: 0 <= i < |a.members| ==> MemberInBounds(a.members[i])
    ensures DocumentOf(a).Some? ==>
              var d := DocumentOf(a).value;
              && d == Archive(a.format, a.version, a.exportedAt, Trim(a.familyName), a.familyRules, d.members)
              && |d.members| == |a.members|
              && (forall i :: 0 <= i < |a.members| ==>
                    && d.members[i] == ArchivedMember(a.members[i].ref, Trim(a.members[i].displayName), a.members[i].role, d.members[i].ledger)
                    && d.members[i].ledger.Some? == a.members[i].ledger.Some?
                    && (a.members[i].ledger.Some? ==> LedgerIsTrimmed(a.members[i].ledger.value, d.members[i].ledger.value)))
  {
    TrimmedCount(a.members);
    hide MemberShape, MemberInBounds, TransactionCount, Trim, ValidText, TrimmedEntry;
    forall i | 0 <= i < |a.members| ensures MemberShape(TrimmedMembers(a.members)[i]) <==> MemberInBounds(a.members[i]) {
      MembersInBounds(a.members[i]);
    }
    forall i | 0 <= i < |a.members| && a.members[i].ledger.Some?
      ensures LedgerIsTrimmed(a.members[i].ledger.value, TrimmedLedger(a.members[i].ledger.value))
    {
      LedgersAreTrimmed(a.members[i].ledger.value);
    }
  }

  predicate LedgerIsTrimmed(l: ArchivedLedger, d: ArchivedLedger) {
    && |d.transactions| == |l.transactions|
    && (forall k :: 0 <= k < |l.transactions| ==>
          var e := l.transactions[k];
          d.transactions[k] == ArchivedTransaction(e.ref, e.amount, Trim(e.reason), e.occurredAt, e.grantedBy, e.reverses, e.corrects))
    && (l.dailyBonus == None ==> d.dailyBonus == None)
    && (l.dailyBonus.Some? ==>
          var b := l.dailyBonus.value;
          d.dailyBonus == Some(ArchivedDailyBonus(b.amount, Trim(b.reason), b.startsOn, b.grantedThrough)))
  }

  lemma LedgersAreTrimmed(l: ArchivedLedger)
    ensures LedgerIsTrimmed(l, TrimmedLedger(l))
  {
    hide Trim;
  }

  // ---------------------------------------------------------------- the two requests

  datatype ExportError = FamilyNotFound | NotADocument

  datatype ImportFailure = UnreadableFile | Refused(cause: RestoreError)

  function Export(s: Store, familyId: nat, now: int): Result<Archive, ExportError> {
    var written := Write(s, familyId, now);
    if written.None? then Err(FamilyNotFound) else OrError(DocumentOf(written.value), NotADocument)
  }

  ghost function Import(s: Store, accountId: nat, file: Archive): Result<Store, ImportFailure> {
    var document := DocumentOf(file);
    if document.None? then Err(UnreadableFile)
    else
      match Restore(s, accountId, document.value)
      case Ok(t) => Ok(t)
      case Err(e) => Err(Refused(e))
  }

  /** Without the family there is nothing to export. */
  lemma ExportNeedsTheFamily(s: Store, familyId: nat, now: int)
    ensures Export(s, familyId, now) == Err(FamilyNotFound) <==> forall f :: f in s.families ==> f.id != familyId
  {
    hide MembersWritten, DocumentOf;
  }

  // ---------------------------------------------------------------- trimming keeps everything but blanks

  lemma TrimmedLedgerOnce(l: ArchivedLedger)
    ensures TrimmedLedger(TrimmedLedger(l)) == TrimmedLedger(l)
  {
    hide Trim;
    forall i | 0 <= i < |l.transactions| ensures TrimmedEntry(TrimmedEntry(l.transactions[i])) == TrimmedEntry(l.transactions[i]) {
      TrimIsBare(l.transactions[i].reason);
    }
    assert TrimmedEntries(TrimmedEntries(l.transactions)) == TrimmedEntries(l.transactions);
    if l.dailyBonus.Some? {
      TrimIsBare(l.dailyBonus.value.reason);
    }
  }

  lemma TrimmedMemberOnce(m: ArchivedMember)
    ensures TrimmedMember(TrimmedMember(m)) == TrimmedMember(m)
  {
    hide Trim, TrimmedLedger;
    TrimIsBare(m.displayName);
    if m.ledger.Some? {
      TrimmedLedgerOnce(m.ledger.value);
    }
  }

  lemma TrimmedOnce(a: Archive)
    ensures TrimmedArchive(TrimmedArchive(a)) == TrimmedArchive(a)
  {
    hide Trim, TrimmedMember;
    TrimIsBare(a.familyName);
    forall i | 0 <= i < |a.members| ensures TrimmedMember(TrimmedMember(a.members[i])) == TrimmedMember(a.members[i]) {
      TrimmedMemberOnce(a.members[i]);
    }
    assert TrimmedMembers(TrimmedMembers(a.members)) == TrimmedMembers(a.members);
  }

  /** Reading a document gives the document, whenever it was printed. */
  lemma DocumentReadsItself(a: Archive, now: int)
    requires DocumentOf(a).Some?
    ensures DocumentOf(DocumentOf(a).value.(exportedAt := now)) == Some(DocumentOf(a).value.(exportedAt := now))
  {
    hide MemberShape, Trim, TrimmedMember;
    TrimmedOnce(a);
  }

  lemma TrimmedMovesAreSame(entries: seq<ArchivedTransaction>)
    ensures Moves(TrimmedEntries(entries)) == Moves(entries)
  {
  }

  lemma TrimmedMemberImportable(m: ArchivedMember, recorders: set<string>)
    requires ImportableMember(m, recorders)
    ensures ImportableMember(TrimmedMember(m), recorders)
  {
    hide Consistent, Trim;
    if m.ledger.Some? {
      var entries := m.ledger.value.transactions;
      TrimmedMovesAreSame(entries);
      forall i | 0 <= i < |entries| && TrimmedEntries(entries)[i].grantedBy.Some?
        ensures TrimmedEntries(entries)[i].grantedBy.value in recorders
      {
        assert TrimmedEntries(entries)[i].grantedBy == entries[i].grantedBy;
      }
    }
  }

  lemma {:induction false} TrimmedOwners(members: seq<ArchivedMember>)
    ensures |Filter(TrimmedMembers(members), Administers())| == |Filter(members, Administers())|
  {
    if members != [] {
      hide TrimmedLedger, Trim;
      TrimmedOwners(members[..|members| - 1]);
      assert TrimmedMembers(members)[..|members| - 1] == TrimmedMembers(members[..|members| - 1]);
    }
  }

  lemma TrimmedIsImportable(a: Archive)
    requires Importable(a)
    ensures Importable(TrimmedArchive(a))
  {
    hide ImportableMember, Trim, TrimmedLedger, Filter;
    var trimmed := TrimmedMembers(a.members);
    TrimmedOwners(a.members);
    assert RefsOf(trimmed) == RefsOf(a.members);
    assert Recorders(trimmed) == Recorders(a.members) by {
      assert forall i :: 0 <= i < |a.members| ==> trimmed[i].role == a.members[i].role && trimmed[i].ref == a.members[i].ref;
    }
    forall i | 0 <= i < |trimmed| ensures ImportableMember(trimmed[i], Recorders(trimmed)) {
      TrimmedMemberImportable(a.members[i], Recorders(a.members));
    }
  }

  lemma TrimmedIsAsPrinted(a: Archive)
    requires AsPrinted(a)
    ensures AsPrinted(TrimmedArchive(a))
  {
    hide Trim, NormalRules;
    forall i | 0 <= i < |a.members| && a.members[i].ledger.Some?
      ensures EntriesNumbered(TrimmedEntries(a.members[i].ledger.value.transactions))
    {
      assert EntriesNumbered(a.members[i].ledger.value.transactions);
    }
  }

  lemma {:induction false} TrimmedCount(members: seq<ArchivedMember>)
    ensures TransactionCount(TrimmedMembers(members)) == TransactionCount(members)
  {
    if members != [] {
      hide Trim;
      TrimmedCount(members[..|members| - 1]);
      assert TrimmedMembers(members)[..|members| - 1] == TrimmedMembers(members[..|members| - 1]);
    }
  }

  lemma TrimmedMemberFits(m: ArchivedMember)
    requires MemberShape(m)
    ensures MemberShape(TrimmedMember(m))
  {
    hide Trim, RefShape, ValidText;
    ValidStaysValid(m.displayName, DISPLAY_NAME_MAX_LENGTH);
    if m.ledger.Some? {
      var l := m.ledger.value;
      forall i | 0 <= i < |l.transactions| ensures EntryShape(TrimmedEntry(l.transactions[i])) {
        ValidStaysValid(l.transactions[i].reason, REASON_MAX_LENGTH);
      }
      if l.dailyBonus.Some? {
        ValidStaysValid(l.dailyBonus.value.reason, REASON_MAX_LENGTH);
      }
    }
  }

  /** What meets the schema meets it trimmed as well. */
  lemma TrimmedIsAccepted(a: Archive)
    requires DocumentAccepts(a)
    ensures DocumentOf(a).Some?
  {
    hide MemberShape, Trim, TrimmedMember, ValidText;
    ValidStaysValid(a.familyName, FAMILY_NAME_MAX_LENGTH);
    TrimmedCount(a.members);
    forall i | 0 <= i < |a.members| ensures MemberShape(TrimmedMember(a.members[i])) {
      TrimmedMemberFits(a.members[i]);
    }
  }

  // ---------------------------------------------------------------- what the two requests promise together

  lemma ExportedFileIs(s: Store, familyId: nat, now: int)
    requires TablesValid(s) && FamilySound(s, familyId) && Export(s, familyId, now).Ok?
    ensures var file := Export(s, familyId, now).value;
            && Write(s, familyId, now).Some? && file == TrimmedArchive(Write(s, familyId, now).value)
            && DocumentOf(file) == Some(file) && DocumentShape(file) && Importable(file)
  {
    hide TablesValid, FamilySound, Write, Importable, MemberShape, TrimmedMember;
    EveryExportIsImportable(s, familyId, now);
    var a := Write(s, familyId, now).value;
    TrimmedIsImportable(a);
    DocumentReadsItself(a, a.exportedAt);
  }

  /** Every file that an export answers with can be sent in again, unchanged: any account without a
      family makes a family of it. */
  lemma EveryExportedFileIsAccepted(s: Store, familyId: nat, now: int, target: Store, accountId: nat)
    requires TablesValid(s) && FamilySound(s, familyId) && Export(s, familyId, now).Ok?
    requires TablesValid(target) && ListForAccount(target.members, accountId) == []
    ensures Import(target, accountId, Export(s, familyId, now).value).Ok?
  {
    hide TablesValid, FamilySound, Importable, DocumentShape, Export, DocumentOf, Restore;
    ExportedFileIs(s, familyId, now);
    RestoreSucceedsAndIsSound(target, accountId, Export(s, familyId, now).value);
  }

  /** The export answers exactly when the family is within the caps: at most 100 persons and 20 000
      rows. A larger family gets no file at all. */
  lemma ExportAnswersIffWithinCaps(s: Store, familyId: nat, now: int)
    requires TablesValid(s) && FamilySound(s, familyId) && ValuesValid(s, familyId)
    ensures Export(s, familyId, now).Ok? <==>
              |Exported(s, familyId)| <= MAX_ARCHIVED_MEMBERS && |FamilyRows(s, familyId)| <= MAX_ARCHIVED_TRANSACTIONS
    ensures Export(s, familyId, now) != Err(FamilyNotFound)
  {
    hide TablesValid, FamilySound, ValuesValid, Importable, Exported, FamilyRows, Write, DocumentShape, TrimmedMember;
    WrittenFileFitsIff(s, familyId, now);
    EveryExportIsImportable(s, familyId, now);
    var a := Write(s, familyId, now).value;
    TrimmedCount(a.members);
    if DocumentAccepts(a) {
      TrimmedIsAccepted(a);
    }
    if DocumentOf(a).Some? {
      assert WithinCaps(a);
      FitsWhenWithinCaps(s, familyId, now);
    }
  }

  lemma FitsWhenWithinCaps(s: Store, familyId: nat, now: int)
    requires TablesValid(s) && ValuesValid(s, familyId) && Write(s, familyId, now).Some?
    requires WithinCaps(Write(s, familyId, now).value)
    ensures DocumentAccepts(Write(s, familyId, now).value)
  {
    hide TablesValid, ValuesValid, Write, DocumentShape;
    ExportFits(s, familyId, now);
  }

  /** A file whose document is in the printer's form comes back as that document from the family made
      of it, up to the time of printing. */
  lemma ImportedFilePrintsBack(target: Store, accountId: nat, file: Archive, now: int)
    requires TablesValid(target) && ListForAccount(target.members, accountId) == []
    requires DocumentOf(file).Some? && Importable(DocumentOf(file).value) && AsPrinted(DocumentOf(file).value)
    ensures Import(target, accountId, file).Ok?
    ensures Export(Import(target, accountId, file).value, target.nextFamily, now) == Ok(DocumentOf(file).value.(exportedAt := now))
  {
    var d := DocumentOf(file).value;
    assert DocumentShape(d);
    DocumentReadsItself(file, now);
    hide TablesValid, Importable, AsPrinted, DocumentShape, DocumentOf, Restore, Write;
    RestoredBackupPrintsBack(target, accountId, d, now);
  }

  /** Export, import, export over the files themselves: the second file is the first one, up to the
      time of printing. */
  lemma ExportImportExport(s: Store, familyId: nat, now: int, target: Store, accountId: nat, later: int)
    requires TablesValid(s) && FamilySound(s, familyId) && ValuesValid(s, familyId) && Export(s, familyId, now).Ok?
    requires TablesValid(target) && ListForAccount(target.members, accountId) == []
    ensures var file := Export(s, familyId, now).value;
            var imported := Import(target, accountId, file);
            imported.Ok? && Export(imported.value, target.nextFamily, later) == Ok(file.(exportedAt := later))
  {
    hide TablesValid, FamilySound, ValuesValid, Importable, AsPrinted, DocumentShape, Export, Import, Write, DocumentOf;
    ExportedFileIs(s, familyId, now);
    ExportIsAsPrinted(s, familyId, now);
    TrimmedIsAsPrinted(Write(s, familyId, now).value);
    ImportedFilePrintsBack(target, accountId, Export(s, familyId, now).value, later);
  }

  /** A file is imported exactly when it meets the schema, the checker accepts its document and the
      account has no family; what it makes is as sound as any family and can be exported again. */
  lemma ImportSucceedsIff(s: Store, accountId: nat, file: Archive)
    requires TablesValid(s)
    ensures Import(s, accountId, file).Ok? <==>
              DocumentOf(file).Some? && Importable(DocumentOf(file).value) && ListForAccount(s.members, accountId) == []
    ensures Import(s, accountId, file).Ok? ==>
              var t := Import(s, accountId, file).value;
              TablesValid(t) && FamilySound(t, s.nextFamily) && ValuesValid(t, s.nextFamily)
  {
    hide TablesValid, FamilySound, ValuesValid, Importable, Restore, TrimmedArchive, DocumentShape;
    if DocumentOf(file).Some? {
      RestoreSucceedsAndIsSound(s, accountId, DocumentOf(file).value);
    }
  }

  /** An import never changes what any other family's export answers. */
  lemma ImportLeavesOtherFamilies(s: Store, accountId: nat, file: Archive, familyId: nat, now: int)
    requires TablesValid(s) && familyId != s.nextFamily && Import(s, accountId, file).Ok?
    ensures Export(Import(s, accountId, file).value, familyId, now) == Export(s, familyId, now)
  {
    hide TablesValid, Restore, TrimmedArchive, DocumentShape, Write;
    RestoreLeavesOtherFamilies(s, accountId, DocumentOf(file).value, familyId, now);
  }

  // ---------------------------------------------------------------- a family that is too large

  /** An owner and a number of parents. */
  function Crowd(parents: nat): seq<Membership> {
    seq(parents + 1, i requires 0 <= i < parents + 1 => Membership(i, 0, None, if i == 0 then Owner else Parent, "x", i))
  }

  function CrowdedStore(parents: nat): Store {
    Store([Family(0, "x", None)], 1, Crowd(parents), parents + 1, [], 0, [], 0, map[])
  }

  lemma {:induction false} CrowdHasOneOwner(parents: nat, n: nat)
    requires 1 <= n <= parents + 1
    ensures |Filter(Crowd(parents)[..n], HasRole(Owner))| == 1
  {
    var front := Crowd(parents)[..n];
    assert front[..n - 1] == Crowd(parents)[..n - 1];
    if n > 1 {
      CrowdHasOneOwner(parents, n - 1);
    } else {
      assert Filter(front[..0], HasRole(Owner)) == [];
    }
  }

  lemma CrowdIsFamily(parents: nat)
    ensures Filter(Crowd(parents), InFamily(0)) == Crowd(parents)
  {
    FilterAll(Crowd(parents), InFamily(0));
  }

  lemma CrowdIsListed(parents: nat)
    ensures |Exported(CrowdedStore(parents), 0)| == parents + 1
  {
    CrowdIsFamily(parents);
    SortPermutes(Crowd(parents), ListingOrder());
    hide Filter, SortBy;
    FilterAll(ListForFamily(Crowd(parents), 0), IsPerson());
  }

  lemma CrowdOwnsNoLedger(parents: nat)
    ensures forall m :: m in Crowd(parents) ==> !m.role.HasOwnLedger()
  {
  }

  lemma CrowdIsFound(parents: nat)
    ensures FindFamily(CrowdedStore(parents).families, 0).Some?
  {
    hide Crowd;
  }

  lemma CrowdIsOneFamily(parents: nat)
    ensures FamilySound(CrowdedStore(parents), 0)
  {
    CrowdIsFamily(parents);
    CrowdOwnsNoLedger(parents);
    CrowdIsFound(parents);
    CrowdHasOneOwner(parents, parents + 1);
    assert Crowd(parents)[..parents + 1] == Crowd(parents);
    hide Filter, LedgerSound, Crowd, FindFamily;
  }

  lemma CrowdHasValidValues(parents: nat)
    ensures ValuesValid(CrowdedStore(parents), 0)
  {
    hide LedgerValuesValid;
    assert "x"[0] == 'x' && 'x' in "x";
  }

  lemma CrowdIsSound(parents: nat)
    ensures var s := CrowdedStore(parents); TablesValid(s) && FamilySound(s, 0) && ValuesValid(s, 0)
  {
    hide FamilySound, ValuesValid;
    CrowdIsOneFamily(parents);
    CrowdHasValidValues(parents);
  }

  /** A sound family with valid values and more persons than the cap: its export gives no file. */
  lemma CrowdIsNotExported(now: int)
    ensures var s := CrowdedStore(100);
            && TablesValid(s) && FamilySound(s, 0) && ValuesValid(s, 0)
            && |Exported(s, 0)| == 101 && Export(s, 0, now) == Err(NotADocument)
  {
    hide TablesValid, FamilySound, ValuesValid, Exported, FamilyRows, Export, CrowdedStore;
    CrowdIsSound(100);
    CrowdIsListed(100);
    ExportAnswersIffWithinCaps(CrowdedStore(100), 0, now);
    assert !Export(CrowdedStore(100), 0, now).error.FamilyNotFound?;
  }
}
