/** The import as it runs: one member, one ledger, one entry after the other, inside one database
    transaction that is rolled back when any step refuses. */
module FamilyImport {
  import opened Basics
  import opened FamilyArchive
  import opened Memberships
  import opened LedgerUseCases
  import opened FamilyStore
  import opened ArchiveRules
  import opened ArchiveRestore

  lemma {:induction false} RefusedMemberEndsImport(t: MemberTable, familyId: nat, accountId: nat,
                                                   members: seq<ArchivedMember>, n: nat, m: nat)
    requires n <= m <= |members| && RestoreMembers(t, familyId, accountId, members, n).Err?
    ensures RestoreMembers(t, familyId, accountId, members, m) == RestoreMembers(t, familyId, accountId, members, n)
  {
    if n < m {
      RefusedMemberEndsImport(t, familyId, accountId, members, n, m - 1);
    }
  }

  lemma {:induction false} RefusedEntryEndsImport(t: Table, entries: seq<ArchivedTransaction>, n: nat, m: nat,
                                                  ledgerId: nat, memberIds: map<string, nat>)
    requires n <= m <= |entries| && AppendHistory(t, entries, n, ledgerId, memberIds).Err?
    ensures AppendHistory(t, entries, m, ledgerId, memberIds) == AppendHistory(t, entries, n, ledgerId, memberIds)
  {
    if n < m {
      hide ReplayEntry;
      RefusedEntryEndsImport(t, entries, n, m - 1, ledgerId, memberIds);
    }
  }

  lemma {:induction false} RefusedLedgerEndsImport(t: LedgerTables, familyId: nat, members: seq<ArchivedMember>,
                                                   n: nat, m: nat, memberIds: map<string, nat>)
    requires n <= m <= |members| && RestoreLedgers(t, familyId, members, n, memberIds).Err?
    ensures RestoreLedgers(t, familyId, members, m, memberIds) == RestoreLedgers(t, familyId, members, n, memberIds)
  {
    if n < m {
      hide RestoreLedger;
      RefusedLedgerEndsImport(t, familyId, members, n, m - 1, memberIds);
    }
  }

  method AppendEntries(t: Table, entries: seq<ArchivedTransaction>, ledgerId: nat, memberIds: map<string, nat>)
      returns (replay: Result<Replay, RestoreError>)
    ensures replay == AppendHistory(t, entries, |entries|, ledgerId, memberIds)
  {
    hide ReplayEntry;
    replay := Ok(Replay(t, map[]));
    for i := 0 to |entries|
      invariant replay.Ok? && replay == AppendHistory(t, entries, i, ledgerId, memberIds)
    {
      replay := ReplayEntry(replay.value, entries[i], ledgerId, memberIds);
      if replay.Err? {
        RefusedEntryEndsImport(t, entries, i + 1, |entries|, ledgerId, memberIds);
        return;
      }
    }
  }

  lemma MemberTakesNextId(t: MemberTable, familyId: nat, accountId: nat, m: ArchivedMember)
    ensures RestoreMember(t, familyId, accountId, m).Ok? ==> RestoreMember(t, familyId, accountId, m).value.next == t.next + 1
  {
  }

  method AddMembers(t: MemberTable, familyId: nat, accountId: nat, members: seq<ArchivedMember>)
      returns (added: Result<MemberTable, RestoreError>, ids: map<string, nat>)
    ensures added == RestoreMembers(t, familyId, accountId, members, |members|)
    ensures added.Ok? ==> ids == MemberIds(members, t.next)
  {
    hide RestoreMember;
    added, ids := Ok(t), map[];
    for i := 0 to |members|
      invariant added.Ok? && added == RestoreMembers(t, familyId, accountId, members, i)
      invariant added.value.next == t.next + i
      invariant ids == MemberIds(members[..i], t.next)
    {
      var id := added.value.next;
      MemberTakesNextId(added.value, familyId, accountId, members[i]);
      added := RestoreMember(added.value, familyId, accountId, members[i]);
      if added.Err? {
        RefusedMemberEndsImport(t, familyId, accountId, members, i + 1, |members|);
        return;
      }
      assert members[..i + 1][..i] == members[..i];
      ids := ids[members[i].ref := id];
    }
    assert members[..|members|] == members;
  }

  method AddLedger(t: LedgerTables, familyId: nat, m: ArchivedMember, memberIds: map<string, nat>)
      returns (added: Result<LedgerTables, RestoreError>)
    ensures added == RestoreLedger(t, familyId, m, memberIds)
  {
    if m.ledger.None? {
      return Ok(t);
    }
    if m.ref !in memberIds {
      return Err(UnknownRef);
    }
    var replay := AppendEntries(t.table, m.ledger.value.transactions, t.next, memberIds);
    if replay.Err? {
      return Err(replay.error);
    }
    var bonuses := RestoreBonus(t.bonuses, m.ledger.value.dailyBonus, t.next);
    if bonuses.Err? {
      return Err(bonuses.error);
    }
    return Ok(LedgerTables(t.ledgers + [Ledger(t.next, familyId, memberIds[m.ref])], t.next + 1, replay.value.table, bonuses.value));
  }

  method AddLedgers(t: LedgerTables, familyId: nat, members: seq<ArchivedMember>, memberIds: map<string, nat>)
      returns (added: Result<LedgerTables, RestoreError>)
    ensures added == RestoreLedgers(t, familyId, members, |members|, memberIds)
  {
    added := Ok(t);
    for i := 0 to |members|
      invariant added.Ok? && added == RestoreLedgers(t, familyId, members, i, memberIds)
    {
      added := AddLedger(added.value, familyId, members[i], memberIds);
      if added.Err? {
        RefusedLedgerEndsImport(t, familyId, members, i + 1, |members|, memberIds);
        return;
      }
    }
  }

  class ImportFamilyUseCase {
    var store: Store

    constructor (s: Store)
      ensures store == s
    {
      store := s;
    }

    /** A failed import leaves every table as it was. */
    method Execute(accountId: nat, archive: Archive) returns (outcome: Result<Family, RestoreError>)
      modifies this
      ensures var spec := Restore(old(store), accountId, archive);
              && (outcome.Ok? <==> spec.Ok?)
              && (spec.Ok? ==> store == spec.value && outcome.value.id == old(store).nextFamily)
              && (spec.Err? ==> store == old(store) && outcome.error == spec.error)
    {
      var importable := RequireImportable(archive);
      assert importable.Err? ==> importable.error.InvalidFamilyArchive? || importable.error.UnsupportedArchiveVersion?;
      if importable.Err? {
        return Err(NotImportable(importable.error));
      }
      if ListForAccount(store.members, accountId) != [] {
        return Err(AlreadyBelongsToFamily);
      }
      var family := AddFamily(store, archive.familyName, archive.familyRules);
      if family.Err? {
        return Err(family.error);
      }
      var members, ids := AddMembers(MembersOf(store), store.nextFamily, accountId, archive.members);
      if members.Err? {
        return Err(members.error);
      }
      var ledgers := AddLedgers(LedgersIn(store), store.nextFamily, archive.members, ids);
      if ledgers.Err? {
        return Err(ledgers.error);
      }
      store := Assembled(store, family.value, members.value, ledgers.value);
      return Ok(family.value);
    }
  }
}
