/** The checker that decides, before one row is written, whether a backup file could have been
    produced by using the application step by step. */
module ArchiveRules {
  import opened Basics
  import opened LedgerHistory
  import opened FamilyArchive

  datatype ImportError = InvalidFamilyArchive | UnsupportedArchiveVersion

  // ---------------------------------------------------------------- what a good file is

  ghost predicate WritableHistory(entries: seq<ArchivedTransaction>, recorders: set<string>) {
    && Consistent(Moves(entries))
    && (forall i :: 0 <= i < |entries| ==> entries[i].grantedBy.Some? ==> entries[i].grantedBy.value in recorders)
  }

  predicate ConsistentBonus(bonus: Option<ArchivedDailyBonus>) {
    bonus.Some? && bonus.value.grantedThrough.Some? ==>
      bonus.value.startsOn <= bonus.value.grantedThrough.value
  }

  ghost predicate ImportableMember(member: ArchivedMember, recorders: set<string>) {
    && !member.role.IsDisplay()
    && (member.ledger.Some? <==> member.role.HasOwnLedger())
    && (member.ledger.Some? ==>
          && ConsistentBonus(member.ledger.value.dailyBonus)
          && WritableHistory(member.ledger.value.transactions, recorders))
  }

  /** Everything a file must satisfy besides carrying a known format and version. */
  ghost predicate SoundFamily(members: seq<ArchivedMember>) {
    && Distinct(RefsOf(members))
    && |Filter(members, Administers())| == 1
    && (forall i :: 0 <= i < |members| ==> ImportableMember(members[i], Recorders(members)))
  }

  ghost predicate Importable(archive: Archive) {
    && archive.format == ARCHIVE_FORMAT
    && archive.version in SUPPORTED_ARCHIVE_VERSIONS
    && SoundFamily(archive.members)
  }

  // ---------------------------------------------------------------- the streaming checker

  /** The four collections say exactly what the rows written so far say. */
  ghost predicate Remembers(rows: seq<Move<string>>, amounts: map<string, int>,
                            reversals: set<string>, reversed: set<string>, corrected: set<string>) {
    && amounts == ByKey(rows)
    && reversals == (set j | 0 <= j < |rows| && rows[j].reverses.Some? :: rows[j].key)
    && reversed == (set j | 0 <= j < |rows| && rows[j].reverses.Some? :: rows[j].reverses.value)
    && corrected == (set j | 0 <= j < |rows| && rows[j].corrects.Some? :: rows[j].corrects.value)
  }

  lemma KeysAreRemembered(rows: seq<Move<string>>, amounts: map<string, int>,
                          reversals: set<string>, reversed: set<string>, corrected: set<string>, key: string)
    requires Consistent(rows) && Remembers(rows, amounts, reversals, reversed, corrected)
    ensures key in amounts <==> exists j :: 0 <= j < |rows| && rows[j].key == key
    ensures key in amounts && key !in reversals <==> Plain(rows, |rows|, key)
    ensures forall a :: key in amounts && key !in reversals && amounts[key] == a <==> PlainOf(rows, |rows|, key, a)
    ensures key in reversed <==> Reversed(rows, |rows|, key)
    ensures key in corrected <==> Corrected(rows, |rows|, key)
  {
    ConsistentIsWellPaired(rows);
    ByKeyTotal(rows);
    if key in amounts && key !in reversals {
      var j :| 0 <= j < |rows| && rows[j].key == key;
      assert PlainOf(rows, |rows|, key, rows[j].amount);
    }
  }

  /** The checks the code makes on its collections decide whether the row may be written. */
  lemma ChecksDecide(rows: seq<Move<string>>, m: Move<string>, amounts: map<string, int>,
                     reversals: set<string>, reversed: set<string>, corrected: set<string>)
    requires Consistent(rows) && Remembers(rows, amounts, reversals, reversed, corrected)
    ensures Writable(rows + [m], |rows|) <==>
              && m.key !in amounts
              && (m.reverses.Some? ==>
                    && m.reverses.value !in reversals && m.reverses.value !in reversed
                    && m.reverses.value in amounts && m.amount == -amounts[m.reverses.value])
              && (m.corrects.Some? ==>
                    && m.corrects.value !in reversals && m.corrects.value !in corrected && m.corrects.value in amounts
                    && (m.corrects.value in reversed || m.reverses == Some(m.corrects.value)))
  {
    var n, next := |rows|, rows + [m];
    KeysAreRemembered(rows, amounts, reversals, reversed, corrected, m.key);
    assert FreshKey(next, n) <==> m.key !in amounts by {
      assert forall j :: 0 <= j < n ==> next[j].key == rows[j].key;
    }
    if m.reverses.Some? {
      var t := m.reverses.value;
      KeysAreRemembered(rows, amounts, reversals, reversed, corrected, t);
      SameFacts(rows, next, n, t);
    }
    if m.corrects.Some? {
      var t := m.corrects.value;
      KeysAreRemembered(rows, amounts, reversals, reversed, corrected, t);
      SameFacts(rows, next, n, t);
      assert Reversed(next, n + 1, t) <==> Reversed(rows, n, t) || m.reverses == Some(t) by {
        assert next[n] == m;
        assert forall j :: 0 <= j < n ==> next[j] == rows[j];
      }
    }
  }

  lemma RememberOneMore(rows: seq<Move<string>>, m: Move<string>, amounts: map<string, int>,
                        reversals: set<string>, reversed: set<string>, corrected: set<string>)
    requires Remembers(rows, amounts, reversals, reversed, corrected)
    ensures Remembers(rows + [m], amounts[m.key := m.amount],
                      reversals + (if m.reverses.Some? then {m.key} else {}),
                      reversed + (if m.reverses.Some? then {m.reverses.value} else {}),
                      corrected + (if m.corrects.Some? then {m.corrects.value} else {}))
  {
  }

  /** What has been written so far, as the checker remembers it. */
  class WrittenHistory {
    var amounts: map<string, int>
    var reversals: set<string>
    var reversed: set<string>
    var corrected: set<string>
    ghost var rows: seq<Move<string>>

    ghost predicate Valid()
      reads this
    {
      Consistent(rows) && Remembers(rows, amounts, reversals, reversed, corrected)
    }

    constructor ()
      ensures Valid() && rows == []
    {
      amounts, reversals, reversed, corrected := map[], {}, {}, {};
      rows := [];
    }

    /** The amount of a row that was already written; anything else is an error. */
    method AmountOf(ref: string) returns (amount: Option<int>)
      ensures amount == if ref in amounts then Some(amounts[ref]) else None
    {
      amount := if ref in amounts then Some(amounts[ref]) else None;
    }

    method ClaimReversal(entry: ArchivedTransaction) returns (ok: bool)
      modifies this`reversed
      ensures entry.reverses.None? ==> ok && reversed == old(reversed)
      ensures entry.reverses.Some? ==>
                var target := entry.reverses.value;
                && (ok <==> target !in reversals && target !in old(reversed)
                            && target in amounts && entry.amount == -amounts[target])
                && reversed == old(reversed) + (if ok then {target} else {})
    {
      if entry.reverses.None? {
        return true;
      }
      var target := entry.reverses.value;
      if target in reversals || target in reversed {
        return false;
      }
      var amount := AmountOf(target);
      if amount.None? || entry.amount != -amount.value {
        return false;
      }
      reversed := reversed + {target};
      return true;
    }

    method ClaimCorrection(entry: ArchivedTransaction) returns (ok: bool)
      modifies this`corrected
      ensures entry.corrects.None? ==> ok && corrected == old(corrected)
      ensures entry.corrects.Some? ==>
                var target := entry.corrects.value;
                && (ok <==> target !in reversals && target !in old(corrected)
                            && target in amounts && target in reversed)
                && corrected == old(corrected) + (if ok then {target} else {})
    {
      if entry.corrects.None? {
        return true;
      }
      var target := entry.corrects.value;
      if target in reversals || target in corrected {
        return false;
      }
      var amount := AmountOf(target);
      if amount.None? {
        return false;
      }
      if target !in reversed {
        return false;
      }
      corrected := corrected + {target};
      return true;
    }

    /** Accepts exactly the rows that may be written next. A refused entry ends the import, so the
        half-made claim it may leave behind is never looked at again. */
    method Append(entry: ArchivedTransaction) returns (ok: bool)
      requires Valid()
      modifies this
      ensures ok <==> Writable(old(rows) + [MoveOf(entry)], |old(rows)|)
      ensures ok ==> Valid() && rows == old(rows) + [MoveOf(entry)]
    {
      ghost var next := rows + [MoveOf(entry)];
      ChecksDecide(rows, MoveOf(entry), amounts, reversals, reversed, corrected);
      RememberOneMore(rows, MoveOf(entry), amounts, reversals, reversed, corrected);
      ConsistentAppend(rows, MoveOf(entry));
      if entry.ref in amounts {
        return false;
      }
      ok := ClaimReversal(entry);
      if !ok {
        return;
      }
      ok := ClaimCorrection(entry);
      if !ok {
        return;
      }
      amounts := amounts[entry.ref := entry.amount];
      if entry.reverses.Some? {
        reversals := reversals + {entry.ref};
      }
      rows := next;
    }
  }

  method RequireWritableHistory(entries: seq<ArchivedTransaction>, recorders: set<string>) returns (ok: bool)
    ensures ok <==> WritableHistory(entries, recorders)
  {
    var history := new WrittenHistory();
    for i := 0 to |entries|
      invariant fresh(history) && history.Valid()
      invariant history.rows == Moves(entries)[..i]
      invariant forall j :: 0 <= j < i ==> entries[j].grantedBy.Some? ==> entries[j].grantedBy.value in recorders
    {
      if entries[i].grantedBy.Some? && entries[i].grantedBy.value !in recorders {
        return false;
      }
      ghost var next := history.rows + [MoveOf(entries[i])];
      assert next == Moves(entries)[..i + 1];
      ok := history.Append(entries[i]);
      if !ok {
        WritableInExtension(next, Moves(entries), i);
        return;
      }
    }
    assert Moves(entries)[..|entries|] == Moves(entries);
    return true;
  }

  method UniqueRefs(refs: seq<string>) returns (seen: Option<set<string>>)
    ensures seen.Some? <==> Distinct(refs)
    ensures seen.Some? ==> seen.value == (set i | 0 <= i < |refs| :: refs[i])
  {
    var found: set<string> := {};
    for i := 0 to |refs|
      invariant found == (set j | 0 <= j < i :: refs[j])
      invariant forall j, k :: 0 <= j < k < i ==> refs[j] != refs[k]
    {
      if refs[i] in found {
        assert !Distinct(refs);
        return None;
      }
      found := found + {refs[i]};
    }
    return Some(found);
  }

  method RequireMember(member: ArchivedMember, recorders: set<string>) returns (ok: bool)
    ensures ok <==> ImportableMember(member, recorders)
  {
    if member.role.IsDisplay() {
      return false;
    }
    if member.ledger.Some? != member.role.HasOwnLedger() {
      return false;
    }
    if member.ledger.Some? {
      if !ConsistentBonus(member.ledger.value.dailyBonus) {
        return false;
      }
      ok := RequireWritableHistory(member.ledger.value.transactions, recorders);
      return;
    }
    return true;
  }

  /** The whole check. The version is looked at only in a file of the right format, and before
      anything inside it. */
  method RequireImportable(archive: Archive) returns (outcome: Result<(), ImportError>)
    ensures outcome.Ok? <==> Importable(archive)
    ensures outcome == Err(UnsupportedArchiveVersion) <==>
              archive.format == ARCHIVE_FORMAT && archive.version !in SUPPORTED_ARCHIVE_VERSIONS
  {
    if archive.format != ARCHIVE_FORMAT {
      return Err(InvalidFamilyArchive);
    }
    if archive.version !in SUPPORTED_ARCHIVE_VERSIONS {
      return Err(UnsupportedArchiveVersion);
    }
    var refs := UniqueRefs(RefsOf(archive.members));
    if refs.None? {
      return Err(InvalidFamilyArchive);
    }
    if |Filter(archive.members, Administers())| != 1 {
      return Err(InvalidFamilyArchive);
    }
    var recorders := Recorders(archive.members);
    for i := 0 to |archive.members|
      invariant forall j :: 0 <= j < i ==> ImportableMember(archive.members[j], recorders)
    {
      var ok := RequireMember(archive.members[i], recorders);
      if !ok {
        return Err(InvalidFamilyArchive);
      }
    }
    return Ok(());
  }

  /** A row may supply the fact its own correction needs: the checker claims the reversal before it
      looks at the correction. */
  lemma RowMayReverseAndCorrectAtOnce(amount: int)
    ensures Consistent([Move("t1", amount, None, None), Move("t2", -amount, Some("t1"), Some("t1"))])
  {
    var h := [Move("t1", amount, None, None), Move("t2", -amount, Some("t1"), Some("t1"))];
    assert h[0].key == "t1" && h[1].key == "t2" && "t1"[1] != "t2"[1];
    assert h[1].reverses == Some("t1");
    assert Writable(h, 0);
    assert PlainOf(h, 1, "t1", amount) && Reversed(h, 2, "t1");
    assert Writable(h, 1);
  }

  // ---------------------------------------------------------------- a good file, field by field

  /** Entry i could have been written after the entries before it. */
  ghost predicate CouldBeWritten(entries: seq<ArchivedTransaction>, i: nat)
    requires i < |entries|
  {
    var e := entries[i];
    && (forall j :: 0 <= j < i ==> entries[j].ref != e.ref)
    && (e.reverses.Some? ==>
          && (exists j :: 0 <= j < i && entries[j].ref == e.reverses.value && entries[j].reverses.None? && entries[j].amount == -e.amount)
          && (forall j :: 0 <= j < i ==> entries[j].reverses != e.reverses))
    && (e.corrects.Some? ==>
          && (exists j :: 0 <= j < i && entries[j].ref == e.corrects.value && entries[j].reverses.None?)
          && (forall j :: 0 <= j < i ==> entries[j].corrects != e.corrects)
          && (exists j :: 0 <= j <= i && entries[j].reverses == e.corrects))
  }

  lemma ReversalCouldBeWritten(entries: seq<ArchivedTransaction>, i: nat, target: string, amount: int)
    requires i <= |entries|
    ensures PlainOf(Moves(entries), i, target, amount) <==>
              exists j :: 0 <= j < i && entries[j].ref == target && entries[j].reverses.None? && entries[j].amount == amount
    ensures Reversed(Moves(entries), i, target) <==> exists j :: 0 <= j < i && entries[j].reverses == Some(target)
  {
    var h := Moves(entries);
    if j :| 0 <= j < i && entries[j].ref == target && entries[j].reverses.None? && entries[j].amount == amount {
      assert h[j].key == target;
    }
    if j :| 0 <= j < i && entries[j].reverses == Some(target) {
      assert h[j].reverses == Some(target);
    }
  }

  lemma CorrectionCouldBeWritten(entries: seq<ArchivedTransaction>, i: nat, target: string)
    requires i <= |entries|
    ensures Plain(Moves(entries), i, target) <==> exists j :: 0 <= j < i && entries[j].ref == target && entries[j].reverses.None?
    ensures Corrected(Moves(entries), i, target) <==> exists j :: 0 <= j < i && entries[j].corrects == Some(target)
  {
    var h := Moves(entries);
    if j :| 0 <= j < i && entries[j].ref == target && entries[j].reverses.None? {
      assert h[j].key == target;
    }
    if j :| 0 <= j < i && entries[j].corrects == Some(target) {
      assert h[j].corrects == Some(target);
    }
  }

  lemma WritableMeansCouldBeWritten(entries: seq<ArchivedTransaction>, i: nat)
    requires i < |entries|
    ensures Writable(Moves(entries), i) <==> CouldBeWritten(entries, i)
  {
    var h, e := Moves(entries), entries[i];
    assert h[i] == MoveOf(e) && forall j :: 0 <= j < i ==> h[j].key == entries[j].ref;
    hide Moves, PlainOf, Plain, Reversed, Corrected;
    if e.reverses.Some? {
      ReversalCouldBeWritten(entries, i, e.reverses.value, -e.amount);
    }
    if e.corrects.Some? {
      CorrectionCouldBeWritten(entries, i, e.corrects.value);
      ReversalCouldBeWritten(entries, i + 1, e.corrects.value, 0);
    }
  }

  /** The whole check in the fields of the file: its format and version, refs that are all different,
      exactly one owner, no display, ledgers for the children only, bonuses granted from their start
      on, and histories that could be written row by row, each row recorded by the owner, by a parent
      or by nobody. */
  lemma ImportableInFull(a: Archive)
    ensures Importable(a) <==>
              && a.format == "rewardpointsweb.family" && (a.version == 1 || a.version == 2)
              && (forall i, j :: 0 <= i < j < |a.members| ==> a.members[i].ref != a.members[j].ref)
              && (exists o :: 0 <= o < |a.members| && a.members[o].role == Owner
                              && forall i :: 0 <= i < |a.members| && a.members[i].role == Owner ==> i == o)
              && (forall i :: 0 <= i < |a.members| ==> CouldBeMember(a.members, a.members[i]))
  {
    hide ImportableMember, CouldBeMember;
    RefsAreDistinctIff(a.members);
    OneOwnerIff(a.members);
    hide Distinct, Recorders, Filter;
    forall i | 0 <= i < |a.members|
      ensures ImportableMember(a.members[i], Recorders(a.members)) <==> CouldBeMember(a.members, a.members[i])
    {
      ImportableMemberInFull(a.members, a.members[i]);
    }
  }

  lemma RefsAreDistinctIff(members: seq<ArchivedMember>)
    ensures Distinct(RefsOf(members)) <==> forall i, j :: 0 <= i < j < |members| ==> members[i].ref != members[j].ref
  {
    var refs := RefsOf(members);
    assert forall i :: 0 <= i < |members| ==> refs[i] == members[i].ref;
  }

  lemma OneOwnerIff(members: seq<ArchivedMember>)
    ensures |Filter(members, Administers())| == 1 <==>
              exists o :: 0 <= o < |members| && members[o].role == Owner
                          && forall i :: 0 <= i < |members| && members[i].role == Owner ==> i == o
  {
    FilterKeepsOneIff(members, Administers());
    hide Filter;
  }

  /** The owner or a parent has this ref. */
  ghost predicate GuardianRef(members: seq<ArchivedMember>, ref: string) {
    exists i :: 0 <= i < |members| && members[i].ref == ref && (members[i].role == Owner || members[i].role == Parent)
  }

  ghost predicate CouldBeMember(members: seq<ArchivedMember>, m: ArchivedMember) {
    && m.role != Display && (m.ledger.Some? <==> m.role == Child)
    && (m.ledger.Some? ==>
          && (m.ledger.value.dailyBonus.Some? && m.ledger.value.dailyBonus.value.grantedThrough.Some? ==>
                m.ledger.value.dailyBonus.value.grantedThrough.value >= m.ledger.value.dailyBonus.value.startsOn)
          && (forall k :: 0 <= k < |m.ledger.value.transactions| ==>
                && CouldBeWritten(m.ledger.value.transactions, k)
                && (m.ledger.value.transactions[k].grantedBy.Some? ==>
                      GuardianRef(members, m.ledger.value.transactions[k].grantedBy.value))))
  }

  lemma ImportableMemberInFull(members: seq<ArchivedMember>, m: ArchivedMember)
    ensures ImportableMember(m, Recorders(members)) <==> CouldBeMember(members, m)
  {
    if m.ledger.Some? {
      HistoryInFull(members, m.ledger.value.transactions);
      hide WritableHistory, CouldBeWritten, GuardianRef;
    }
  }

  lemma HistoryInFull(members: seq<ArchivedMember>, entries: seq<ArchivedTransaction>)
    ensures WritableHistory(entries, Recorders(members)) <==>
              forall k :: 0 <= k < |entries| ==>
                CouldBeWritten(entries, k) && (entries[k].grantedBy.Some? ==> GuardianRef(members, entries[k].grantedBy.value))
  {
    hide Writable, CouldBeWritten, Recorders, GuardianRef;
    forall k | 0 <= k < |entries|
      ensures Writable(Moves(entries), k) <==> CouldBeWritten(entries, k)
      ensures entries[k].grantedBy.Some? ==>
                (entries[k].grantedBy.value in Recorders(members) <==> GuardianRef(members, entries[k].grantedBy.value))
    {
      WritableMeansCouldBeWritten(entries, k);
      if entries[k].grantedBy.Some? {
        RecorderIsGuardian(members, entries[k].grantedBy.value);
      }
    }
  }

  lemma RecorderIsGuardian(members: seq<ArchivedMember>, ref: string)
    ensures ref in Recorders(members) <==> GuardianRef(members, ref)
  {
    RecordersAreOwnerAndParents(members, ref);
  }

  /** An owner, a parent and a child with one row of five points, recorded by the member of the given
      ref. */
  function SmallBackup(recorder: string): Archive {
    var row := ArchivedTransaction("t1", 5, "tidy", 0, Some(recorder), None, None);
    Archive(ARCHIVE_FORMAT, 2, 0, "home", None,
            [ArchivedMember("m1", "Ann", Owner, None), ArchivedMember("m2", "Bob", Parent, None),
             ArchivedMember("m3", "Cid", Child, Some(ArchivedLedger([row], None)))])
  }

  /** A parent may have recorded the row, the child itself may not. */
  lemma ParentsRecordChildrenDoNot()
    ensures Importable(SmallBackup("m1")) && Importable(SmallBackup("m2")) && !Importable(SmallBackup("m3"))
  {
    assert "m1"[1] == '1' && "m2"[1] == '2' && "m3"[1] == '3';
    SmallBackupRecordedBy("m1");
    SmallBackupRecordedBy("m2");
    SmallBackupRecordedBy("m3");
    assert GuardianRef(SmallBackup("m1").members, "m1") by { assert SmallBackup("m1").members[0].ref == "m1"; }
    assert GuardianRef(SmallBackup("m2").members, "m2") by { assert SmallBackup("m2").members[1].ref == "m2"; }
  }

  lemma SmallBackupRecordedBy(recorder: string)
    ensures Importable(SmallBackup(recorder)) <==> GuardianRef(SmallBackup(recorder).members, recorder)
  {
    var a := SmallBackup(recorder);
    assert "m1"[1] == '1' && "m2"[1] == '2' && "m3"[1] == '3';
    hide Importable, GuardianRef, CouldBeMember;
    SmallFamily(a, recorder);
  }

  lemma SmallFamily(a: Archive, recorder: string)
    requires a.format == "rewardpointsweb.family" && a.version == 2 && |a.members| == 3
    requires a.members[0].ref != a.members[1].ref && a.members[0].ref != a.members[2].ref && a.members[1].ref != a.members[2].ref
    requires a.members[0].role == Owner && a.members[1].role == Parent && a.members[2].role == Child
    requires a.members[0].ledger.None? && a.members[1].ledger.None?
    requires a.members[2].ledger == Some(ArchivedLedger([ArchivedTransaction("t1", 5, "tidy", 0, Some(recorder), None, None)], None))
    ensures Importable(a) <==> GuardianRef(a.members, recorder)
  {
    hide Importable, GuardianRef;
    SmallLedgerRecordedBy(a.members, a.members[2], recorder);
    assert CouldBeMember(a.members, a.members[0]) && CouldBeMember(a.members, a.members[1]);
    hide CouldBeMember;
    if Importable(a) {
      ImportableInFull(a);
    }
    if GuardianRef(a.members, recorder) {
      ThreeMembersSuffice(a);
    }
  }

  lemma ThreeMembersSuffice(a: Archive)
    requires a.format == "rewardpointsweb.family" && a.version == 2 && |a.members| == 3
    requires a.members[0].ref != a.members[1].ref && a.members[0].ref != a.members[2].ref && a.members[1].ref != a.members[2].ref
    requires a.members[0].role == Owner && a.members[1].role != Owner && a.members[2].role != Owner
    requires CouldBeMember(a.members, a.members[0]) && CouldBeMember(a.members, a.members[1]) && CouldBeMember(a.members, a.members[2])
    ensures Importable(a)
  {
    hide Importable, CouldBeMember;
    forall i | 0 <= i < |a.members| ensures CouldBeMember(a.members, a.members[i]) {
      assert i == 0 || i == 1 || i == 2;
    }
    assert forall i, j :: 0 <= i < j < |a.members| ==> a.members[i].ref != a.members[j].ref;
    assert a.members[0].role == Owner && forall i :: 0 <= i < |a.members| && a.members[i].role == Owner ==> i == 0;
    ImportableInFull(a);
  }

  lemma SmallLedgerRecordedBy(members: seq<ArchivedMember>, m: ArchivedMember, recorder: string)
    requires m.role == Child
    requires m.ledger == Some(ArchivedLedger([ArchivedTransaction("t1", 5, "tidy", 0, Some(recorder), None, None)], None))
    ensures CouldBeMember(members, m) <==> GuardianRef(members, recorder)
  {
    hide GuardianRef;
    var entries := m.ledger.value.transactions;
    assert CouldBeWritten(entries, 0);
    assert entries[0].grantedBy == Some(recorder);
  }
}
