/** The tables a backup is made from and restored into, as one value. */
module FamilyStore {
  import opened Basics
  import opened FamilyArchive
  import opened PointTransactions
  import opened Memberships
  import opened LedgerHistory
  import opened LedgerUseCases

  const FAMILY_NAME_MAX_LENGTH := 100
  const FAMILY_RULES_MAX_LENGTH := 2000

  datatype Family = Family(id: nat, name: string, rules: Option<string>)

  /** A child's ledger: one per membership. */
  datatype Ledger = Ledger(id: nat, familyId: nat, membershipId: nat)

  datatype DailyBonus = DailyBonus(amount: int, reason: string, startsOn: int, grantedThrough: Option<int>)

  datatype Store = Store(
    families: seq<Family>, nextFamily: nat,
    members: seq<Membership>, nextMember: nat,
    ledgers: seq<Ledger>, nextLedger: nat,
    rows: seq<Transaction>, nextRow: nat,
    bonuses: map<nat, DailyBonus>)

  function OfFamily(familyId: nat): Ledger -> bool { (l: Ledger) => l.familyId == familyId }

  function FindFamily(families: seq<Family>, id: nat): (found: Option<Family>)
    ensures found.Some? ==> found.value in families && found.value.id == id
    ensures found.None? ==> forall f :: f in families ==> f.id != id
  {
    if families == [] then None
    else
      var last := families[|families| - 1];
      assert families == families[..|families| - 1] + [last];
      if last.id == id then Some(last) else FindFamily(families[..|families| - 1], id)
  }

  /** A family's ledgers in id order. */
  function LedgersOf(ledgers: seq<Ledger>, familyId: nat): seq<Ledger> { Filter(ledgers, OfFamily(familyId)) }

  // ---------------------------------------------------------------- constraints

  /** What the id counters, the unique keys and the foreign keys of the tables guarantee. */
  ghost predicate TablesValid(s: Store) {
    && (forall i :: 0 <= i < |s.families| ==> s.families[i].id < s.nextFamily)
    && ValidMembers(s.members, s.nextMember)
    && (forall i :: 0 <= i < |s.members| ==> s.members[i].familyId < s.nextFamily)
    && LedgersValid(s)
    && ValidTable(s.rows, s.nextRow)
    && (forall i :: 0 <= i < |s.rows| ==> s.rows[i].ledgerId < s.nextLedger)
    && (forall l :: l in s.bonuses ==> l < s.nextLedger)
  }

  ghost predicate LedgersValid(s: Store) {
    && (forall i :: 0 <= i < |s.ledgers| ==>
          s.ledgers[i].id < s.nextLedger && s.ledgers[i].familyId < s.nextFamily && s.ledgers[i].membershipId < s.nextMember)
    && (forall i, j :: 0 <= i < j < |s.ledgers| ==> s.ledgers[i].id < s.ledgers[j].id)
    && (forall i, j :: 0 <= i < j < |s.ledgers| ==> s.ledgers[i].membershipId != s.ledgers[j].membershipId)
  }

  ghost predicate GuardianOf(s: Store, familyId: nat, id: nat) {
    exists m :: m in s.members && m.id == id && m.familyId == familyId && m.role.IsGuardian()
  }

  /** Owner and parents are the guardians. */
  lemma GuardiansAreOwnerAndParents(s: Store, familyId: nat, id: nat)
    ensures GuardianOf(s, familyId, id) <==>
              exists i :: 0 <= i < |s.members| && s.members[i].id == id && s.members[i].familyId == familyId
                          && (s.members[i].role == Owner || s.members[i].role == Parent)
  {
    if i :| 0 <= i < |s.members| && s.members[i].id == id && s.members[i].familyId == familyId
            && (s.members[i].role == Owner || s.members[i].role == Parent) {
      assert s.members[i] in s.members;
    }
  }

  /** One ledger as the operations keep it: a history that can be written, recorded by the family's
      guardians (or by nobody any more), with a bonus that was not granted before it began. */
  ghost predicate LedgerSound(s: Store, ledger: Ledger) {
    && (exists m :: m in s.members && m.id == ledger.membershipId && m.familyId == ledger.familyId && m.role.HasOwnLedger())
    && Consistent(MovesIn(s.rows, ledger.id))
    && (forall t :: t in s.rows && t.ledgerId == ledger.id && t.grantedBy.Some? ==>
          GuardianOf(s, ledger.familyId, t.grantedBy.value))
    && (ledger.id in s.bonuses && s.bonuses[ledger.id].grantedThrough.Some? ==>
          s.bonuses[ledger.id].startsOn <= s.bonuses[ledger.id].grantedThrough.value)
  }

  /** The family has exactly one owner, exactly its children own ledgers, and the ledgers are sound. */
  ghost predicate FamilySound(s: Store, familyId: nat) {
    && FindFamily(s.families, familyId).Some?
    && |Filter(Filter(s.members, InFamily(familyId)), HasRole(Owner))| == 1
    && (forall m :: m in s.members && m.familyId == familyId && m.role.HasOwnLedger() ==>
          exists l :: l in s.ledgers && l.membershipId == m.id && l.familyId == familyId)
    && (forall l :: l in s.ledgers && l.familyId == familyId ==> LedgerSound(s, l))
  }
}
