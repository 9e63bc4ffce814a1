/** The append-only table of point transactions and its one way in. */
module PointTransactions {
  import opened Basics
  import opened Sorting
  import opened Texts

  const MAX_MAGNITUDE := 1_000_000
  const REASON_MAX_LENGTH := 255
  const KEY_MAX_LENGTH := 64

  datatype Transaction = Transaction(
    id: nat,
    ledgerId: nat,
    amount: int,
    reason: string,
    grantedBy: Option<nat>,
    occurredAt: int,
    key: string,
    reversalOf: Option<nat>,
    corrects: Option<nat>)

  /** A row that is not written yet: everything but the id the database will give it. */
  datatype NewTransaction = NewTransaction(
    ledgerId: nat,
    amount: int,
    reason: string,
    grantedBy: Option<nat>,
    occurredAt: int,
    key: string,
    reversalOf: Option<nat>,
    corrects: Option<nat>)
  {
    function WithId(id: nat): Transaction {
      Transaction(id, ledgerId, amount, reason, grantedBy, occurredAt, key, reversalOf, corrects)
    }
  }

  datatype AppendError = InvalidValue | IntegrityError

  predicate ValidKey(key: string) { ValidText(key, KEY_MAX_LENGTH) }

  predicate ValidReason(reason: string) { ValidText(reason, REASON_MAX_LENGTH) }

  predicate ValidAmount(amount: int) { amount != 0 && -MAX_MAGNITUDE <= amount <= MAX_MAGNITUDE }

  function InLedger(ledgerId: nat): Transaction -> bool { (t: Transaction) => t.ledgerId == ledgerId }

  // ---------------------------------------------------------------- constraints

  predicate KeyTaken(rows: seq<Transaction>, ledgerId: nat, key: string) {
    exists i :: 0 <= i < |rows| && rows[i].ledgerId == ledgerId && rows[i].key == key
  }

  predicate Exists(rows: seq<Transaction>, id: nat) {
    exists i :: 0 <= i < |rows| && rows[i].id == id
  }

  predicate ReversalTaken(rows: seq<Transaction>, target: nat) {
    exists i :: 0 <= i < |rows| && rows[i].reversalOf == Some(target)
  }

  predicate CorrectionTaken(rows: seq<Transaction>, target: nat) {
    exists i :: 0 <= i < |rows| && rows[i].corrects == Some(target)
  }

  /** The unique and foreign-key constraints of the table let the row in. */
  predicate Admits(rows: seq<Transaction>, n: NewTransaction) {
    && !KeyTaken(rows, n.ledgerId, n.key)
    && (n.reversalOf.Some? ==> Exists(rows, n.reversalOf.value) && !ReversalTaken(rows, n.reversalOf.value))
    && (n.corrects.Some? ==> Exists(rows, n.corrects.value) && !CorrectionTaken(rows, n.corrects.value))
  }

  /** The table as the constraints and the id counter keep it. */
  ghost predicate ValidTable(rows: seq<Transaction>, next: nat) {
    && (forall i :: 0 <= i < |rows| ==> rows[i].id < next)
    && (forall i, j :: 0 <= i < j < |rows| ==> rows[i].id < rows[j].id)
    && (forall i, j :: 0 <= i < j < |rows| ==> rows[i].ledgerId != rows[j].ledgerId || rows[i].key != rows[j].key)
    && (forall i, j :: 0 <= i < j < |rows| && rows[i].reversalOf.Some? ==> rows[i].reversalOf != rows[j].reversalOf)
    && (forall i, j :: 0 <= i < j < |rows| && rows[i].corrects.Some? ==> rows[i].corrects != rows[j].corrects)
    && (forall i :: 0 <= i < |rows| && rows[i].reversalOf.Some? ==> rows[i].reversalOf.value < rows[i].id)
    && (forall i :: 0 <= i < |rows| && rows[i].corrects.Some? ==> rows[i].corrects.value < rows[i].id)
  }

  // ---------------------------------------------------------------- append

  function FindByKey(rows: seq<Transaction>, ledgerId: nat, key: string): (found: Option<Transaction>)
    ensures found.Some? <==> KeyTaken(rows, ledgerId, key)
    ensures found.Some? ==> found.value in rows && found.value.ledgerId == ledgerId && found.value.key == key
  {
    if rows == [] then None
    else
      var last := rows[|rows| - 1];
      if last.ledgerId == ledgerId && last.key == key then Some(last)
      else
        assert rows == rows[..|rows| - 1] + [last];
        FindByKey(rows[..|rows| - 1], ledgerId, key)
  }

  datatype Appended = Appended(rows: seq<Transaction>, next: nat, row: Transaction)

  /** What one uninterrupted append does: hand back the row that already holds the key, or write one
      new row, or refuse and change nothing. */
  function Written(rows: seq<Transaction>, next: nat, n: NewTransaction): Result<Appended, AppendError> {
    if !ValidKey(n.key) then Err(InvalidValue)
    else
      var existing := FindByKey(rows, n.ledgerId, n.key);
      if existing.Some? then Ok(Appended(rows, next, existing.value))
      else if !ValidAmount(n.amount) || !ValidReason(n.reason) then Err(InvalidValue)
      else if !Admits(rows, n) then Err(IntegrityError)
      else Ok(Appended(rows + [n.WithId(next)], next + 1, n.WithId(next)))
  }

  lemma AppendKeepsTable(rows: seq<Transaction>, next: nat, n: NewTransaction)
    requires ValidTable(rows, next) && Written(rows, next, n).Ok?
    ensures var done := Written(rows, next, n).value;
            && ValidTable(done.rows, done.next)
            && rows <= done.rows
            && done.row in done.rows
            && done.row.ledgerId == n.ledgerId && done.row.key == n.key
  {
    var done := Written(rows, next, n).value;
    if done.rows != rows {
      assert done.rows[|rows|] == n.WithId(next);
    }
  }

  /** Append, field by field. A key that is no text or too long is refused. A row that holds the key is
      handed back. A row without amount or reason, or with too much of either, is refused, and so is one
      that links to a row that is not there or is linked to already. Otherwise exactly the row that was
      asked for stands behind the others, with the next id. */
  lemma WrittenInFull(rows: seq<Transaction>, next: nat, n: NewTransaction)
    ensures var held := exists i :: 0 <= i < |rows| && rows[i].ledgerId == n.ledgerId && rows[i].key == n.key;
            var sayable := n.amount != 0 && -1_000_000 <= n.amount <= 1_000_000 && ValidText(n.reason, 255);
            var linkable := && (n.reversalOf.Some? ==>
                                  && (exists i :: 0 <= i < |rows| && Some(rows[i].id) == n.reversalOf)
                                  && (forall i :: 0 <= i < |rows| ==> rows[i].reversalOf != n.reversalOf))
                            && (n.corrects.Some? ==>
                                  && (exists i :: 0 <= i < |rows| && Some(rows[i].id) == n.corrects)
                                  && (forall i :: 0 <= i < |rows| ==> rows[i].corrects != n.corrects));
            var outcome := Written(rows, next, n);
            if !ValidText(n.key, 64) then outcome == Err(InvalidValue)
            else if held then outcome.Ok? && outcome.value.rows == rows && outcome.value.next == next
                              && outcome.value.row in rows && outcome.value.row.ledgerId == n.ledgerId && outcome.value.row.key == n.key
            else if !sayable then outcome == Err(InvalidValue)
            else if !linkable then outcome == Err(IntegrityError)
            else
              var row := Transaction(next, n.ledgerId, n.amount, n.reason, n.grantedBy, n.occurredAt, n.key, n.reversalOf, n.corrects);
              outcome == Ok(Appended(rows + [row], next + 1, row))
  {
    if i :| 0 <= i < |rows| && Some(rows[i].id) == n.reversalOf {
      assert Exists(rows, n.reversalOf.value);
    }
    if i :| 0 <= i < |rows| && Some(rows[i].id) == n.corrects {
      assert Exists(rows, n.corrects.value);
    }
  }

  /** Sending the same append again, whatever it now says, changes nothing and answers with the row
      the first one wrote. */
  lemma AppendIsIdempotent(rows: seq<Transaction>, next: nat, n: NewTransaction, again: NewTransaction)
    requires ValidTable(rows, next) && Written(rows, next, n).Ok?
    requires again.ledgerId == n.ledgerId && again.key == n.key
    ensures var done := Written(rows, next, n).value;
            Written(done.rows, done.next, again) == Ok(done)
  {
  }

  function Newest(): Transaction -> Key { (t: Transaction) => Key(-t.occurredAt, -(t.id as int), 0) }

  function ById(): Transaction -> Key { (t: Transaction) => Key(t.id, 0, 0) }

  /** One ledger's rows, newest event first. */
  function ListByLedger(rows: seq<Transaction>, ledgerId: nat): seq<Transaction> {
    SortBy(Filter(rows, InLedger(ledgerId)), Newest())
  }

  /** Exactly the ledger's rows are listed, the later event in front, and of two events at the same time
      the row that was written later. */
  lemma NewestComesFirst(rows: seq<Transaction>, next: nat, ledgerId: nat)
    requires ValidTable(rows, next)
    ensures var listed := ListByLedger(rows, ledgerId);
            && (forall t :: t in listed <==> t in rows && t.ledgerId == ledgerId)
            && (forall i, j :: 0 <= i < j < |listed| ==>
                  listed[i].occurredAt > listed[j].occurredAt
                  || (listed[i].occurredAt == listed[j].occurredAt && listed[i].id > listed[j].id))
  {
    var listed := ListByLedger(rows, ledgerId);
    ListedRows(rows, next, ledgerId);
    hide ListByLedger;
    forall i, j | 0 <= i < j < |listed|
      ensures listed[i].occurredAt > listed[j].occurredAt
              || (listed[i].occurredAt == listed[j].occurredAt && listed[i].id > listed[j].id)
    {
      SameIdSameRow(rows, next, listed[i], listed[j]);
      assert Newest()(listed[i]).AtMost(Newest()(listed[j]));
    }
  }

  lemma ListedRows(rows: seq<Transaction>, next: nat, ledgerId: nat)
    requires ValidTable(rows, next)
    ensures var listed := ListByLedger(rows, ledgerId);
            && (forall t :: t in listed <==> t in rows && t.ledgerId == ledgerId)
            && Distinct(listed) && Sorted(listed, Newest())
  {
    var own, listed := Filter(rows, InLedger(ledgerId)), ListByLedger(rows, ledgerId);
    SortPermutes(own, Newest());
    SortSorts(own, Newest());
    FilterMembers(rows, InLedger(ledgerId));
    FilterKeepsDistinct(rows, InLedger(ledgerId));
    DistinctPermutation(own, listed);
    hide Filter, SortBy, Sorted, Distinct, ValidTable;
    forall t ensures t in listed <==> t in own {
      assert t in multiset(listed) <==> t in multiset(own);
    }
  }

  lemma SameIdSameRow(rows: seq<Transaction>, next: nat, x: Transaction, y: Transaction)
    requires ValidTable(rows, next) && x in rows && y in rows
    ensures x.id == y.id ==> x == y
  {
  }

  /** `grouped` holds, for every asked ledger, its share of the rows. */
  ghost predicate Shares(grouped: map<nat, seq<Transaction>>, found: seq<Transaction>, ledgerIds: seq<nat>) {
    && (forall id :: id in grouped <==> id in ledgerIds)
    && (forall id :: id in grouped ==> grouped[id] == Filter(found, InLedger(id)))
  }

  lemma ShareOneMore(grouped: map<nat, seq<Transaction>>, found: seq<Transaction>, ledgerIds: seq<nat>,
                     row: Transaction)
    requires Shares(grouped, found, ledgerIds) && row.ledgerId in ledgerIds
    ensures Shares(grouped[row.ledgerId := grouped[row.ledgerId] + [row]], found + [row], ledgerIds)
  {
  }

  method GroupByLedger(found: seq<Transaction>, ledgerIds: seq<nat>) returns (grouped: map<nat, seq<Transaction>>)
    requires forall t :: t in found ==> t.ledgerId in ledgerIds
    ensures Shares(grouped, found, ledgerIds)
  {
    grouped := map id | id in ledgerIds :: [];
    for i := 0 to |found|
      invariant Shares(grouped, found[..i], ledgerIds)
    {
      var row := found[i];
      assert row in found;
      ShareOneMore(grouped, found[..i], ledgerIds, row);
      assert found[..i + 1] == found[..i] + [row];
      grouped := grouped[row.ledgerId := grouped[row.ledgerId] + [row]];
    }
    assert found[..|found|] == found;
  }

  class SqlPointTransactionRepository {
    var rows: seq<Transaction>
    var next: nat

    ghost predicate Valid()
      reads this
    {
      ValidTable(rows, next)
    }

    constructor ()
      ensures Valid() && rows == []
    {
      rows, next := [], 1;
    }

    /** The insert inside the savepoint: one row or nothing. */
    method TryInsert(n: NewTransaction) returns (inserted: Option<Transaction>)
      modifies this
      ensures inserted.Some? <==> Admits(old(rows), n)
      ensures inserted.Some? ==> inserted.value == n.WithId(old(next))
      ensures inserted.Some? ==> rows == old(rows) + [inserted.value] && next == old(next) + 1
      ensures inserted.None? ==> rows == old(rows) && next == old(next)
    {
      if !Admits(rows, n) {
        return None;
      }
      inserted := Some(n.WithId(next));
      rows, next := rows + [inserted.value], next + 1;
    }

    method Append(n: NewTransaction) returns (result: Result<Transaction, AppendError>)
      requires Valid()
      modifies this
      ensures Valid()
      ensures var spec := Written(old(rows), old(next), n);
              && (spec.Ok? ==> result == Ok(spec.value.row) && rows == spec.value.rows && next == spec.value.next)
              && (spec.Err? ==> result == Err(spec.error) && rows == old(rows) && next == old(next))
    {
      if Written(rows, next, n).Ok? {
        AppendKeepsTable(rows, next, n);
      }
      if !ValidKey(n.key) {
        return Err(InvalidValue);
      }
      var existing := FindByKey(rows, n.ledgerId, n.key);
      if existing.Some? {
        return Ok(existing.value);
      }
      if !ValidAmount(n.amount) || !ValidReason(n.reason) {
        return Err(InvalidValue);
      }
      var row := TryInsert(n);
      if row.None? {
        // nobody else writes in between here; the interleaved form is in AppendProtocol
        return OrError(FindByKey(rows, n.ledgerId, n.key), IntegrityError);
      }
      return Ok(row.value);
    }

    /** All rows of the asked ledgers in one query, handed out ledger by ledger. */
    method ListByLedgers(ledgerIds: seq<nat>) returns (grouped: map<nat, seq<Transaction>>)
      requires Valid()
      ensures forall id :: id in grouped <==> id in ledgerIds
      ensures forall id :: id in ledgerIds ==> grouped[id] == ListByLedger(rows, id)
    {
      if |ledgerIds| == 0 {
        return map[];
      }
      var found := SortBy(Filter(rows, InLedgers(ledgerIds)), Newest());
      assert forall t :: t in found ==> t.ledgerId in ledgerIds by {
        SortPermutes(Filter(rows, InLedgers(ledgerIds)), Newest());
        FilterMembers(rows, InLedgers(ledgerIds));
      }
      grouped := GroupByLedger(found, ledgerIds);
      forall id | id in ledgerIds ensures grouped[id] == ListByLedger(rows, id) {
        SelectionOfSorted(rows, next, ledgerIds, id);
      }
    }

    /** The one exception to append-only: a whole ledger goes, its reversal rows first. */
    method DeleteByLedger(ledgerId: nat)
      requires Valid()
      modifies this`rows
      ensures Valid()
      ensures rows == Filter(old(rows), OutsideLedger(ledgerId))
      ensures forall t :: t in rows <==> t in old(rows) && t.ledgerId != ledgerId
    {
      ghost var before := rows;
      FilterMembers(rows, OutsideLedger(ledgerId));
      rows := Filter(rows, NotReversalIn(ledgerId));
      rows := Filter(rows, OutsideLedger(ledgerId));
      FilterTwice(before, NotReversalIn(ledgerId), OutsideLedger(ledgerId));
      FilterAgree(before, BothHold(NotReversalIn(ledgerId), OutsideLedger(ledgerId)), OutsideLedger(ledgerId));
      FilterKeepsTable(before, next, OutsideLedger(ledgerId));
    }
  }

  function InLedgers(ledgerIds: seq<nat>): Transaction -> bool { (t: Transaction) => t.ledgerId in ledgerIds }

  function OutsideLedger(ledgerId: nat): Transaction -> bool { (t: Transaction) => t.ledgerId != ledgerId }

  function NotReversalIn(ledgerId: nat): Transaction -> bool {
    (t: Transaction) => t.ledgerId != ledgerId || t.reversalOf.None?
  }

  /** Taking rows out, wherever they stand, breaks no constraint that compares rows. */
  lemma FilterKeepsTable(rows: seq<Transaction>, next: nat, p: Transaction -> bool)
    requires ValidTable(rows, next)
    ensures ValidTable(Filter(rows, p), next)
  {
    var at := FilterPositions(rows, p);
  }

  lemma NewestDistinguishes(rows: seq<Transaction>, next: nat, p: Transaction -> bool)
    requires ValidTable(rows, next)
    ensures KeysDistinguish(Filter(rows, p), Newest())
    ensures KeysDistinguish(Filter(rows, p), ById())
  {
    FilterMembers(rows, p);
    forall x, y | x in Filter(rows, p) && y in Filter(rows, p) && x.id == y.id ensures x == y {
      assert x in rows && y in rows;
      var i :| 0 <= i < |rows| && rows[i] == x;
      var j :| 0 <= j < |rows| && rows[j] == y;
    }
  }

  /** Picking one ledger out of the sorted rows of several is sorting that ledger's rows. */
  lemma SelectionOfSorted(rows: seq<Transaction>, next: nat, ledgerIds: seq<nat>, id: nat)
    requires ValidTable(rows, next) && id in ledgerIds
    ensures Filter(SortBy(Filter(rows, InLedgers(ledgerIds)), Newest()), InLedger(id)) == ListByLedger(rows, id)
  {
    NewestDistinguishes(rows, next, InLedgers(ledgerIds));
    FilterOfSort(Filter(rows, InLedgers(ledgerIds)), InLedger(id), Newest());
    FilterTwice(rows, InLedgers(ledgerIds), InLedger(id));
    FilterAgree(rows, BothHold(InLedgers(ledgerIds), InLedger(id)), InLedger(id));
  }
}
