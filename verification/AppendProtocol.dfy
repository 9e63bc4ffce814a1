/** Any number of requests appending to the same table at once. Each request is one database
    transaction; between any two of its statements the others may run. A transaction sees the
    committed rows and its own. An insert is one atomic step: it waits while another open transaction
    holds a row it clashes with, and otherwise either adds the row or fails on a named constraint. */
module AppendProtocol {
  import opened Basics
  import opened Sorting
  import opened LedgerHistory
  import opened PointTransactions
  import opened LedgerUseCases

  /** One append of a request. With `mustReverse` the request gives up unless the row it is handed
      reverses what it asked for: the guard between the two rows of a correction. */
  datatype Request = Request(row: NewTransaction, mustReverse: bool)

  datatype Cause = KeyHeld | LinkRefused

  datatype Progress =
    | Starting
    | Missed                       // no row holds the key
    | Refused(cause: Cause)        // the insert failed and its savepoint was rolled back
    | Answered(row: Transaction)
    | Raised(why: Cause)           // the constraint error leaves append
    | GaveUp                       // invalid value, or the key was used for something else

  datatype Status = Running | Committed | Aborted

  datatype Txn = Txn(program: seq<Request>, progress: Progress, own: seq<Transaction>, answers: seq<Transaction>, status: Status)

  datatype System = System(committed: seq<Transaction>, next: nat, txns: seq<Txn>)

  datatype Action =
    | Begin(program: seq<Request>)
    | Look(i: nat)
    | Insert(i: nat)
    | LookAgain(i: nat)
    | Advance(i: nat)
    | Commit(i: nat)
    | Abort(i: nat)

  function Visible(s: System, t: Txn): seq<Transaction> { s.committed + t.own }

  predicate Open(s: System, i: nat) { i < |s.txns| && s.txns[i].status.Running? }

  predicate Working(s: System, i: nat) { Open(s, i) && |s.txns[i].answers| < |s.txns[i].program| }

  function Current(t: Txn): Request
    requires |t.answers| < |t.program|
  {
    t.program[|t.answers|]
  }

  /** Two rows that cannot both be in the table. */
  predicate Clash(x: Transaction, y: Transaction) {
    || x.id == y.id
    || (x.ledgerId == y.ledgerId && x.key == y.key)
    || (x.reversalOf.Some? && x.reversalOf == y.reversalOf)
    || (x.corrects.Some? && x.corrects == y.corrects)
  }

  predicate ClashesWithAny(rows: seq<Transaction>, x: Transaction) {
    exists k :: 0 <= k < |rows| && Clash(x, rows[k])
  }

  /** Another open transaction holds a row that the new one clashes with. */
  predicate Waits(s: System, i: nat, x: Transaction) {
    exists j :: 0 <= j < |s.txns| && j != i && s.txns[j].status.Running? && ClashesWithAny(s.txns[j].own, x)
  }

  /** The rows a request links to were read before, as they were committed. */
  ghost predicate PlannedOn(committed: seq<Transaction>, n: NewTransaction) {
    && (n.reversalOf.Some? ==>
          exists t :: t in committed && t.id == n.reversalOf.value && t.ledgerId == n.ledgerId
                      && t.reversalOf.None? && t.amount == -n.amount)
    && (n.corrects.Some? ==>
          exists t :: t in committed && t.id == n.corrects.value && t.ledgerId == n.ledgerId && t.reversalOf.None?)
  }

  /** A request that says a row again has reversed that row just before, in the same ledger. */
  ghost predicate WellPlanned(committed: seq<Transaction>, program: seq<Request>) {
    && (forall k :: 0 <= k < |program| ==> PlannedOn(committed, program[k].row))
    && (forall k :: 0 <= k < |program| && program[k].row.corrects.Some? ==>
          && k > 0 && program[k - 1].mustReverse
          && program[k - 1].row.reversalOf == program[k].row.corrects
          && program[k - 1].row.ledgerId == program[k].row.ledgerId)
  }

  // ---------------------------------------------------------------- steps

  function Proceed(s: System, i: nat, t: Txn): System
    requires i < |s.txns|
  {
    s.(txns := s.txns[i := t])
  }

  function DoLook(visible: seq<Transaction>, n: NewTransaction): Progress {
    if !ValidKey(n.key) then GaveUp
    else
      var existing := FindByKey(visible, n.ledgerId, n.key);
      if existing.Some? then Answered(existing.value)
      else if !ValidAmount(n.amount) || !ValidReason(n.reason) then GaveUp
      else Missed
  }

  function RefusalCause(visible: seq<Transaction>, n: NewTransaction): Cause {
    if KeyTaken(visible, n.ledgerId, n.key) then KeyHeld else LinkRefused
  }

  function DoLookAgain(visible: seq<Transaction>, n: NewTransaction, cause: Cause): Progress {
    var duplicated := FindByKey(visible, n.ledgerId, n.key);
    if duplicated.Some? then Answered(duplicated.value) else Raised(cause)
  }

  /** Hands the row back to the use case, which goes on to its next append or gives up. */
  function DoAdvance(t: Txn, request: Request, row: Transaction): Txn {
    if request.mustReverse && row.reversalOf != request.row.reversalOf then t.(progress := GaveUp)
    else t.(answers := t.answers + [row], progress := Starting)
  }

  ghost function Do(s: System, a: Action): System {
    match a
    case Begin(program) =>
      if WellPlanned(s.committed, program)
      then s.(txns := s.txns + [Txn(program, Starting, [], [], Running)]) else s
    case Look(i) =>
      if Working(s, i) && s.txns[i].progress.Starting?
      then Proceed(s, i, s.txns[i].(progress := DoLook(Visible(s, s.txns[i]), Current(s.txns[i]).row))) else s
    case Insert(i) =>
      if Working(s, i) && s.txns[i].progress.Missed? && !Waits(s, i, Current(s.txns[i]).row.WithId(s.next)) then
        var t, n := s.txns[i], Current(s.txns[i]).row;
        if Admits(Visible(s, t), n)
        then Proceed(s, i, t.(own := t.own + [n.WithId(s.next)], progress := Answered(n.WithId(s.next)))).(next := s.next + 1)
        else Proceed(s, i, t.(progress := Refused(RefusalCause(Visible(s, t), n)))).(next := s.next + 1)
      else s
    case LookAgain(i) =>
      if Working(s, i) && s.txns[i].progress.Refused?
      then Proceed(s, i, s.txns[i].(progress := DoLookAgain(Visible(s, s.txns[i]), Current(s.txns[i]).row, s.txns[i].progress.cause))) else s
    case Advance(i) =>
      if Working(s, i) && s.txns[i].progress.Answered?
      then Proceed(s, i, DoAdvance(s.txns[i], Current(s.txns[i]), s.txns[i].progress.row)) else s
    case Commit(i) =>
      if Open(s, i) && |s.txns[i].answers| == |s.txns[i].program|
      then Proceed(s, i, s.txns[i].(status := Committed)).(committed := s.committed + s.txns[i].own) else s
    case Abort(i) =>
      if Open(s, i) then Proceed(s, i, s.txns[i].(own := [], status := Aborted)) else s
  }

  ghost function Run(actions: seq<Action>): System {
    if actions == [] then System([], 1, [])
    else Do(Run(actions[..|actions| - 1]), actions[|actions| - 1])
  }

  // ---------------------------------------------------------------- the invariant

  /** No two rows clash. */
  ghost predicate NoClash(rows: seq<Transaction>) {
    forall i, j :: 0 <= i < j < |rows| ==> !Clash(rows[i], rows[j])
  }

  ghost predicate Apart(xs: seq<Transaction>, ys: seq<Transaction>) {
    forall x, y :: x in xs && y in ys ==> !Clash(x, y)
  }

  ghost predicate IdsBelow(rows: seq<Transaction>, next: nat) {
    forall x :: x in rows ==> x.id < next
  }

  /** The links of x lead to older rows of its own ledger, and a correction comes after the reversal. */
  ghost predicate LinkedIn(rows: seq<Transaction>, x: Transaction) {
    && (x.reversalOf.Some? ==>
          exists t :: t in rows && t.id == x.reversalOf.value && t.id < x.id && t.ledgerId == x.ledgerId
                      && t.reversalOf.None? && t.amount == -x.amount)
    && (x.corrects.Some? ==>
          && (exists t :: t in rows && t.id == x.corrects.value && t.id < x.id && t.ledgerId == x.ledgerId && t.reversalOf.None?)
          && (exists r :: r in rows && r.reversalOf == x.corrects && r.id < x.id && r.ledgerId == x.ledgerId))
  }

  ghost predicate AllLinked(rows: seq<Transaction>) { forall x :: x in rows ==> LinkedIn(rows, x) }

  /** The rows handed out so far are rows the transaction can see, and are what was asked for. */
  ghost predicate AnswersHold(visible: seq<Transaction>, t: Txn) {
    && |t.answers| <= |t.program|
    && (forall k :: 0 <= k < |t.answers| ==>
          && t.answers[k] in visible
          && t.answers[k].ledgerId == t.program[k].row.ledgerId && t.answers[k].key == t.program[k].row.key
          && (t.program[k].mustReverse ==> t.answers[k].reversalOf == t.program[k].row.reversalOf))
  }

  ghost predicate ProgressHolds(visible: seq<Transaction>, t: Txn) {
    |t.answers| < |t.program| ==>
      var n := Current(t).row;
      && (t.progress.Answered? ==>
            t.progress.row in visible && t.progress.row.ledgerId == n.ledgerId && t.progress.row.key == n.key)
      && (t.progress.Refused? && t.progress.cause.KeyHeld? ==> KeyTaken(visible, n.ledgerId, n.key))
      && (t.progress.Raised? ==> t.progress.why.LinkRefused?)
  }

  /** What holds of one transaction, given the committed rows. */
  ghost predicate TxnHolds(committed: seq<Transaction>, next: nat, t: Txn) {
    match t.status
    case Running =>
      && NoClash(committed + t.own) && IdsBelow(t.own, next) && AllLinked(committed + t.own)
      && WellPlanned(committed, t.program)
      && AnswersHold(committed + t.own, t) && ProgressHolds(committed + t.own, t)
    case Committed => |t.answers| == |t.program| && AnswersHold(committed, t)
    case Aborted => t.own == []
  }

  ghost predicate OpenApart(txns: seq<Txn>) {
    forall i, j :: 0 <= i < |txns| && 0 <= j < |txns| && i != j && txns[i].status.Running? && txns[j].status.Running? ==>
      Apart(txns[i].own, txns[j].own)
  }

  ghost predicate Invariant(s: System) {
    && NoClash(s.committed) && IdsBelow(s.committed, s.next) && AllLinked(s.committed)
    && (forall i :: 0 <= i < |s.txns| ==> TxnHolds(s.committed, s.next, s.txns[i]))
    && OpenApart(s.txns)
  }

  // ---------------------------------------------------------------- every step keeps it

  lemma MoreRowsKeepLinks(rows: seq<Transaction>, more: seq<Transaction>)
    requires AllLinked(rows) && (forall x :: x in rows ==> x in more)
    requires forall x :: x in more ==> x in rows || LinkedIn(more, x)
    ensures AllLinked(more)
  {
  }

  lemma KeyStaysTaken(rows: seq<Transaction>, more: seq<Transaction>, ledgerId: nat, key: string)
    requires KeyTaken(rows, ledgerId, key) && forall x :: x in rows ==> x in more
    ensures KeyTaken(more, ledgerId, key)
  {
    var i :| 0 <= i < |rows| && rows[i].ledgerId == ledgerId && rows[i].key == key;
    assert rows[i] in more;
  }

  lemma PlansStay(committed: seq<Transaction>, more: seq<Transaction>, program: seq<Request>)
    requires WellPlanned(committed, program) && forall x :: x in committed ==> x in more
    ensures WellPlanned(more, program)
  {
  }

  lemma ThreePartsApart(a: seq<Transaction>, b: seq<Transaction>, c: seq<Transaction>)
    requires NoClash(a + b) && NoClash(a + c) && Apart(b, c)
    ensures NoClash(a + b + c)
  {
    var all := a + b + c;
    forall i, j | 0 <= i < j < |all| ensures !Clash(all[i], all[j]) {
      if j < |a + b| {
        assert all[i] == (a + b)[i] && all[j] == (a + b)[j];
      } else {
        assert all[j] == (a + c)[j - |b|] == c[j - |a + b|];
        if i < |a| {
          assert all[i] == (a + c)[i];
        } else if i < |a + b| {
          assert all[i] == b[i - |a|];
        } else {
          assert all[i] == (a + c)[i - |b|];
        }
      }
    }
  }

  /** What a running transaction relies on is not taken away by another one's commit. */
  lemma CommitOfAnother(committed: seq<Transaction>, next: nat, t: Txn, rows: seq<Transaction>)
    requires TxnHolds(committed, next, t)
    requires NoClash(committed + rows) && AllLinked(committed + rows)
    requires t.status.Running? ==> Apart(t.own, rows) && Apart(rows, t.own)
    ensures TxnHolds(committed + rows, next, t)
  {
    var more, before := committed + rows + t.own, committed + t.own;
    assert forall x :: x in before ==> x in more;
    if t.status.Running? {
      ThreePartsApart(committed, rows, t.own);
      PlansStay(committed, committed + rows, t.program);
      MoreRowsKeepLinks(committed + rows, more) by {
        forall x | x in more ensures x in committed + rows || LinkedIn(more, x) {
          if x in t.own { assert LinkedIn(before, x); }
        }
      }
      if |t.answers| < |t.program| && t.progress.Refused? && t.progress.cause.KeyHeld? {
        KeyStaysTaken(before, more, Current(t).row.ledgerId, Current(t).row.key);
      }
    }
  }

  lemma NewRowClashesWithNothing(visible: seq<Transaction>, next: nat, n: NewTransaction)
    requires NoClash(visible) && IdsBelow(visible, next) && Admits(visible, n)
    ensures NoClash(visible + [n.WithId(next)])
  {
  }

  /** The row about to be inserted is linked: its targets were planned, and a correction follows the
      reversal that the previous append handed back. */
  lemma NewRowIsLinked(committed: seq<Transaction>, next: nat, t: Txn)
    requires TxnHolds(committed, next, t) && t.status.Running? && |t.answers| < |t.program|
    requires IdsBelow(committed, next)
    ensures var row := Current(t).row.WithId(next); LinkedIn(committed + t.own + [row], row)
  {
    var n, k := Current(t).row, |t.answers|;
    var visible := committed + t.own;
    assert PlannedOn(committed, t.program[k].row);
    if n.corrects.Some? {
      var r := t.answers[k - 1];
      assert t.program[k - 1].mustReverse;
      assert r in visible && r.id < next;
    }
  }

  lemma InsertKeepsTxn(committed: seq<Transaction>, next: nat, t: Txn)
    requires TxnHolds(committed, next, t) && t.status.Running? && |t.answers| < |t.program|
    requires IdsBelow(committed, next) && Admits(committed + t.own, Current(t).row)
    ensures var row := Current(t).row.WithId(next);
            TxnHolds(committed, next + 1, t.(own := t.own + [row], progress := Answered(row)))
  {
    var row := Current(t).row.WithId(next);
    var after := t.(own := t.own + [row], progress := Answered(row));
    NewRowClashesWithNothing(committed + t.own, next, Current(t).row);
    NewRowIsLinked(committed, next, t);
    assert committed + after.own == committed + t.own + [row];
    MoreRowsKeepLinks(committed + t.own, committed + after.own);
  }

  lemma TxnSurvivesNext(committed: seq<Transaction>, next: nat, t: Txn)
    requires TxnHolds(committed, next, t)
    ensures TxnHolds(committed, next + 1, t)
  {
  }

  lemma BeginKeepsInvariant(s: System, program: seq<Request>)
    requires Invariant(s)
    ensures Invariant(Do(s, Begin(program)))
  {
  }

  /** A step that changes nothing but one running transaction's progress and answers. */
  lemma ProgressKeepsInvariant(s: System, i: nat, t: Txn)
    requires Invariant(s) && Open(s, i)
    requires t.status.Running? && t.own == s.txns[i].own && TxnHolds(s.committed, s.next, t)
    ensures Invariant(Proceed(s, i, t))
  {
  }

  lemma LookKeepsTxn(committed: seq<Transaction>, next: nat, t: Txn)
    requires TxnHolds(committed, next, t) && t.status.Running? && |t.answers| < |t.program|
    ensures TxnHolds(committed, next, t.(progress := DoLook(committed + t.own, Current(t).row)))
  {
  }

  lemma LookAgainKeepsTxn(committed: seq<Transaction>, next: nat, t: Txn)
    requires TxnHolds(committed, next, t) && t.status.Running? && |t.answers| < |t.program| && t.progress.Refused?
    ensures TxnHolds(committed, next, t.(progress := DoLookAgain(committed + t.own, Current(t).row, t.progress.cause)))
  {
  }

  lemma AdvanceKeepsTxn(committed: seq<Transaction>, next: nat, t: Txn)
    requires TxnHolds(committed, next, t) && t.status.Running? && |t.answers| < |t.program| && t.progress.Answered?
    ensures TxnHolds(committed, next, DoAdvance(t, Current(t), t.progress.row))
  {
  }

  lemma RefusalKeepsTxn(committed: seq<Transaction>, next: nat, t: Txn)
    requires TxnHolds(committed, next, t) && t.status.Running? && |t.answers| < |t.program|
    ensures TxnHolds(committed, next, t.(progress := Refused(RefusalCause(committed + t.own, Current(t).row))))
  {
  }

  /** The row that goes in clashes with no row another open transaction holds. */
  lemma InsertedIsApart(s: System, i: nat, row: Transaction)
    requires Invariant(s) && Open(s, i) && !Waits(s, i, row)
    ensures OpenApart(s.txns[i := s.txns[i].(own := s.txns[i].own + [row], progress := Answered(row))])
  {
  }

  lemma InsertKeepsInvariant(s: System, i: nat)
    requires Invariant(s)
    ensures Invariant(Do(s, Insert(i)))
  {
    hide NoClash, AllLinked, Apart, OpenApart, AnswersHold, ProgressHolds, WellPlanned;
    if Working(s, i) && s.txns[i].progress.Missed? && !Waits(s, i, Current(s.txns[i]).row.WithId(s.next)) {
      var t, n := s.txns[i], Current(s.txns[i]).row;
      var after := Do(s, Insert(i));
      assert TxnHolds(s.committed, s.next, t);
      forall j | 0 <= j < |s.txns| && j != i ensures TxnHolds(s.committed, after.next, after.txns[j]) {
        TxnSurvivesNext(s.committed, s.next, s.txns[j]);
      }
      if Admits(Visible(s, t), n) {
        InsertKeepsTxn(s.committed, s.next, t);
        InsertedIsApart(s, i, n.WithId(s.next));
      } else {
        RefusalKeepsTxn(s.committed, s.next, t);
        TxnSurvivesNext(s.committed, s.next, after.txns[i]);
        ProgressKeepsInvariant(s, i, after.txns[i]);
      }
    }
  }

  lemma CommitKeepsInvariant(s: System, i: nat)
    requires Invariant(s)
    ensures Invariant(Do(s, Commit(i)))
  {
    if Open(s, i) && |s.txns[i].answers| == |s.txns[i].program| {
      var t, after := s.txns[i], Do(s, Commit(i));
      assert TxnHolds(s.committed, s.next, t);
      hide NoClash, AllLinked, Apart, AnswersHold, ProgressHolds, WellPlanned;
      forall j | 0 <= j < |s.txns| && j != i ensures TxnHolds(after.committed, after.next, after.txns[j]) {
        assert TxnHolds(s.committed, s.next, s.txns[j]);
        CommitOfAnother(s.committed, s.next, s.txns[j], t.own);
      }
    }
  }

  lemma AbortKeepsInvariant(s: System, i: nat)
    requires Invariant(s)
    ensures Invariant(Do(s, Abort(i)))
  {
  }

  lemma StepKeepsInvariant(s: System, a: Action)
    requires Invariant(s)
    ensures Invariant(Do(s, a))
  {
    hide Invariant, TxnHolds;
    match a
    case Begin(program) => BeginKeepsInvariant(s, program);
    case Look(i) => ProgressStepKeepsInvariant(s, a, i);
    case Insert(i) => InsertKeepsInvariant(s, i);
    case LookAgain(i) => ProgressStepKeepsInvariant(s, a, i);
    case Advance(i) => ProgressStepKeepsInvariant(s, a, i);
    case Commit(i) => CommitKeepsInvariant(s, i);
    case Abort(i) => AbortKeepsInvariant(s, i);
  }

  lemma ProgressStepKeepsInvariant(s: System, a: Action, i: nat)
    requires Invariant(s) && (a == Look(i) || a == LookAgain(i) || a == Advance(i))
    ensures Invariant(Do(s, a))
  {
    hide NoClash, AllLinked, Apart, OpenApart, AnswersHold, ProgressHolds, WellPlanned, IdsBelow, DoLook, DoLookAgain;
    if Working(s, i) {
      var t := s.txns[i];
      assert TxnHolds(s.committed, s.next, t);
      hide TxnHolds;
      if a.Look? && t.progress.Starting? {
        LookKeepsTxn(s.committed, s.next, t);
        ProgressKeepsInvariant(s, i, Do(s, a).txns[i]);
      } else if a.LookAgain? && t.progress.Refused? {
        LookAgainKeepsTxn(s.committed, s.next, t);
        ProgressKeepsInvariant(s, i, Do(s, a).txns[i]);
      } else if a.Advance? && t.progress.Answered? {
        AdvanceKeepsTxn(s.committed, s.next, t);
        ProgressKeepsInvariant(s, i, Do(s, a).txns[i]);
      }
    }
  }

  lemma {:induction false} RunKeepsInvariant(actions: seq<Action>)
    ensures Invariant(Run(actions))
  {
    if actions != [] {
      RunKeepsInvariant(actions[..|actions| - 1]);
      StepKeepsInvariant(Run(actions[..|actions| - 1]), actions[|actions| - 1]);
    }
  }

  // ---------------------------------------------------------------- what every run guarantees

  /** At most one row per ledger and key, at most one reversal and one correction per row: whatever
      the interleaving, the committed table never holds two rows that clash. */
  lemma CommittedRowsAreUnique(actions: seq<Action>, i: nat, j: nat)
    requires i < j < |Run(actions).committed|
    ensures var x, y := Run(actions).committed[i], Run(actions).committed[j];
            && (x.ledgerId != y.ledgerId || x.key != y.key)
            && (x.reversalOf.Some? ==> x.reversalOf != y.reversalOf)
            && (x.corrects.Some? ==> x.corrects != y.corrects)
  {
    RunKeepsInvariant(actions);
    assert !Clash(Run(actions).committed[i], Run(actions).committed[j]);
  }

  /** What a transaction that was not rolled back has been handed. */
  ghost predicate WasHanded(s: System, i: nat, k: nat, row: Transaction) {
    i < |s.txns| && !s.txns[i].status.Aborted? && k < |s.txns[i].answers| && s.txns[i].answers[k] == row
  }

  lemma HandedRowIsSeen(s: System, i: nat, k: nat, row: Transaction)
    requires Invariant(s) && WasHanded(s, i, k, row)
    ensures row in s.committed || (Open(s, i) && row in s.txns[i].own)
    ensures s.txns[i].status.Running? ==> NoClash(s.committed + s.txns[i].own)
  {
  }

  lemma NoClashMeansSame(rows: seq<Transaction>, x: Transaction, y: Transaction)
    requires NoClash(rows) && x in rows && y in rows && Clash(x, y) && Clash(y, x)
    ensures x == y
  {
  }

  /** All appenders that share a ledger and a key get the same row, even while they are still running. */
  lemma SameKeySameRow(actions: seq<Action>, i: nat, k: nat, x: Transaction, j: nat, l: nat, y: Transaction)
    requires WasHanded(Run(actions), i, k, x) && WasHanded(Run(actions), j, l, y)
    requires x.ledgerId == y.ledgerId && x.key == y.key
    ensures x == y
  {
    var s := Run(actions);
    RunKeepsInvariant(actions);
    HandedRowIsSeen(s, i, k, x);
    HandedRowIsSeen(s, j, l, y);
    if i != j && Open(s, i) && Open(s, j) {
      assert Apart(s.txns[i].own, s.txns[j].own);
    }
    if x in s.committed && y in s.committed {
      NoClashMeansSame(s.committed, x, y);
    } else if x in s.committed || (Open(s, j) && i == j) {
      NoClashMeansSame(s.committed + s.txns[j].own, x, y);
    } else if y in s.committed {
      NoClashMeansSame(s.committed + s.txns[i].own, x, y);
    }
  }

  /** A committed request has every row it asked for in the table, under the key it asked for. */
  lemma CommittedRequestIsInTable(actions: seq<Action>, i: nat, k: nat)
    requires i < |Run(actions).txns| && Run(actions).txns[i].status.Committed? && k < |Run(actions).txns[i].program|
    ensures var s := Run(actions);
            var n := s.txns[i].program[k].row;
            exists row :: row in s.committed && row.ledgerId == n.ledgerId && row.key == n.key && WasHanded(s, i, k, row)
  {
    RunKeepsInvariant(actions);
    assert TxnHolds(Run(actions).committed, Run(actions).next, Run(actions).txns[i]);
    assert WasHanded(Run(actions), i, k, Run(actions).txns[i].answers[k]);
  }

  /** The step after a refused insert, for one transaction. */
  lemma LoserStep(committed: seq<Transaction>, next: nat, t: Txn)
    requires TxnHolds(committed, next, t) && t.status.Running? && |t.answers| < |t.program| && t.progress.Refused?
    ensures var n := Current(t).row;
            var progress := DoLookAgain(committed + t.own, n, t.progress.cause);
            && (t.progress.cause.KeyHeld? ==> progress.Answered?)
            && (progress.Answered? <==> KeyTaken(committed + t.own, n.ledgerId, n.key))
            && (progress.Answered? ==> progress.row.ledgerId == n.ledgerId && progress.row.key == n.key)
            && (!progress.Answered? ==> progress == Raised(LinkRefused))
  {
    hide NoClash, AllLinked, WellPlanned, AnswersHold, IdsBelow;
  }

  /** Who loses the race for a key adopts the winner's row; the error leaves append only when another
      constraint refused the row and nobody holds the key. Either way nothing is written, and a request
      that the error has left can no longer commit. */
  lemma LoserAdoptsOrRaises(actions: seq<Action>, i: nat)
    requires Working(Run(actions), i) && Run(actions).txns[i].progress.Refused?
    ensures var s := Run(actions);
            var after := Do(s, LookAgain(i));
            var n := Current(s.txns[i]).row;
            && after.committed == s.committed && after.txns[i].own == s.txns[i].own
            && (s.txns[i].progress.cause.KeyHeld? ==> after.txns[i].progress.Answered?)
            && (after.txns[i].progress.Answered? <==> KeyTaken(Visible(s, s.txns[i]), n.ledgerId, n.key))
            && (after.txns[i].progress.Answered? ==> after.txns[i].progress.row.key == n.key)
            && (!after.txns[i].progress.Answered? ==>
                  after.txns[i].progress == Raised(LinkRefused) && Do(after, Commit(i)) == after)
  {
    var s := Run(actions);
    assert TxnHolds(s.committed, s.next, s.txns[i]) by { RunKeepsInvariant(actions); }
    hide Run, TxnHolds, DoLookAgain, KeyTaken;
    LoserStep(s.committed, s.next, s.txns[i]);
  }

  /** Committed rows are never changed and never taken away; only a commit adds any. */
  lemma CommittedRowsStay(s: System, a: Action)
    ensures s.committed <= Do(s, a).committed
    ensures !a.Commit? ==> Do(s, a).committed == s.committed
  {
  }

  // ---------------------------------------------------------------- committed ledgers are histories

  ghost function InIdOrder(rows: seq<Transaction>): seq<Transaction> { SortBy(rows, ById()) }

  lemma IdsDistinguish(rows: seq<Transaction>)
    requires NoClash(rows)
    ensures forall i, j :: 0 <= i < j < |InIdOrder(rows)| ==> InIdOrder(rows)[i].id < InIdOrder(rows)[j].id
    ensures NoClash(InIdOrder(rows))
  {
    var ordered := InIdOrder(rows);
    SortPermutes(rows, ById());
    SortSorts(rows, ById());
    ClashCountsTwice(rows);
    forall i, j | 0 <= i < j < |ordered| ensures !Clash(ordered[i], ordered[j]) {
      assert ordered[i] in ordered && ordered[j] in ordered;
      if ordered[i] == ordered[j] {
        RepeatedCountsTwice(ordered, i, j);
        DistinctCountsOnce(rows, ordered[i]);
      } else if Clash(ordered[i], ordered[j]) {
        NoClashMeansSame(rows, ordered[i], ordered[j]);
      }
    }
    forall i, j | 0 <= i < j < |ordered| ensures ordered[i].id < ordered[j].id {
      assert !Clash(ordered[i], ordered[j]);
      assert ById()(ordered[i]).AtMost(ById()(ordered[j]));
    }
  }

  lemma ClashCountsTwice(rows: seq<Transaction>)
    requires NoClash(rows)
    ensures Distinct(rows)
  {
  }

  /** Rows in id order that do not clash and whose links lead back make a history. */
  lemma LinkedRowsAreHistory(rows: seq<Transaction>, l: nat)
    requires NoClash(rows) && AllLinked(rows)
    requires forall i, j :: 0 <= i < j < |rows| ==> rows[i].id < rows[j].id
    ensures Consistent(MovesIn(rows, l))
  {
    var h := MovesIn(rows, l);
    var own := Filter(rows, InLedger(l));
    var at := FilterPositions(rows, InLedger(l));
    FilterMembers(rows, InLedger(l));
    forall i, j | 0 <= i < j < |own| ensures own[i].id < own[j].id && !Clash(own[i], own[j]) {
      assert rows[at[i]].id < rows[at[j]].id;
    }
    assert OwnRows(rows, l, own);
    hide LinkedIn, PlainOf, Plain, Reversed, Corrected, NoClash;
    forall i | 0 <= i < |h| ensures Writable(h, i) {
      assert own[i] in own && LinkedIn(rows, own[i]);
      if own[i].reversalOf.Some? {
        OwnReversalIsWritable(rows, l, own, i);
      }
      if own[i].corrects.Some? {
        OwnCorrectionIsWritable(rows, l, own, i);
      }
    }
  }

  lemma OlderOwnRow(own: seq<Transaction>, i: nat, t: Transaction) returns (j: nat)
    requires i < |own| && t in own && t.id < own[i].id
    requires forall a, b :: 0 <= a < b < |own| ==> own[a].id < own[b].id
    ensures j < i && own[j] == t
  {
    j :| 0 <= j < |own| && own[j] == t;
  }

  /** One ledger's rows in id order, none clashing with another. */
  ghost predicate OwnRows(rows: seq<Transaction>, l: nat, own: seq<Transaction>) {
    && (forall x :: x in own <==> x in rows && x.ledgerId == l)
    && (forall a, b :: 0 <= a < b < |own| ==> own[a].id < own[b].id)
    && NoClash(own)
  }

  lemma OwnReversalIsWritable(rows: seq<Transaction>, l: nat, own: seq<Transaction>, i: nat)
    requires OwnRows(rows, l, own) && i < |own| && LinkedIn(rows, own[i]) && own[i].reversalOf.Some?
    ensures var h := MovesOf(own); PlainOf(h, i, h[i].reverses.value, -h[i].amount) && !Reversed(h, i, h[i].reverses.value)
  {
    var h, x := MovesOf(own), own[i];
    assert x in own;
    var t :| t in rows && t.id == x.reversalOf.value && t.id < x.id && t.ledgerId == x.ledgerId && t.reversalOf.None? && t.amount == -x.amount;
    var j := OlderOwnRow(own, i, t);
    assert h[j].key == x.reversalOf.value;
    forall k | 0 <= k < i ensures h[k].reverses != h[i].reverses {
      assert !Clash(own[k], own[i]);
    }
  }

  lemma OwnCorrectionIsWritable(rows: seq<Transaction>, l: nat, own: seq<Transaction>, i: nat)
    requires OwnRows(rows, l, own) && i < |own| && LinkedIn(rows, own[i]) && own[i].corrects.Some?
    ensures var h := MovesOf(own);
            var t := h[i].corrects.value; Plain(h, i, t) && !Corrected(h, i, t) && Reversed(h, i + 1, t)
  {
    var h, x := MovesOf(own), own[i];
    assert x in own;
    var t :| t in rows && t.id == x.corrects.value && t.id < x.id && t.ledgerId == x.ledgerId && t.reversalOf.None?;
    var j := OlderOwnRow(own, i, t);
    assert h[j].key == x.corrects.value;
    var r :| r in rows && r.reversalOf == x.corrects && r.id < x.id && r.ledgerId == x.ledgerId;
    var k := OlderOwnRow(own, i, r);
    assert h[k].reverses == x.corrects;
    forall k | 0 <= k < i ensures h[k].corrects != h[i].corrects {
      assert !Clash(own[k], own[i]);
    }
  }

  /** Whatever the interleaving, every committed ledger is a history that could have been written row
      by row, so its balance is the sum of the rows that still count. */
  lemma CommittedLedgersAreHistories(actions: seq<Action>, l: nat)
    ensures var h := MovesIn(InIdOrder(Run(actions).committed), l);
            Consistent(h) && Sum(Amounts(h)) == Sum(Amounts(LiveRows(h)))
  {
    var rows := Run(actions).committed;
    RunKeepsInvariant(actions);
    hide Consistent, Run, Invariant;
    assert NoClash(rows) && AllLinked(rows) by { InvariantOfCommitted(actions); }
    IdsDistinguish(rows);
    SortPermutes(rows, ById());
    MoreRowsKeepLinks(rows, InIdOrder(rows));
    LinkedRowsAreHistory(InIdOrder(rows), l);
    BalanceIsSumOfLiveRows(MovesIn(InIdOrder(rows), l));
  }

  lemma InvariantOfCommitted(actions: seq<Action>)
    ensures NoClash(Run(actions).committed) && AllLinked(Run(actions).committed)
  {
    RunKeepsInvariant(actions);
  }

  // ---------------------------------------------------------------- one appender alone

  /** The three steps of an append that nobody interrupts. */
  ghost function Uninterrupted(s: System, i: nat): System { Do(Do(Do(s, Look(i)), Insert(i)), LookAgain(i)) }

  /** They do what the sequential specification of append says. */
  lemma UninterruptedAppendIsWritten(s: System, i: nat)
    requires Working(s, i) && s.txns[i].progress.Starting?
    requires forall j :: 0 <= j < |s.txns| && j != i && s.txns[j].status.Running? ==> s.txns[j].own == []
    ensures var after := Uninterrupted(s, i);
            var spec := PointTransactions.Written(Visible(s, s.txns[i]), s.next, Current(s.txns[i]).row);
            && after.committed == s.committed && i < |after.txns|
            && (spec.Ok? ==> after.txns[i].progress == Answered(spec.value.row)
                             && Visible(after, after.txns[i]) == spec.value.rows && after.next == spec.value.next)
            && (spec.Err? ==> Visible(after, after.txns[i]) == Visible(s, s.txns[i]))
            && (spec == Err(InvalidValue) <==> after.txns[i].progress.GaveUp?)
            && (spec == Err(IntegrityError) <==> after.txns[i].progress.Raised?)
  {
    var t, n := s.txns[i], Current(s.txns[i]).row;
    var looked := Do(s, Look(i));
    assert looked.txns[i] == t.(progress := DoLook(Visible(s, t), n));
    assert forall j :: 0 <= j < |s.txns| && j != i ==> looked.txns[j] == s.txns[j];
    assert !Waits(looked, i, n.WithId(s.next));
    assert s.committed + (t.own + [n.WithId(s.next)]) == s.committed + t.own + [n.WithId(s.next)];
  }
}
