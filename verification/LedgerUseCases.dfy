/** The operations that write a ledger - recording, reversing, correcting, the daily bonus and the
    removal of a whole ledger - and why the ledger stays a history that can be written row by row.
    Each operation is one database transaction: an error leaves the table as it was. */
module LedgerUseCases {
  import opened Basics
  import opened LedgerHistory
  import opened PointTransactions
  import opened Texts

  const STEP_SEPARATOR := '#'
  const REVERSAL_STEP := "#reversal"
  const CORRECTION_STEP := "#correction"
  const DAILY_BONUS_BASE := "daily-bonus#"
  const KEY_MAX_BASE_LENGTH := KEY_MAX_LENGTH - 1 - 12

  datatype Table = Table(rows: seq<Transaction>, next: nat)

  datatype UseCaseError =
    | InvalidRequest
    | TransactionNotFound
    | TransactionAlreadyReversed
    | ReversalOfReversal
    | CorrectionOfReversal
    | IdempotencyKeyReused
    | WriteRefused(cause: AppendError)

  datatype Written = Written(table: Table, written: seq<Transaction>)

  datatype Command =
    | Record(ledgerId: nat, actor: nat, amount: int, reason: string, occurredAt: int, key: string)
    | GrantDailyBonus(ledgerId: nat, amount: int, reason: string, occurredAt: int, day: string)
    | Reverse(ledgerId: nat, actor: nat, target: nat, now: int, key: string)
    | Correct(ledgerId: nat, actor: nat, target: nat, amount: int, reason: string, movedTo: Option<int>, now: int, key: string)
    | DeleteLedger(ledgerId: nat)

  /** Keys the clients may choose: the separator is reserved for keys the server derives. */
  predicate ClientKey(key: string) { STEP_SEPARATOR !in key }

  /** The ISO form of a date: ten characters starting with a digit. */
  predicate IsoDay(day: string) { |day| == 10 && '0' <= day[0] <= '9' }

  // ---------------------------------------------------------------- the operations

  function FindInLedger(rows: seq<Transaction>, ledgerId: nat, id: nat): (found: Option<Transaction>)
    ensures found.Some? ==> found.value in rows && found.value.id == id && found.value.ledgerId == ledgerId
    ensures found.None? ==> forall t :: t in rows ==> t.id != id || t.ledgerId != ledgerId
  {
    if rows == [] then None
    else
      var last := rows[|rows| - 1];
      assert rows == rows[..|rows| - 1] + [last];
      if last.id == id && last.ledgerId == ledgerId then Some(last)
      else FindInLedger(rows[..|rows| - 1], ledgerId, id)
  }

  function WriteOne(t: Table, n: NewTransaction): Result<Written, UseCaseError> {
    match PointTransactions.Written(t.rows, t.next, n)
    case Ok(done) => Ok(Written(Table(done.rows, done.next), [done.row]))
    case Err(cause) => Err(WriteRefused(cause))
  }

  function PlanReversal(original: Transaction, actor: nat, now: int,
                        key: string): Result<NewTransaction, UseCaseError> {
    if original.reversalOf.Some? then Err(ReversalOfReversal)
    else Ok(NewTransaction(original.ledgerId, -original.amount, original.reason, Some(actor), now, key,
                           Some(original.id), None))
  }

  function PlanCorrection(original: Transaction, actor: nat, amount: int, reason: string,
                          occurredAt: Option<int>, key: string): Result<NewTransaction, UseCaseError> {
    if original.reversalOf.Some? then Err(CorrectionOfReversal)
    else if !ValidAmount(amount) || !ValidReason(reason) then Err(WriteRefused(InvalidValue))
    else Ok(NewTransaction(original.ledgerId, amount, reason, Some(actor),
                           if occurredAt.Some? then occurredAt.value else original.occurredAt, key,
                           None, Some(original.id)))
  }

  function RecordPoints(t: Table, c: Command): Result<Written, UseCaseError>
    requires c.Record?
  {
    if !ClientKey(c.key) then Err(InvalidRequest)
    else WriteOne(t, NewTransaction(c.ledgerId, c.amount, c.reason, Some(c.actor), c.occurredAt, c.key, None, None))
  }

  function ReverseRow(t: Table, c: Command): Result<Written, UseCaseError>
    requires c.Reverse?
  {
    if !ClientKey(c.key) then Err(InvalidRequest)
    else
      var original := FindInLedger(t.rows, c.ledgerId, c.target);
      if original.None? then Err(TransactionNotFound)
      else if ReversalTaken(t.rows, original.value.id) then Err(TransactionAlreadyReversed)
      else
        match PlanReversal(original.value, c.actor, c.now, c.key)
        case Err(e) => Err(e)
        case Ok(n) => WriteOne(t, n)
  }

  function CorrectRow(t: Table, c: Command): Result<Written, UseCaseError>
    requires c.Correct?
  {
    if !ClientKey(c.key) || |c.key| > KEY_MAX_BASE_LENGTH then Err(InvalidRequest)
    else
      var original := FindInLedger(t.rows, c.ledgerId, c.target);
      if original.None? then Err(TransactionNotFound)
      else if ReversalTaken(t.rows, original.value.id) then Err(TransactionAlreadyReversed)
      else
        match PlanCorrection(original.value, c.actor, c.amount, c.reason, c.movedTo, c.key + CORRECTION_STEP)
        case Err(e) => Err(e)
        case Ok(correction) =>
          match PlanReversal(original.value, c.actor, c.now, c.key + REVERSAL_STEP)
          case Err(e) => Err(e)
          case Ok(undo) =>
            match WriteOne(t, undo)
            case Err(e) => Err(e)
            case Ok(first) =>
              if first.written[0].reversalOf != undo.reversalOf then Err(IdempotencyKeyReused)
              else
                match WriteOne(first.table, correction)
                case Err(e) => Err(e)
                case Ok(second) => Ok(Written(second.table, first.written + second.written))
  }

  function Execute(t: Table, c: Command): Result<Written, UseCaseError> {
    match c
    case Record(_, _, _, _, _, _) => RecordPoints(t, c)
    case GrantDailyBonus(ledgerId, amount, reason, occurredAt, day) =>
      if !IsoDay(day) then Err(InvalidRequest)
      else WriteOne(t, NewTransaction(ledgerId, amount, reason, None, occurredAt, DAILY_BONUS_BASE + day, None, None))
    case Reverse(_, _, _, _, _) => ReverseRow(t, c)
    case Correct(_, _, _, _, _, _, _, _) => CorrectRow(t, c)
    case DeleteLedger(ledgerId) => Ok(Written(Table(Filter(t.rows, OutsideLedger(ledgerId)), t.next), []))
  }

  /** One request: commit when it succeeds, roll back when it does not. */
  function Apply(t: Table, c: Command): Table {
    match Execute(t, c)
    case Ok(done) => done.table
    case Err(_) => t
  }

  function Run(t: Table, cs: seq<Command>): Table {
    if cs == [] then t else Apply(Run(t, cs[..|cs| - 1]), cs[|cs| - 1])
  }

  // ---------------------------------------------------------------- the invariant

  function MoveOfRow(t: Transaction): Move<nat> { Move(t.id, t.amount, t.reversalOf, t.corrects) }

  function MovesOf(rows: seq<Transaction>): seq<Move<nat>> {
    seq(|rows|, i requires 0 <= i < |rows| => MoveOfRow(rows[i]))
  }

  /** One ledger's rows in the order of their ids, as movements. */
  function MovesIn(rows: seq<Transaction>, ledgerId: nat): seq<Move<nat>> {
    MovesOf(Filter(rows, InLedger(ledgerId)))
  }

  ghost predicate LedgersConsistent(rows: seq<Transaction>) {
    forall l: nat :: Consistent(MovesIn(rows, l))
  }

  /** A key derived for a correction row is never there without the key of its reversal row. */
  ghost predicate StepKeysTogether(rows: seq<Transaction>) {
    forall i, key :: 0 <= i < |rows| && rows[i].key == key + CORRECTION_STEP ==>
      KeyTaken(rows, rows[i].ledgerId, key + REVERSAL_STEP)
  }

  ghost predicate Sound(t: Table) {
    && ValidTable(t.rows, t.next)
    && LedgersConsistent(t.rows)
  }

  ghost predicate Invariant(t: Table) { Sound(t) && StepKeysTogether(t.rows) }

  /** The links of a row about to be written lead to rows of the same ledger that allow them. */
  ghost predicate LinksAllowed(rows: seq<Transaction>, n: NewTransaction) {
    && (n.reversalOf.Some? ==>
          && (exists t :: t in rows && t.id == n.reversalOf.value && t.ledgerId == n.ledgerId
                          && t.reversalOf.None? && t.amount == -n.amount)
          && !ReversalTaken(rows, n.reversalOf.value))
    && (n.corrects.Some? ==>
          && (exists t :: t in rows && t.id == n.corrects.value && t.ledgerId == n.ledgerId && t.reversalOf.None?)
          && !CorrectionTaken(rows, n.corrects.value)
          && (exists t :: t in rows && t.reversalOf == n.corrects && t.ledgerId == n.ledgerId))
  }

  lemma MovesInSnoc(rows: seq<Transaction>, row: Transaction, l: nat)
    ensures MovesIn(rows + [row], l) == MovesIn(rows, l) + (if row.ledgerId == l then [MoveOfRow(row)] else [])
  {
  }

  /** A row of the ledger is a movement of the ledger, and the other way round. */
  lemma MoveInLedger(rows: seq<Transaction>, l: nat, t: Transaction) returns (j: nat)
    requires t in rows && t.ledgerId == l
    ensures j < |MovesIn(rows, l)| && MovesIn(rows, l)[j] == MoveOfRow(t)
  {
    FilterMembers(rows, InLedger(l));
    j :| 0 <= j < |Filter(rows, InLedger(l))| && Filter(rows, InLedger(l))[j] == t;
  }

  lemma RowOfMove(rows: seq<Transaction>, l: nat, j: nat) returns (t: Transaction)
    requires j < |MovesIn(rows, l)|
    ensures t in rows && t.ledgerId == l && MovesIn(rows, l)[j] == MoveOfRow(t)
  {
    FilterMembers(rows, InLedger(l));
    t := Filter(rows, InLedger(l))[j];
    assert t in Filter(rows, InLedger(l));
  }

  /** A row of the ledger found among its movements, with any row appended behind. */
  lemma MoveStaysInLedger(rows: seq<Transaction>, l: nat, t: Transaction, last: Move<nat>) returns (j: nat)
    requires t in rows && t.ledgerId == l
    ensures j < |MovesIn(rows, l)| && (MovesIn(rows, l) + [last])[j] == MoveOfRow(t)
  {
    j := MoveInLedger(rows, l, t);
  }

  lemma NewReversalIsWritable(rows: seq<Transaction>, next: nat, n: NewTransaction)
    requires LinksAllowed(rows, n) && n.reversalOf.Some?
    ensures var h := MovesIn(rows, n.ledgerId);
            var g := h + [MoveOfRow(n.WithId(next))];
            PlainOf(g, |h|, n.reversalOf.value, -n.amount) && !Reversed(g, |h|, n.reversalOf.value)
  {
    var l, last := n.ledgerId, MoveOfRow(n.WithId(next));
    var h := MovesIn(rows, l);
    var t :| t in rows && t.id == n.reversalOf.value && t.ledgerId == l && t.reversalOf.None? && t.amount == -n.amount;
    var j := MoveStaysInLedger(rows, l, t, last);
    assert (h + [last])[j].key == t.id;
    forall j | 0 <= j < |h| ensures (h + [last])[j].reverses != n.reversalOf {
      var r := RowOfMove(rows, l, j);
    }
  }

  lemma NewCorrectionIsWritable(rows: seq<Transaction>, next: nat, n: NewTransaction)
    requires LinksAllowed(rows, n) && n.corrects.Some?
    ensures var h := MovesIn(rows, n.ledgerId);
            var g := h + [MoveOfRow(n.WithId(next))];
            Plain(g, |h|, n.corrects.value) && !Corrected(g, |h|, n.corrects.value) && Reversed(g, |h| + 1, n.corrects.value)
  {
    var l, last := n.ledgerId, MoveOfRow(n.WithId(next));
    var h := MovesIn(rows, l);
    var t :| t in rows && t.id == n.corrects.value && t.ledgerId == l && t.reversalOf.None?;
    var j := MoveStaysInLedger(rows, l, t, last);
    assert (h + [last])[j].key == t.id;
    var u :| u in rows && u.reversalOf == n.corrects && u.ledgerId == l;
    var k := MoveStaysInLedger(rows, l, u, last);
    assert (h + [last])[k].reverses == n.corrects;
    forall j | 0 <= j < |h| ensures (h + [last])[j].corrects != n.corrects {
      var r := RowOfMove(rows, l, j);
    }
  }

  lemma NewRowIsWritable(rows: seq<Transaction>, next: nat, n: NewTransaction)
    requires ValidTable(rows, next) && LinksAllowed(rows, n)
    ensures var h := MovesIn(rows, n.ledgerId); Writable(h + [MoveOfRow(n.WithId(next))], |h|)
  {
    hide LinksAllowed, MovesIn, PlainOf, Plain, Reversed, Corrected;
    var l := n.ledgerId;
    var h := MovesIn(rows, l);
    forall j | 0 <= j < |h| ensures h[j].key < next {
      var t := RowOfMove(rows, l, j);
    }
    if n.reversalOf.Some? {
      NewReversalIsWritable(rows, next, n);
    }
    if n.corrects.Some? {
      NewCorrectionIsWritable(rows, next, n);
    }
  }

  lemma WriteKeepsSound(t: Table, n: NewTransaction)
    requires Sound(t) && WriteOne(t, n).Ok?
    requires KeyTaken(t.rows, n.ledgerId, n.key) || LinksAllowed(t.rows, n)
    ensures Sound(WriteOne(t, n).value.table)
  {
    AppendKeepsTable(t.rows, t.next, n);
    var done := WriteOne(t, n).value.table;
    if done.rows != t.rows {
      var row := n.WithId(t.next);
      assert done.rows == t.rows + [row];
      NewRowIsWritable(t.rows, t.next, n);
      forall l: nat ensures Consistent(MovesIn(done.rows, l)) {
        MovesInSnoc(t.rows, row, l);
        if l == n.ledgerId {
          ConsistentAppend(MovesIn(t.rows, l), MoveOfRow(row));
        } else {
          assert MovesIn(t.rows, l) + [] == MovesIn(t.rows, l);
        }
      }
    }
  }

  /** Only reversed rows are ever said again. */
  lemma CorrectedRowIsReversed(rows: seq<Transaction>, target: nat)
    requires LedgersConsistent(rows) && CorrectionTaken(rows, target)
    ensures ReversalTaken(rows, target)
  {
    var i :| 0 <= i < |rows| && rows[i].corrects == Some(target);
    var l := rows[i].ledgerId;
    var j := MoveInLedger(rows, l, rows[i]);
    var h := MovesIn(rows, l);
    assert Writable(h, j);
    var k :| 0 <= k < j + 1 && h[k].reverses == Some(target);
    var r := RowOfMove(rows, l, k);
  }

  lemma ReversalLinksAllowed(rows: seq<Transaction>, original: Transaction, actor: nat, now: int, key: string)
    requires original in rows && original.reversalOf.None? && !ReversalTaken(rows, original.id)
    ensures LinksAllowed(rows, PlanReversal(original, actor, now, key).value)
  {
  }

  /** When the reversal step answers with a row that reverses the target, it has just written it. */
  lemma ReversalStepWrites(t: Table, undo: NewTransaction)
    requires undo.reversalOf.Some? && !ReversalTaken(t.rows, undo.reversalOf.value)
    requires WriteOne(t, undo).Ok? && WriteOne(t, undo).value.written[0].reversalOf == undo.reversalOf
    ensures WriteOne(t, undo).value == Written(Table(t.rows + [undo.WithId(t.next)], t.next + 1), [undo.WithId(t.next)])
  {
  }

  lemma CorrectionLinksAllowed(t: Table, original: Transaction, undo: NewTransaction, correction: NewTransaction)
    requires Sound(t) && original in t.rows && original.reversalOf.None? && !ReversalTaken(t.rows, original.id)
    requires undo.reversalOf == Some(original.id) && undo.ledgerId == original.ledgerId && undo.corrects.None?
    requires correction.corrects == Some(original.id) && correction.ledgerId == original.ledgerId
    requires correction.reversalOf.None?
    ensures LinksAllowed(t.rows + [undo.WithId(t.next)], correction)
  {
    var rows := t.rows + [undo.WithId(t.next)];
    assert rows[|t.rows|] == undo.WithId(t.next) && original in rows;
    if CorrectionTaken(rows, original.id) {
      var i :| 0 <= i < |rows| && rows[i].corrects == Some(original.id);
      assert t.rows[i] == rows[i];
      CorrectedRowIsReversed(t.rows, original.id);
      assert false;
    }
  }

  lemma CorrectKeepsSound(t: Table, c: Command)
    requires c.Correct? && Sound(t) && CorrectRow(t, c).Ok?
    ensures Sound(CorrectRow(t, c).value.table)
  {
    var original := FindInLedger(t.rows, c.ledgerId, c.target).value;
    var correction := PlanCorrection(original, c.actor, c.amount, c.reason, c.movedTo, c.key + CORRECTION_STEP).value;
    var undo := PlanReversal(original, c.actor, c.now, c.key + REVERSAL_STEP).value;
    ReversalStepWrites(t, undo);
    ReversalLinksAllowed(t.rows, original, c.actor, c.now, c.key + REVERSAL_STEP);
    WriteKeepsSound(t, undo);
    CorrectionLinksAllowed(t, original, undo, correction);
    WriteKeepsSound(WriteOne(t, undo).value.table, correction);
  }

  lemma DeleteKeepsSound(t: Table, ledgerId: nat)
    requires Sound(t)
    ensures Sound(Table(Filter(t.rows, OutsideLedger(ledgerId)), t.next))
  {
    FilterKeepsTable(t.rows, t.next, OutsideLedger(ledgerId));
    var rows := Filter(t.rows, OutsideLedger(ledgerId));
    forall l: nat ensures Consistent(MovesIn(rows, l)) {
      FilterTwice(t.rows, OutsideLedger(ledgerId), InLedger(l));
      if l == ledgerId {
        FilterMembers(t.rows, OutsideLedger(ledgerId));
        FilterNone(rows, InLedger(l));
        assert MovesIn(rows, l) == [];
      } else {
        FilterAgree(t.rows, BothHold(OutsideLedger(ledgerId), InLedger(l)), InLedger(l));
        assert MovesIn(rows, l) == MovesIn(t.rows, l);
      }
    }
  }

  /** Every operation keeps every ledger a history that could be written row by row. */
  lemma OperationsKeepSound(t: Table, c: Command)
    requires Sound(t)
    ensures Sound(Apply(t, c))
  {
    if Execute(t, c).Ok? {
      match c
      case Record(ledgerId, actor, amount, reason, occurredAt, key) =>
        WriteKeepsSound(t, NewTransaction(ledgerId, amount, reason, Some(actor), occurredAt, key, None, None));
      case GrantDailyBonus(ledgerId, amount, reason, occurredAt, day) =>
        WriteKeepsSound(t, NewTransaction(ledgerId, amount, reason, None, occurredAt, DAILY_BONUS_BASE + day, None, None));
      case Reverse(ledgerId, actor, target, now, key) =>
        var original := FindInLedger(t.rows, ledgerId, target).value;
        ReversalLinksAllowed(t.rows, original, actor, now, key);
        WriteKeepsSound(t, PlanReversal(original, actor, now, key).value);
      case Correct(_, _, _, _, _, _, _, _) =>
        CorrectKeepsSound(t, c);
      case DeleteLedger(ledgerId) =>
        DeleteKeepsSound(t, ledgerId);
    }
  }

  /** Over every run of operations from an empty table, every ledger stays such a history; so its
      balance is always the sum of the rows that still count. */
  lemma {:induction false} LedgersStayWritable(cs: seq<Command>, l: nat)
    ensures Sound(Run(Table([], 1), cs))
    ensures var h := MovesIn(Run(Table([], 1), cs).rows, l);
            Consistent(h) && Sum(Amounts(h)) == Sum(Amounts(LiveRows(h)))
  {
    if cs != [] {
      LedgersStayWritable(cs[..|cs| - 1], l);
      OperationsKeepSound(Run(Table([], 1), cs[..|cs| - 1]), cs[|cs| - 1]);
    }
    BalanceIsSumOfLiveRows(MovesIn(Run(Table([], 1), cs).rows, l));
  }

  // ---------------------------------------------------------------- what a success means

  /** Characters that tell the derived keys apart. */
  lemma CorrectionKeyShape(base: string)
    ensures var k := base + CORRECTION_STEP;
            STEP_SEPARATOR in k && k[|k| - 1] == 'n' && k[|k| - 10] == 'c'
  {
  }

  lemma ReversalKeyShape(base: string)
    ensures var k := base + REVERSAL_STEP; k[|k| - 1] == 'l'
  {
  }

  lemma DailyBonusKeyShape(day: string)
    requires IsoDay(day)
    ensures var k := DAILY_BONUS_BASE + day; '0' <= k[|k| - 10] <= '9'
  {
  }

  ghost predicate CorrectionKey(key: string) { exists base :: key == base + CORRECTION_STEP }

  lemma NotACorrectionKey(key: string)
    requires ClientKey(key) || (exists base :: key == base + REVERSAL_STEP)
             || (exists day :: IsoDay(day) && key == DAILY_BONUS_BASE + day)
    ensures !CorrectionKey(key)
  {
    if base :| key == base + REVERSAL_STEP {
      ReversalKeyShape(base);
    } else if day :| IsoDay(day) && key == DAILY_BONUS_BASE + day {
      DailyBonusKeyShape(day);
    }
    forall base ensures key != base + CORRECTION_STEP {
      CorrectionKeyShape(base);
    }
  }

  lemma StepSuffixCancels(a: string, b: string)
    requires a + CORRECTION_STEP == b + CORRECTION_STEP
    ensures a == b
  {
    assert |a| == |b|;
    assert (a + CORRECTION_STEP)[..|a|] == a && (b + CORRECTION_STEP)[..|b|] == b;
  }

  /** Writing a row with another kind of key keeps derived keys together. */
  lemma OtherKeysKeepTogether(t: Table, n: NewTransaction)
    requires StepKeysTogether(t.rows) && !CorrectionKey(n.key) && WriteOne(t, n).Ok?
    ensures StepKeysTogether(WriteOne(t, n).value.table.rows)
  {
    var rows := WriteOne(t, n).value.table.rows;
    forall i, key | 0 <= i < |rows| && rows[i].key == key + CORRECTION_STEP
      ensures KeyTaken(rows, rows[i].ledgerId, key + REVERSAL_STEP)
    {
      assert i < |t.rows| && rows[i] == t.rows[i];
      var j :| 0 <= j < |t.rows| && t.rows[j].ledgerId == t.rows[i].ledgerId && t.rows[j].key == key + REVERSAL_STEP;
      assert rows[j] == t.rows[j];
    }
  }

  lemma CorrectionKeepsTogether(t: Table, n: NewTransaction, base: string)
    requires StepKeysTogether(t.rows) && n.key == base + CORRECTION_STEP && WriteOne(t, n).Ok?
    requires KeyTaken(t.rows, n.ledgerId, base + REVERSAL_STEP)
    ensures StepKeysTogether(WriteOne(t, n).value.table.rows)
  {
    var rows := WriteOne(t, n).value.table.rows;
    forall i, key | 0 <= i < |rows| && rows[i].key == key + CORRECTION_STEP
      ensures KeyTaken(rows, rows[i].ledgerId, key + REVERSAL_STEP)
    {
      if i == |t.rows| {
        StepSuffixCancels(key, base);
      }
      var l := rows[i].ledgerId;
      assert KeyTaken(t.rows, l, key + REVERSAL_STEP);
      var j :| 0 <= j < |t.rows| && t.rows[j].ledgerId == l && t.rows[j].key == key + REVERSAL_STEP;
      assert rows[j] == t.rows[j];
    }
  }

  predicate IsRow(row: Transaction, ledgerId: nat, id: nat) { row.id == id && row.ledgerId == ledgerId }

  /** A successful correction has written exactly two rows: now, the reversal of the target, with its
      reason and the opposite amount; and behind it the row that says the target again, as asked, at the
      time of the target unless another is given. */
  lemma CorrectionWritesBothRows(t: Table, c: Command)
    requires c.Correct? && Invariant(t) && CorrectRow(t, c).Ok?
    ensures var done := CorrectRow(t, c).value;
            && done.table.rows == t.rows + done.written && |done.written| == 2
            && done.written[0].reversalOf == Some(c.target) && done.written[0].corrects.None?
            && done.written[1].corrects == Some(c.target) && done.written[1].reversalOf.None?
            && done.written[1].amount == c.amount
            && (forall row :: row in done.written ==> row.ledgerId == c.ledgerId)
            && done.table.next == t.next + 2
            && exists o :: o in t.rows && IsRow(o, c.ledgerId, c.target) && o.reversalOf.None?
                 && done.written[0] == Transaction(t.next, c.ledgerId, -o.amount, o.reason, Some(c.actor), c.now, c.key + "#reversal",
                                                   Some(c.target), None)
                 && done.written[1] == Transaction(t.next + 1, c.ledgerId, c.amount, c.reason, Some(c.actor),
                                                   if c.movedTo.Some? then c.movedTo.value else o.occurredAt, c.key + "#correction",
                                                   None, Some(c.target))
  {
    var original := FindInLedger(t.rows, c.ledgerId, c.target).value;
    var correction := PlanCorrection(original, c.actor, c.amount, c.reason, c.movedTo, c.key + CORRECTION_STEP).value;
    var undo := PlanReversal(original, c.actor, c.now, c.key + REVERSAL_STEP).value;
    ReversalStepWrites(t, undo);
    var first := WriteOne(t, undo).value.table;
    CorrectionKeyIsFree(t, undo, correction, c.key);
    assert first.rows + [correction.WithId(first.next)] ==
           t.rows + [undo.WithId(t.next), correction.WithId(first.next)];
    assert IsRow(original, c.ledgerId, c.target);
  }

  lemma CorrectionKeyIsFree(t: Table, undo: NewTransaction, correction: NewTransaction, base: string)
    requires StepKeysTogether(t.rows) && !KeyTaken(t.rows, undo.ledgerId, undo.key)
    requires undo.ledgerId == correction.ledgerId
    requires undo.key == base + REVERSAL_STEP && correction.key == base + CORRECTION_STEP
    ensures !KeyTaken(t.rows + [undo.WithId(t.next)], correction.ledgerId, correction.key)
  {
  }

  lemma CorrectKeepsTogether(t: Table, c: Command)
    requires c.Correct? && Invariant(t) && CorrectRow(t, c).Ok?
    ensures StepKeysTogether(CorrectRow(t, c).value.table.rows)
  {
    var original := FindInLedger(t.rows, c.ledgerId, c.target).value;
    var correction := PlanCorrection(original, c.actor, c.amount, c.reason, c.movedTo, c.key + CORRECTION_STEP).value;
    var undo := PlanReversal(original, c.actor, c.now, c.key + REVERSAL_STEP).value;
    ReversalStepWrites(t, undo);
    NotACorrectionKey(undo.key);
    OtherKeysKeepTogether(t, undo);
    var first := WriteOne(t, undo).value.table;
    assert first.rows[|t.rows|] == undo.WithId(t.next);
    CorrectionKeepsTogether(first, correction, c.key);
  }

  lemma DeleteKeepsTogether(rows: seq<Transaction>, ledgerId: nat)
    requires StepKeysTogether(rows)
    ensures StepKeysTogether(Filter(rows, OutsideLedger(ledgerId)))
  {
    var kept := Filter(rows, OutsideLedger(ledgerId));
    FilterMembers(rows, OutsideLedger(ledgerId));
    forall i, key | 0 <= i < |kept| && kept[i].key == key + CORRECTION_STEP
      ensures KeyTaken(kept, kept[i].ledgerId, key + REVERSAL_STEP)
    {
      assert kept[i] in kept;
      var k :| 0 <= k < |rows| && rows[k] == kept[i];
      var j :| 0 <= j < |rows| && rows[j].ledgerId == rows[k].ledgerId && rows[j].key == key + REVERSAL_STEP;
      assert rows[j] in kept;
    }
  }

  lemma OperationsKeepInvariant(t: Table, c: Command)
    requires Invariant(t)
    ensures Invariant(Apply(t, c))
  {
    OperationsKeepSound(t, c);
    if Execute(t, c).Ok? {
      match c
      case Record(ledgerId, actor, amount, reason, occurredAt, key) =>
        NotACorrectionKey(key);
        OtherKeysKeepTogether(t, NewTransaction(ledgerId, amount, reason, Some(actor), occurredAt, key, None, None));
      case GrantDailyBonus(ledgerId, amount, reason, occurredAt, day) =>
        NotACorrectionKey(DAILY_BONUS_BASE + day);
        OtherKeysKeepTogether(t, NewTransaction(ledgerId, amount, reason, None, occurredAt, DAILY_BONUS_BASE + day, None, None));
      case Reverse(ledgerId, actor, target, now, key) =>
        var original := FindInLedger(t.rows, ledgerId, target).value;
        NotACorrectionKey(key);
        OtherKeysKeepTogether(t, PlanReversal(original, actor, now, key).value);
      case Correct(_, _, _, _, _, _, _, _) =>
        CorrectKeepsTogether(t, c);
      case DeleteLedger(ledgerId) =>
        DeleteKeepsTogether(t.rows, ledgerId);
    }
  }

  lemma {:induction false} RunsKeepInvariant(cs: seq<Command>)
    ensures Invariant(Run(Table([], 1), cs))
  {
    if cs != [] {
      RunsKeepInvariant(cs[..|cs| - 1]);
      OperationsKeepInvariant(Run(Table([], 1), cs[..|cs| - 1]), cs[|cs| - 1]);
    } else {
      LedgersStayWritable(cs, 0);
    }
  }

  // ---------------------------------------------------------------- what an operation writes

  ghost predicate HoldsKey(rows: seq<Transaction>, ledgerId: nat, key: string, row: Transaction) {
    row in rows && row.ledgerId == ledgerId && row.key == key
  }

  /** The outcome of asking for one row: the row behind the others, or the row that holds the key. */
  ghost predicate WritesOrAdopts(t: Table, done: Written, row: Transaction) {
    if exists held :: HoldsKey(t.rows, row.ledgerId, row.key, held)
    then done.table == t && |done.written| == 1 && HoldsKey(t.rows, row.ledgerId, row.key, done.written[0])
    else done == Written(Table(t.rows + [row], t.next + 1), [row])
  }

  lemma WriteOneWritesOrAdopts(t: Table, n: NewTransaction)
    requires WriteOne(t, n).Ok?
    ensures WritesOrAdopts(t, WriteOne(t, n).value,
                           Transaction(t.next, n.ledgerId, n.amount, n.reason, n.grantedBy, n.occurredAt, n.key, n.reversalOf, n.corrects))
  {
    WrittenInFull(t.rows, t.next, n);
    if i :| 0 <= i < |t.rows| && t.rows[i].ledgerId == n.ledgerId && t.rows[i].key == n.key {
      assert HoldsKey(t.rows, n.ledgerId, n.key, t.rows[i]);
    }
  }

  /** Recording writes the command, in the name of the member who asked. It is refused exactly for a key
      with the reserved character, or one that is no key; or, where the key is new, for an amount or a
      reason that is out of bounds. */
  lemma RecordingWritesTheCommand(t: Table, c: Command)
    requires c.Record?
    ensures var held := exists row :: HoldsKey(t.rows, c.ledgerId, c.key, row);
            && (Execute(t, c).Ok? <==>
                  && '#' !in c.key && ValidText(c.key, 64)
                  && (held || (c.amount != 0 && -1_000_000 <= c.amount <= 1_000_000 && ValidText(c.reason, 255))))
            && (Execute(t, c).Ok? ==>
                  WritesOrAdopts(t, Execute(t, c).value,
                                 Transaction(t.next, c.ledgerId, c.amount, c.reason, Some(c.actor), c.occurredAt, c.key, None, None)))
  {
    var n := NewTransaction(c.ledgerId, c.amount, c.reason, Some(c.actor), c.occurredAt, c.key, None, None);
    WrittenInFull(t.rows, t.next, n);
    if i :| 0 <= i < |t.rows| && t.rows[i].ledgerId == n.ledgerId && t.rows[i].key == n.key {
      assert HoldsKey(t.rows, c.ledgerId, c.key, t.rows[i]);
    }
    hide WritesOrAdopts, HoldsKey;
    if Execute(t, c).Ok? {
      WriteOneWritesOrAdopts(t, n);
    }
  }

  /** The daily bonus is recorded by nobody, under a key made of the day it is for. */
  lemma BonusWritesTheCommand(t: Table, c: Command)
    requires c.GrantDailyBonus? && Execute(t, c).Ok?
    ensures WritesOrAdopts(t, Execute(t, c).value,
                           Transaction(t.next, c.ledgerId, c.amount, c.reason, None, c.occurredAt, "daily-bonus#" + c.day, None, None))
  {
    hide WritesOrAdopts;
    WriteOneWritesOrAdopts(t, NewTransaction(c.ledgerId, c.amount, c.reason, None, c.occurredAt, DAILY_BONUS_BASE + c.day, None, None));
  }

  /** A reversal repeats the reason of its target with the opposite amount, now, in the name of the
      member who asked. */
  lemma ReversalWritesTheOpposite(t: Table, c: Command)
    requires c.Reverse? && Execute(t, c).Ok?
    ensures exists o :: o in t.rows && IsRow(o, c.ledgerId, c.target) && o.reversalOf.None?
              && WritesOrAdopts(t, Execute(t, c).value,
                                Transaction(t.next, c.ledgerId, -o.amount, o.reason, Some(c.actor), c.now, c.key, Some(c.target), None))
  {
    hide WritesOrAdopts;
    var o := FindInLedger(t.rows, c.ledgerId, c.target).value;
    WriteOneWritesOrAdopts(t, PlanReversal(o, c.actor, c.now, c.key).value);
    assert IsRow(o, c.ledgerId, c.target);
  }

  lemma TargetInFull(t: Table, ledgerId: nat, id: nat)
    requires ValidTable(t.rows, t.next)
    ensures var found := FindInLedger(t.rows, ledgerId, id);
            && (found.None? <==> forall row :: row in t.rows ==> !IsRow(row, ledgerId, id))
            && (found.Some? ==> forall row :: row in t.rows && IsRow(row, ledgerId, id) ==> row == found.value)
            && (found.Some? ==> found.value in t.rows && IsRow(found.value, ledgerId, id))
    ensures ReversalTaken(t.rows, id) <==> exists row :: row in t.rows && row.reversalOf == Some(id)
  {
    var found := FindInLedger(t.rows, ledgerId, id);
    if found.Some? {
      assert IsRow(found.value, ledgerId, id);
      forall row | row in t.rows && IsRow(row, ledgerId, id) ensures row == found.value {
        SameIdSameRow(t.rows, t.next, row, found.value);
      }
    }
    if ReversalTaken(t.rows, id) {
      var i :| 0 <= i < |t.rows| && t.rows[i].reversalOf == Some(id);
      assert t.rows[i] in t.rows;
    }
  }

  lemma WritingIsRefusedWith(t: Table, n: NewTransaction)
    ensures WriteOne(t, n).Err? ==> WriteOne(t, n).error.WriteRefused?
  {
  }

  /** Why a row is not reversed, in the order in which it is found out. */
  lemma ReversalIsRefused(t: Table, c: Command)
    requires c.Reverse? && ValidTable(t.rows, t.next)
    ensures var done := Execute(t, c);
            if '#' in c.key then done == Err(InvalidRequest)
            else if forall row :: row in t.rows ==> !IsRow(row, c.ledgerId, c.target) then done == Err(TransactionNotFound)
            else if exists row :: row in t.rows && row.reversalOf == Some(c.target) then done == Err(TransactionAlreadyReversed)
            else if exists row :: row in t.rows && IsRow(row, c.ledgerId, c.target) && row.reversalOf.Some? then
              done == Err(ReversalOfReversal)
            else done.Ok? || done.error.WriteRefused?
  {
    TargetInFull(t, c.ledgerId, c.target);
    hide WriteOne, FindInLedger, ReversalTaken, ValidTable;
    var found := FindInLedger(t.rows, c.ledgerId, c.target);
    if found.Some? && found.value.reversalOf.None? {
      WritingIsRefusedWith(t, PlanReversal(found.value, c.actor, c.now, c.key).value);
    }
  }

  /** ... and why it is not corrected. */
  lemma CorrectionIsRefused(t: Table, c: Command)
    requires c.Correct? && ValidTable(t.rows, t.next)
    ensures var done := Execute(t, c);
            if '#' in c.key || |c.key| > 51 then done == Err(InvalidRequest)
            else if forall row :: row in t.rows ==> !IsRow(row, c.ledgerId, c.target) then done == Err(TransactionNotFound)
            else if exists row :: row in t.rows && row.reversalOf == Some(c.target) then done == Err(TransactionAlreadyReversed)
            else if exists row :: row in t.rows && IsRow(row, c.ledgerId, c.target) && row.reversalOf.Some? then
              done == Err(CorrectionOfReversal)
            else if c.amount == 0 || c.amount < -1_000_000 || c.amount > 1_000_000 || !ValidText(c.reason, 255) then
              done == Err(WriteRefused(InvalidValue))
            else done.Ok? || done.error.WriteRefused? || done.error == IdempotencyKeyReused
  {
    TargetInFull(t, c.ledgerId, c.target);
    hide WriteOne, FindInLedger, ReversalTaken, ValidTable, ValidText;
    var found := FindInLedger(t.rows, c.ledgerId, c.target);
    if found.Some? && found.value.reversalOf.None? && ValidAmount(c.amount) && ValidReason(c.reason) {
      var undo := PlanReversal(found.value, c.actor, c.now, c.key + REVERSAL_STEP).value;
      WritingIsRefusedWith(t, undo);
      if WriteOne(t, undo).Ok? {
        WritingIsRefusedWith(WriteOne(t, undo).value.table,
                             PlanCorrection(found.value, c.actor, c.amount, c.reason, c.movedTo, c.key + CORRECTION_STEP).value);
      }
    }
  }

  /** Removing a ledger removes its rows and no other. */
  lemma DeletingRemovesTheLedger(t: Table, ledgerId: nat)
    ensures var after := Apply(t, DeleteLedger(ledgerId));
            after.next == t.next && forall row :: row in after.rows <==> row in t.rows && row.ledgerId != ledgerId
  {
    FilterMembers(t.rows, OutsideLedger(ledgerId));
  }

  // ---------------------------------------------------------------- what an operation does to a balance

  function BalanceIn(rows: seq<Transaction>, ledgerId: nat): int { Sum(Amounts(MovesIn(rows, ledgerId))) }

  /** The balance starts at nothing and moves with every row of the ledger. */
  lemma BalanceMovesWithRows(rows: seq<Transaction>, row: Transaction, ledgerId: nat)
    ensures BalanceIn([], ledgerId) == 0
    ensures BalanceIn(rows + [row], ledgerId) == BalanceIn(rows, ledgerId) + (if row.ledgerId == ledgerId then row.amount else 0)
  {
    MovesInSnoc(rows, row, ledgerId);
    assert MovesIn([], ledgerId) == [] && Amounts<nat>([]) == [];
    var h := MovesIn(rows, ledgerId);
    hide MovesIn;
    if row.ledgerId == ledgerId {
      assert Amounts(h + [MoveOfRow(row)]) == Amounts(h) + [row.amount];
      SumAppend(Amounts(h), [row.amount]);
      assert [row.amount][..0] == [] && Sum([row.amount]) == row.amount;
    } else {
      assert h + [] == h;
    }
  }

  lemma WritingMovesBalance(t: Table, done: Written, row: Transaction, ledgerId: nat)
    requires WritesOrAdopts(t, done, row)
    ensures BalanceIn(done.table.rows, ledgerId) == BalanceIn(t.rows, ledgerId)
            + (if row.ledgerId == ledgerId && !(exists held :: HoldsKey(t.rows, row.ledgerId, row.key, held)) then row.amount else 0)
  {
    hide BalanceIn, HoldsKey;
    BalanceMovesWithRows(t.rows, row, ledgerId);
  }

  /** The amount that a command is about, given the row it points at. */
  function AmountMoved(c: Command, target: int): int {
    match c
    case Record(_, _, amount, _, _, _) => amount
    case GrantDailyBonus(_, amount, _, _, _) => amount
    case Reverse(_, _, _, _, _) => -target
    case Correct(_, _, _, amount, _, _, _, _) => amount - target
    case DeleteLedger(_) => 0
  }

  /** A row of this amount is what the command points at, if it points at any. */
  ghost predicate PointsAt(t: Table, c: Command, amount: int) {
    c.Reverse? || c.Correct? ==> exists o :: o in t.rows && IsRow(o, c.ledgerId, c.target) && o.amount == amount
  }

  /** What a recording, a bonus, a reversal and a correction do to a balance: a refused one nothing, one
      whose key is new to the ledger adds its amount, the opposite of its target's amount, or the
      difference of the two, to the balance of its own ledger; and a used key changes nothing. */
  lemma OperationsMoveBalance(t: Table, c: Command, ledgerId: nat) returns (target: int)
    requires Invariant(t) && !c.DeleteLedger?
    ensures Execute(t, c).Err? ==> Apply(t, c) == t
    ensures Execute(t, c).Ok? ==> PointsAt(t, c, target)
    ensures BalanceIn(Apply(t, c).rows, ledgerId) == BalanceIn(t.rows, ledgerId) +
              (if c.ledgerId == ledgerId && Apply(t, c) != t then AmountMoved(c, target) else 0)
  {
    hide Invariant, BalanceIn, WriteOne, HoldsKey, Execute;
    target := 0;
    if Execute(t, c).Ok? {
      var done := Execute(t, c).value;
      match c
      case Record(l, actor, amount, reason, occurredAt, key) =>
        RecordingWritesTheCommand(t, c);
        WritingMovesBalance(t, done, Transaction(t.next, l, amount, reason, Some(actor), occurredAt, key, None, None), ledgerId);
      case GrantDailyBonus(l, amount, reason, occurredAt, day) =>
        BonusWritesTheCommand(t, c);
        WritingMovesBalance(t, done, Transaction(t.next, l, amount, reason, None, occurredAt, "daily-bonus#" + day, None, None), ledgerId);
      case Reverse(l, actor, id, now, key) =>
        ReversalWritesTheOpposite(t, c);
        var o :| o in t.rows && IsRow(o, l, id) && o.reversalOf.None?
                 && WritesOrAdopts(t, done, Transaction(t.next, l, -o.amount, o.reason, Some(actor), now, key, Some(id), None));
        WritingMovesBalance(t, done, Transaction(t.next, l, -o.amount, o.reason, Some(actor), now, key, Some(id), None), ledgerId);
        target := o.amount;
      case Correct(_, _, _, _, _, _, _, _) =>
        target := CorrectionMovesBalance(t, c, ledgerId);
    }
  }

  lemma CorrectionMovesBalance(t: Table, c: Command, ledgerId: nat) returns (target: int)
    requires Invariant(t) && c.Correct? && Execute(t, c).Ok?
    ensures PointsAt(t, c, target) && Apply(t, c) != t
    ensures BalanceIn(Apply(t, c).rows, ledgerId) == BalanceIn(t.rows, ledgerId) +
              (if c.ledgerId == ledgerId then c.amount - target else 0)
  {
    hide Invariant, BalanceIn, CorrectRow, PlanReversal, PlanCorrection;
    CorrectionWritesBothRows(t, c);
    var done := Execute(t, c).value;
    var o :| o in t.rows && IsRow(o, c.ledgerId, c.target) && done.written[0].amount == -o.amount;
    BalanceMovesWithRows(t.rows, done.written[0], ledgerId);
    BalanceMovesWithRows(t.rows + [done.written[0]], done.written[1], ledgerId);
    assert t.rows + [done.written[0]] + [done.written[1]] == done.table.rows;
    target := o.amount;
  }

  /** The amount of the row that the command points at. */
  function TargetAmount(t: Table, c: Command): int {
    if !c.Reverse? && !c.Correct? then 0
    else
      var found := FindInLedger(t.rows, c.ledgerId, c.target);
      if found.Some? then found.value.amount else 0
  }

  /** The account of a ledger, kept from the commands: an entry for every command for the ledger that had
      an effect, until the ledger is removed. */
  function Account(cs: seq<Command>, ledgerId: nat): seq<int> {
    if cs == [] then []
    else
      var t, c, before := Run(Table([], 1), cs[..|cs| - 1]), cs[|cs| - 1], Account(cs[..|cs| - 1], ledgerId);
      if c.ledgerId != ledgerId || Apply(t, c) == t then before
      else if c.DeleteLedger? then []
      else before + [AmountMoved(c, TargetAmount(t, c))]
  }

  lemma RemovalMovesBalance(t: Table, removed: nat, ledgerId: nat)
    ensures BalanceIn(Apply(t, DeleteLedger(removed)).rows, ledgerId) == if removed == ledgerId then 0 else BalanceIn(t.rows, ledgerId)
  {
    var kept := Filter(t.rows, OutsideLedger(removed));
    FilterTwice(t.rows, OutsideLedger(removed), InLedger(ledgerId));
    if removed == ledgerId {
      FilterNone(t.rows, BothHold(OutsideLedger(removed), InLedger(ledgerId)));
      assert MovesIn(kept, ledgerId) == [];
    } else {
      FilterAgree(t.rows, BothHold(OutsideLedger(removed), InLedger(ledgerId)), InLedger(ledgerId));
    }
  }

  lemma StepKeepsAccount(t: Table, c: Command, ledgerId: nat)
    requires Invariant(t)
    ensures BalanceIn(Apply(t, c).rows, ledgerId) ==
              if c.ledgerId != ledgerId || Apply(t, c) == t then BalanceIn(t.rows, ledgerId)
              else if c.DeleteLedger? then 0 else BalanceIn(t.rows, ledgerId) + AmountMoved(c, TargetAmount(t, c))
  {
    hide BalanceIn, Apply, FindInLedger;
    if c.DeleteLedger? {
      RemovalMovesBalance(t, c.ledgerId, ledgerId);
    } else {
      var target := OperationsMoveBalance(t, c, ledgerId);
      if Execute(t, c).Ok? && (c.Reverse? || c.Correct?) {
        hide Execute, AmountMoved, LedgersConsistent, StepKeysTogether;
        TargetInFull(t, c.ledgerId, c.target);
      } else {
        assert Execute(t, c).Err? ==> Apply(t, c) == t;
      }
    }
  }

  /** Over every run the balance is what the account kept from the commands sums up to: recordings and
      bonuses count as asked for, reversals and corrections by what they point at, and a command that is
      refused or repeated counts for nothing. */
  lemma {:induction false} BalanceIsTheAccount(cs: seq<Command>, ledgerId: nat)
    ensures BalanceIn(Run(Table([], 1), cs).rows, ledgerId) == Sum(Account(cs, ledgerId))
  {
    if cs == [] {
      assert MovesIn([], ledgerId) == [];
    } else {
      var front, c := cs[..|cs| - 1], cs[|cs| - 1];
      var t := Run(Table([], 1), front);
      BalanceIsTheAccount(front, ledgerId);
      RunsKeepInvariant(front);
      hide Invariant, BalanceIn, Apply, TargetAmount, AmountMoved;
      StepKeepsAccount(t, c, ledgerId);
      var moved := AmountMoved(c, TargetAmount(t, c));
      assert (Account(front, ledgerId) + [moved])[..|Account(front, ledgerId)|] == Account(front, ledgerId);
    }
  }

  // ---------------------------------------------------------------- used keys

  /** A reversal that reports success has reversed its target exactly when its key was new to the
      ledger. With a used key it hands back the row that holds the key and reverses nothing. */
  lemma ReverseTakesEffectIffKeyIsNew(t: Table, c: Command)
    requires c.Reverse? && Sound(t) && ReverseRow(t, c).Ok?
    ensures ReversalTaken(ReverseRow(t, c).value.table.rows, c.target) <==> !KeyTaken(t.rows, c.ledgerId, c.key)
    ensures KeyTaken(t.rows, c.ledgerId, c.key) ==> ReverseRow(t, c).value.table == t
  {
    var done := ReverseRow(t, c).value.table;
    if !KeyTaken(t.rows, c.ledgerId, c.key) {
      assert done.rows[|t.rows|].reversalOf == Some(c.target);
    }
  }

  /** The two rows that a used key leaves: the reversal below is answered with the recording. */
  lemma ReverseWithUsedKeyDoesNothing()
    ensures var t := Run(Table([], 1), [Record(7, 1, 5, "tidy", 0, "k")]);
            var done := ReverseRow(t, Reverse(7, 1, 1, 9, "k"));
            done.Ok? && done.value.table == t && done.value.written == t.rows && !ReversalTaken(t.rows, 1)
  {
    var n := NewTransaction(7, 5, "tidy", Some(1), 0, "k", None, None);
    var cs := [Record(7, 1, 5, "tidy", 0, "k")];
    assert cs[..0] == [] && cs[0] == Record(7, 1, 5, "tidy", 0, "k");
    assert "k"[0] == 'k' && "tidy"[0] == 't' && 'k' in "k" && 't' in "tidy";
    assert !Blank("k") && !Blank("tidy");
    assert !KeyTaken([], 7, "k");
    assert Run(Table([], 1), cs) == Apply(Table([], 1), cs[0]);
    assert ValidKey("k") && ValidReason("tidy") && ValidAmount(5);
    assert FindByKey([], 7, "k") == None;
    assert Admits([], n);
    assert [] + [n.WithId(1)] == [n.WithId(1)];
    assert PointTransactions.Written([], 1, n) == Ok(Appended([n.WithId(1)], 2, n.WithId(1)));
    var rows := [n.WithId(1)];
    assert rows[0].key == "k";
    assert KeyTaken(rows, 7, "k");
    assert FindInLedger(rows, 7, 1) == Some(n.WithId(1));
    assert FindByKey(rows, 7, "k") == Some(n.WithId(1));
  }
}
