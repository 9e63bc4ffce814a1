/** Recording points from one mounted form, over a network that may lose, delay and repeat requests
    and answers. The form keeps its key until a submission succeeds; the server appends by that key. */
module PointEntryForm {
  import opened Basics
  import opened PointTransactions
  import opened Texts

  datatype Content = Content(amount: int, reason: string)

  /** `points` is the typed number, 0 when the field is empty; `submittingSign` is the pressed button. */
  datatype FormState = FormState(points: int, reason: string, pendingKey: Option<string>, submittingSign: Option<int>)

  const EMPTY_FORM := FormState(0, "", None, None)

  datatype Sending = Sending(key: string, content: Content)

  // ---------------------------------------------------------------- the form

  predicate Sends(f: FormState, sign: int) {
    f.submittingSign.None? && sign * f.points != 0 && !Blank(f.reason)
  }

  /** The part of a submission before the request is awaited. */
  function Submitted(f: FormState, sign: int, newKey: string): FormState {
    if !Sends(f, sign) then f
    else f.(pendingKey := Some(if f.pendingKey.Some? then f.pendingKey.value else newKey), submittingSign := Some(sign))
  }

  function SentBy(f: FormState, sign: int, newKey: string): Option<Sending> {
    if !Sends(f, sign) then None
    else Some(Sending(Submitted(f, sign, newKey).pendingKey.value, Content(sign * f.points, f.reason)))
  }

  function Resolved(f: FormState): FormState { EMPTY_FORM }

  function Rejected(f: FormState): FormState { f.(submittingSign := None) }

  class PointEntryForm {
    var points: int
    var reason: string
    var pendingKey: Option<string>
    var submittingSign: Option<int>

    function State(): FormState
      reads this
    {
      FormState(points, reason, pendingKey, submittingSign)
    }

    constructor ()
      ensures State() == EMPTY_FORM
    {
      points, reason, pendingKey, submittingSign := 0, "", None, None;
    }

    method Edit(newPoints: int, newReason: string)
      modifies this
      ensures State() == old(State()).(points := newPoints, reason := newReason)
    {
      points, reason := newPoints, newReason;
    }

    /** Up to the point where the request is awaited; nothing is sent while another submission runs
        or the input is incomplete. */
    method BeginSubmit(sign: int, newKey: string) returns (sending: Option<Sending>)
      modifies this
      ensures State() == Submitted(old(State()), sign, newKey)
      ensures sending == SentBy(old(State()), sign, newKey)
      ensures sending.Some? <==>
                && old(submittingSign).None? && sign * old(points) != 0
                && exists k :: 0 <= k < |old(reason)| && old(reason)[k] !in " \t\n\r"
      ensures sending.Some? ==>
                && sending.value == Sending(if old(pendingKey).Some? then old(pendingKey).value else newKey,
                                            Content(sign * old(points), old(reason)))
                && State() == FormState(old(points), old(reason), Some(sending.value.key), Some(sign))
      ensures sending.None? ==> State() == old(State())
    {
      ValidTextIs(reason, |reason|);
      var amount := sign * points;
      if submittingSign.Some? || amount == 0 || Blank(reason) {
        return None;
      }
      if pendingKey.None? {
        pendingKey := Some(newKey);
      }
      submittingSign := Some(sign);
      return Some(Sending(pendingKey.value, Content(amount, reason)));
    }

    method FinishResolved()
      modifies this
      ensures State() == Resolved(old(State()))
      ensures points == 0 && reason == "" && pendingKey == None && submittingSign == None
    {
      pendingKey := None;
      points, reason := 0, "";
      submittingSign := None;
    }

    /** A failure keeps the input and the key. */
    method FinishRejected()
      modifies this
      ensures State() == Rejected(old(State()))
      ensures points == old(points) && reason == old(reason) && pendingKey == old(pendingKey) && submittingSign == None
    {
      submittingSign := None;
    }
  }

  // ---------------------------------------------------------------- form, network and server

  /** What the server makes of a content: white space around the reason is dropped. */
  function Stored(c: Content): Content { Content(c.amount, Trim(c.reason)) }

  /** The request's fields are acceptable; otherwise it is turned away before the ledger is asked. */
  predicate Recordable(c: Content) { ValidAmount(c.amount) && ValidReason(Trim(c.reason)) }

  /** `sent` holds every request ever sent, in order: any of them may arrive any number of times, or
      never. `answered` are the requests for which a success answer is on its way. `issued` are the
      keys made by the form, `accepted` the requests that the server accepted, as they arrived, `done`
      the keys of submissions that succeeded. `ledger` and `actor` do not change. */
  datatype World = World(
    ledger: nat, actor: nat,
    form: FormState, awaiting: Option<nat>,
    sent: seq<Sending>, answered: set<nat>,
    rows: seq<Transaction>, next: nat,
    issued: set<string>, accepted: seq<Sending>, done: set<string>)

  datatype Action =
    | Edit(points: int, reason: string)
    | Submit(sign: int, newKey: string)
    | Deliver(n: nat, now: int)
    | Resolve
    | Reject
    | OtherAppend(other: NewTransaction)

  function Row(w: World, s: Sending, now: int): NewTransaction {
    var c := Stored(s.content);
    NewTransaction(w.ledger, c.amount, c.reason, Some(w.actor), now, s.key, None, None)
  }

  /** Keys are random: a new one is not in use anywhere, and nobody else ever makes one of ours. */
  predicate IsNewKey(w: World, key: string) {
    ValidKey(key) && Trim(key) == key && key !in w.issued && !KeyTaken(w.rows, w.ledger, key)
  }

  function Do(w: World, a: Action): World {
    match a
    case Edit(points, reason) => w.(form := w.form.(points := points, reason := reason))
    case Submit(sign, newKey) =>
      var sending := SentBy(w.form, sign, newKey);
      if sending.None? || (w.form.pendingKey.None? && !IsNewKey(w, newKey)) then w
      else w.(form := Submitted(w.form, sign, newKey), awaiting := Some(|w.sent|), sent := w.sent + [sending.value],
              issued := w.issued + {sending.value.key})
    case Deliver(n, now) =>
      if n >= |w.sent| || !Recordable(w.sent[n].content) then w
      else
        var outcome := Written(w.rows, w.next, Row(w, w.sent[n], now));
        if outcome.Err? then w
        else w.(rows := outcome.value.rows, next := outcome.value.next,
                answered := w.answered + {n}, accepted := w.accepted + [w.sent[n]])
    case Resolve =>
      if w.awaiting.None? || w.awaiting.value !in w.answered then w
      else w.(done := w.done + (if w.form.pendingKey.Some? then {w.form.pendingKey.value} else {}),
              form := Resolved(w.form), awaiting := None)
    case Reject =>
      if w.awaiting.None? then w else w.(form := Rejected(w.form), awaiting := None)
    case OtherAppend(other) =>
      if other.ledgerId == w.ledger && other.key in w.issued then w
      else
        var outcome := Written(w.rows, w.next, other);
        if outcome.Err? then w else w.(rows := outcome.value.rows, next := outcome.value.next)
  }

  /** What the server does with a request that arrives: it turns away what is out of bounds, answers with
      the row that holds the key, or writes what was sent, trimmed, in the name of the sender. */
  lemma DeliveryInFull(w: World, n: nat, now: int)
    requires n < |w.sent| && ValidText(w.sent[n].key, 64)
    ensures var s, u := w.sent[n], Do(w, Deliver(n, now));
            if s.content.amount == 0 || !(-1_000_000 <= s.content.amount <= 1_000_000) || !ValidText(Trim(s.content.reason), 255) then u == w
            else
              && u.answered == w.answered + {n} && u.accepted == w.accepted + [s]
              && u.sent == w.sent && u.form == w.form && u.awaiting == w.awaiting
              && u.rows == if exists i :: 0 <= i < |w.rows| && w.rows[i].ledgerId == w.ledger && w.rows[i].key == s.key then w.rows
                           else w.rows + [Transaction(w.next, w.ledger, s.content.amount, Trim(s.content.reason), Some(w.actor), now,
                                                      s.key, None, None)]
  {
    WrittenInFull(w.rows, w.next, Row(w, w.sent[n], now));
    hide Written, Trim, ValidText;
  }

  /** A freshly mounted form on a ledger whatever its history. */
  ghost predicate Mounted(w: World) {
    && w.form == EMPTY_FORM && w.awaiting.None? && w.sent == [] && w.answered == {}
    && w.issued == {} && w.accepted == [] && w.done == {}
    && ValidTable(w.rows, w.next)
  }

  function Run(w: World, actions: seq<Action>): World {
    if actions == [] then w else Do(Run(w, actions[..|actions| - 1]), actions[|actions| - 1])
  }

  // ---------------------------------------------------------------- the invariant

  /** The content that was accepted first under the key. */
  function FirstAccepted(log: seq<Sending>, key: string): (first: Option<Content>)
    ensures first.Some? <==> exists i :: 0 <= i < |log| && log[i].key == key
    ensures first.Some? ==> Sending(key, first.value) in log
  {
    if log == [] then None
    else
      var front, last := log[..|log| - 1], log[|log| - 1];
      var before := FirstAccepted(front, key);
      assert log == front + [last];
      if before.Some? then before else if last.key == key then Some(last.content) else None
  }

  lemma FirstOfSnoc(log: seq<Sending>, s: Sending, key: string)
    ensures FirstAccepted(log + [s], key) ==
              if FirstAccepted(log, key).Some? then FirstAccepted(log, key) else if s.key == key then Some(s.content) else None
  {
    assert (log + [s])[..|log + [s]| - 1] == log;
  }

  function AcceptedKeys(log: seq<Sending>): set<string> { set i | 0 <= i < |log| :: log[i].key }

  ghost predicate FormHolds(w: World) {
    && (w.form.submittingSign.Some? <==> w.awaiting.Some?)
    && (w.awaiting.Some? ==>
          w.awaiting.value < |w.sent| && w.form.pendingKey == Some(w.sent[w.awaiting.value].key))
    && (w.form.pendingKey.Some? ==> w.form.pendingKey.value in w.issued && w.form.pendingKey.value !in w.done)
    && (forall n :: 0 <= n < |w.sent| ==> w.sent[n].key in w.issued)
    && (forall k :: k in w.issued ==> ValidKey(k))
    && (forall n :: n in w.answered ==> n < |w.sent| && w.sent[n] in w.accepted)
    && (forall s :: s in w.accepted ==> s in w.sent && Recordable(s.content))
    && w.done <= AcceptedKeys(w.accepted)
  }

  /** The row says what the server made of the content that was accepted first under its key. */
  ghost predicate SaysFirst(log: seq<Sending>, row: Transaction) {
    FirstAccepted(log, row.key).Some? && Content(row.amount, row.reason) == Stored(FirstAccepted(log, row.key).value)
  }

  /** Among our keys exactly the accepted ones have a row, and it says what was accepted first. */
  ghost predicate RowsHold(w: World) {
    && ValidTable(w.rows, w.next)
    && (forall k :: k in w.issued && FirstAccepted(w.accepted, k).Some? ==> KeyTaken(w.rows, w.ledger, k))
    && (forall t :: t in w.rows && t.ledgerId == w.ledger && t.key in w.issued ==> SaysFirst(w.accepted, t))
  }

  ghost predicate Invariant(w: World) { FormHolds(w) && RowsHold(w) }

  lemma AppendTakesItsKey(rows: seq<Transaction>, next: nat, n: NewTransaction, ledger: nat, key: string)
    requires Written(rows, next, n).Ok? && (KeyTaken(rows, ledger, key) || (n.ledgerId == ledger && n.key == key))
    ensures KeyTaken(Written(rows, next, n).value.rows, ledger, key)
  {
    var after := Written(rows, next, n).value.rows;
    if after != rows {
      assert after[|rows|] == n.WithId(next);
      assert forall i :: 0 <= i < |rows| ==> after[i] == rows[i];
    }
  }

  /** Either the key was there and nothing is written, or the row is new and its key was free. */
  lemma AppendAddsOnlyItsRow(rows: seq<Transaction>, next: nat, n: NewTransaction)
    requires Written(rows, next, n).Ok?
    ensures forall t :: t in Written(rows, next, n).value.rows ==>
              t in rows || (t == n.WithId(next) && !KeyTaken(rows, n.ledgerId, n.key))
    ensures rows <= Written(rows, next, n).value.rows
  {
  }

  lemma MineIsKeyTaken(rows: seq<Transaction>, t: Transaction)
    requires t in rows
    ensures KeyTaken(rows, t.ledgerId, t.key)
  {
  }

  /** An accepted request of ours leaves our rows in order: the first content under a key stays the
      first, and a new row comes only when there was none. */
  lemma AcceptingKeepsRows(w: World, v: World, s: Sending, now: int)
    requires RowsHold(w) && s.key in w.issued && Written(w.rows, w.next, Row(w, s, now)).Ok?
    requires v.ledger == w.ledger && v.issued == w.issued && v.accepted == w.accepted + [s]
    requires v.rows == Written(w.rows, w.next, Row(w, s, now)).value.rows && v.next == Written(w.rows, w.next, Row(w, s, now)).value.next
    ensures RowsHold(v)
  {
    var n := Row(w, s, now);
    AppendKeepsTable(w.rows, w.next, n);
    AppendAddsOnlyItsRow(w.rows, w.next, n);
    hide ValidTable, Written, KeyTaken, FirstAccepted;
    forall k | k in v.issued && FirstAccepted(v.accepted, k).Some? ensures KeyTaken(v.rows, v.ledger, k) {
      FirstOfSnoc(w.accepted, s, k);
      AppendTakesItsKey(w.rows, w.next, n, w.ledger, k);
    }
    forall t | t in v.rows && t.ledgerId == v.ledger && t.key in v.issued ensures SaysFirst(v.accepted, t) {
      FirstOfSnoc(w.accepted, s, t.key);
      if t in w.rows {
        assert SaysFirst(w.accepted, t);
      }
    }
  }

  lemma OtherKeepsRows(w: World, v: World, other: NewTransaction)
    requires RowsHold(w) && Written(w.rows, w.next, other).Ok? && !(other.ledgerId == w.ledger && other.key in w.issued)
    requires v.ledger == w.ledger && v.issued == w.issued && v.accepted == w.accepted
    requires v.rows == Written(w.rows, w.next, other).value.rows && v.next == Written(w.rows, w.next, other).value.next
    ensures RowsHold(v)
  {
    AppendKeepsTable(w.rows, w.next, other);
    AppendAddsOnlyItsRow(w.rows, w.next, other);
    hide ValidTable, Written, KeyTaken, FirstAccepted;
    forall k | k in v.issued && FirstAccepted(v.accepted, k).Some? ensures KeyTaken(v.rows, v.ledger, k) {
      AppendTakesItsKey(w.rows, w.next, other, w.ledger, k);
    }
  }

  /** A new key has no row and nothing accepted yet. */
  lemma SubmitKeepsInvariant(w: World, sign: int, newKey: string)
    requires Invariant(w)
    ensures Invariant(Do(w, Submit(sign, newKey)))
  {
    hide ValidTable, Recordable;
    var v := Do(w, Submit(sign, newKey));
    forall t | t in v.rows && t.ledgerId == v.ledger && t.key in v.issued ensures SaysFirst(v.accepted, t) {
      MineIsKeyTaken(w.rows, t);
      assert t.key in w.issued;
    }
    forall k | k in v.issued && FirstAccepted(v.accepted, k).Some? ensures KeyTaken(v.rows, v.ledger, k) {
      var i :| 0 <= i < |w.accepted| && w.accepted[i].key == k;
      assert w.accepted[i] in w.sent;
    }
  }

  lemma AcceptingKeepsForm(w: World, n: nat, now: int)
    requires FormHolds(w) && n < |w.sent| && Recordable(w.sent[n].content)
    ensures FormHolds(Do(w, Deliver(n, now)))
  {
    hide Written, Recordable, ValidKey;
    var v := Do(w, Deliver(n, now));
    assert AcceptedKeys(w.accepted) <= AcceptedKeys(v.accepted) by {
      forall i | 0 <= i < |w.accepted| ensures v.accepted[i] == w.accepted[i] {}
    }
  }

  lemma DeliverKeepsInvariant(w: World, n: nat, now: int)
    requires Invariant(w)
    ensures Invariant(Do(w, Deliver(n, now)))
  {
    hide RowsHold, Written, Recordable;
    if n < |w.sent| && Recordable(w.sent[n].content) && Written(w.rows, w.next, Row(w, w.sent[n], now)).Ok? {
      AcceptingKeepsForm(w, n, now);
      hide FirstAccepted;
      AcceptingKeepsRows(w, Do(w, Deliver(n, now)), w.sent[n], now);
    }
  }

  lemma OtherKeepsInvariant(w: World, other: NewTransaction)
    requires Invariant(w)
    ensures Invariant(Do(w, OtherAppend(other)))
  {
    hide RowsHold, Written, Recordable;
    if !(other.ledgerId == w.ledger && other.key in w.issued) && Written(w.rows, w.next, other).Ok? {
      OtherKeepsRows(w, Do(w, OtherAppend(other)), other);
    }
  }

  lemma ResolveKeepsInvariant(w: World)
    requires Invariant(w)
    ensures Invariant(Do(w, Resolve))
  {
    hide ValidTable, FirstAccepted, Recordable, ValidKey;
    if w.awaiting.Some? && w.awaiting.value in w.answered {
      var i :| 0 <= i < |w.accepted| && w.accepted[i] == w.sent[w.awaiting.value];
      assert w.sent[w.awaiting.value].key in AcceptedKeys(w.accepted);
    }
  }

  lemma QuietStepKeepsInvariant(w: World, a: Action)
    requires Invariant(w) && (a.Edit? || a.Reject?)
    ensures Invariant(Do(w, a))
  {
    hide ValidTable, Recordable;
  }

  lemma StepKeepsInvariant(w: World, a: Action)
    requires Invariant(w)
    ensures Invariant(Do(w, a))
  {
    hide Invariant, Do;
    match a
    case Edit(_, _) => QuietStepKeepsInvariant(w, a);
    case Submit(sign, newKey) => SubmitKeepsInvariant(w, sign, newKey);
    case Deliver(n, now) => DeliverKeepsInvariant(w, n, now);
    case Resolve => ResolveKeepsInvariant(w);
    case Reject => QuietStepKeepsInvariant(w, a);
    case OtherAppend(other) => OtherKeepsInvariant(w, other);
  }

  lemma {:induction false} ContinuationKeepsInvariant(w: World, actions: seq<Action>)
    requires Invariant(w)
    ensures Invariant(Run(w, actions))
  {
    if actions != [] {
      hide Invariant, Do;
      ContinuationKeepsInvariant(w, actions[..|actions| - 1]);
      StepKeepsInvariant(Run(w, actions[..|actions| - 1]), actions[|actions| - 1]);
    }
  }

  lemma RunKeepsInvariant(w: World, actions: seq<Action>)
    requires Mounted(w)
    ensures Invariant(Run(w, actions))
  {
    ContinuationKeepsInvariant(w, actions);
  }

  // ---------------------------------------------------------------- exactly once

  function OwnRow(w: World): Transaction -> bool { (t: Transaction) => t.ledgerId == w.ledger && t.key in w.issued }

  lemma OwnKeysDiffer(v: World)
    requires RowsHold(v)
    ensures var own := Filter(v.rows, OwnRow(v)); forall i, j :: 0 <= i < j < |own| ==> own[i].key != own[j].key
  {
    var own := Filter(v.rows, OwnRow(v));
    var at := FilterPositions(v.rows, OwnRow(v));
    FilterMembers(v.rows, OwnRow(v));
    forall i, j | 0 <= i < j < |own| ensures own[i].key != own[j].key {
      assert own[i] in own && own[j] in own;
    }
  }

  lemma OwnKeysAreAccepted(v: World)
    requires Invariant(v)
    ensures var own := Filter(v.rows, OwnRow(v)); (set i | 0 <= i < |own| :: own[i].key) == AcceptedKeys(v.accepted)
  {
    hide ValidTable, Recordable, ValidKey;
    var own := Filter(v.rows, OwnRow(v));
    FilterMembers(v.rows, OwnRow(v));
    forall k | k in AcceptedKeys(v.accepted) ensures exists i :: 0 <= i < |own| && own[i].key == k {
      var i :| 0 <= i < |v.accepted| && v.accepted[i].key == k;
      assert v.accepted[i] in v.sent;
      assert KeyTaken(v.rows, v.ledger, k);
      var m :| 0 <= m < |v.rows| && v.rows[m].ledgerId == v.ledger && v.rows[m].key == k;
      assert v.rows[m] in own;
    }
    forall i | 0 <= i < |own| ensures own[i].key in AcceptedKeys(v.accepted) {
      assert own[i] in own;
      assert SaysFirst(v.accepted, own[i]);
    }
  }

  lemma {:induction false} DistinctKeysCount(rows: seq<Transaction>)
    requires forall i, j :: 0 <= i < j < |rows| ==> rows[i].key != rows[j].key
    ensures |set i | 0 <= i < |rows| :: rows[i].key| == |rows|
  {
    if rows != [] {
      var n := |rows| - 1;
      DistinctKeysCount(rows[..n]);
      var front := set i | 0 <= i < n :: rows[..n][i].key;
      assert (set i | 0 <= i < |rows| :: rows[i].key) == front + {rows[n].key};
    }
  }

  /** The rows that the form brought about are, one each, the distinct keys the server accepted. */
  lemma RowsAreTheAcceptedKeys(w: World, actions: seq<Action>)
    requires Mounted(w)
    ensures var v := Run(w, actions);
            var own := Filter(v.rows, OwnRow(v));
            && |own| == |AcceptedKeys(v.accepted)|
            && (set i | 0 <= i < |own| :: own[i].key) == AcceptedKeys(v.accepted)
            && (forall i, j :: 0 <= i < j < |own| ==> own[i].key != own[j].key)
  {
    RunKeepsInvariant(w, actions);
    var v := Run(w, actions);
    OwnKeysDiffer(v);
    OwnKeysAreAccepted(v);
    DistinctKeysCount(Filter(v.rows, OwnRow(v)));
  }

  function WithKey(ledgerId: nat, key: string): Transaction -> bool { (t: Transaction) => t.ledgerId == ledgerId && t.key == key }

  lemma OneRowForKey(rows: seq<Transaction>, next: nat, ledgerId: nat, key: string)
    requires ValidTable(rows, next) && KeyTaken(rows, ledgerId, key)
    ensures var found := Filter(rows, WithKey(ledgerId, key));
            |found| == 1 && found[0] in rows && found[0].ledgerId == ledgerId && found[0].key == key
  {
    var found := Filter(rows, WithKey(ledgerId, key));
    var at := FilterPositions(rows, WithKey(ledgerId, key));
    FilterMembers(rows, WithKey(ledgerId, key));
    var i :| 0 <= i < |rows| && rows[i].ledgerId == ledgerId && rows[i].key == key;
    assert rows[i] in found;
    assert |found| > 1 ==> at[0] < at[1];
    forall k | 0 <= k < |found| ensures at[k] == i {
      assert found[k] in found;
    }
  }

  /** The success answer to the awaited request is at hand. */
  predicate CanResolve(w: World) {
    w.awaiting.Some? && w.awaiting.value < |w.sent| && w.awaiting.value in w.answered
  }

  /** The request being awaited. */
  function Awaited(w: World): Sending
    requires w.awaiting.Some? && w.awaiting.value < |w.sent|
  {
    w.sent[w.awaiting.value]
  }

  /** A submission that succeeds leaves exactly one row for its key; the row says what the server made
      of the first request it accepted under the key; and the form is empty and has no key. */
  lemma SuccessMeansOneRow(w: World, actions: seq<Action>)
    requires Mounted(w) && CanResolve(Run(w, actions))
    ensures var v := Run(w, actions);
            var found := Filter(v.rows, WithKey(v.ledger, Awaited(v).key));
            && |found| == 1 && SaysFirst(v.accepted, found[0]) && found[0].key == Awaited(v).key
            && Awaited(v).key in Do(v, Resolve).done && Do(v, Resolve).form == EMPTY_FORM
  {
    RunKeepsInvariant(w, actions);
    var v := Run(w, actions);
    hide Run;
    ResolvableKeyIsTaken(v);
    OneRowForKey(v.rows, v.next, v.ledger, Awaited(v).key);
  }

  lemma ResolvableKeyIsTaken(v: World)
    requires Invariant(v) && CanResolve(v)
    ensures KeyTaken(v.rows, v.ledger, Awaited(v).key) && Awaited(v).key in v.issued && Recordable(Awaited(v).content)
  {
    hide ValidTable, ValidKey, Recordable;
    assert Awaited(v) in v.accepted;
    var i :| 0 <= i < |v.accepted| && v.accepted[i] == Awaited(v);
  }

  /** Over every run, the row of a key says what the server made of the first request it accepted
      under that key. */
  lemma RowSaysFirstAccepted(w: World, actions: seq<Action>, t: Transaction)
    requires Mounted(w) && t in Run(w, actions).rows && t.ledgerId == Run(w, actions).ledger && t.key in Run(w, actions).issued
    ensures var log := Run(w, actions).accepted;
            && FirstAccepted(log, t.key).Some?
            && t.amount == FirstAccepted(log, t.key).value.amount
            && t.reason == Trim(FirstAccepted(log, t.key).value.reason)
  {
    RunKeepsInvariant(w, actions);
    assert SaysFirst(Run(w, actions).accepted, t);
  }

  /** A key is never used again once a submission with it has succeeded. */
  lemma DoneKeysAreNotReused(w: World, actions: seq<Action>, sign: int, newKey: string)
    requires Mounted(w) && Do(Run(w, actions), Submit(sign, newKey)) != Run(w, actions)
    ensures var v := Run(w, actions);
            var after := Do(v, Submit(sign, newKey));
            |after.sent| == |v.sent| + 1 && after.sent[|v.sent|].key !in v.done
  {
    RunKeepsInvariant(w, actions);
    var v := Run(w, actions);
    hide Run, RowsHold, Recordable;
    forall k | k in v.done ensures k in v.issued {
      var i :| 0 <= i < |v.accepted| && v.accepted[i].key == k;
      assert v.accepted[i] in v.sent;
    }
  }

  // ---------------------------------------------------------------- what a success has recorded

  /** The ledger's row for the key says what the server makes of the content. */
  ghost predicate Records(w: World, s: Sending) {
    exists t :: t in w.rows && t.ledgerId == w.ledger && t.key == s.key && Content(t.amount, t.reason) == Stored(s.content)
  }

  /** After these steps the same request is still awaited and its success answer is at hand. */
  ghost predicate ResolvesIt(v: World, actions: seq<Action>) {
    Run(v, actions).awaiting == v.awaiting && CanResolve(Run(v, actions))
  }

  /** What can be seen when a request is sent: the row under its key, if there is one, already says it,
      and otherwise nothing else was ever sent under that key that the server would record. */
  ghost predicate SureToBeRecorded(v: World)
    requires v.awaiting.Some? && v.awaiting.value < |v.sent|
  {
    var s := Awaited(v);
    Recordable(s.content) ==>
      if KeyTaken(v.rows, v.ledger, s.key) then Records(v, s)
      else forall m :: 0 <= m < |v.sent| && v.sent[m].key == s.key && Recordable(v.sent[m].content) ==>
             Stored(v.sent[m].content) == Stored(s.content)
  }

  /** While a request is awaited nothing new is sent, and a request that is no longer awaited never
      is again. Rows and accepted requests only grow. */
  ghost predicate Continues(v: World, u: World)
    requires v.awaiting.Some?
  {
    && u.ledger == v.ledger && v.rows <= u.rows && v.sent <= u.sent
    && (u.awaiting == v.awaiting ==> u.sent == v.sent)
  }

  lemma StepContinues(v: World, u: World, a: Action)
    requires v.awaiting.Some? && v.awaiting.value < |v.sent| && Continues(v, u) && Invariant(u)
    ensures Continues(v, Do(u, a))
  {
    hide RowsHold, Recordable, ValidKey, FirstAccepted;
    match a
    case Deliver(n, now) =>
      if n < |u.sent| && Written(u.rows, u.next, Row(u, u.sent[n], now)).Ok? {
        AppendAddsOnlyItsRow(u.rows, u.next, Row(u, u.sent[n], now));
      }
    case OtherAppend(other) =>
      if Written(u.rows, u.next, other).Ok? {
        AppendAddsOnlyItsRow(u.rows, u.next, other);
      }
    case _ =>
  }

  lemma {:induction false} RunContinues(v: World, actions: seq<Action>)
    requires Invariant(v) && v.awaiting.Some?
    ensures Continues(v, Run(v, actions)) && Invariant(Run(v, actions))
  {
    assert v.awaiting.value < |v.sent|;
    hide Invariant, Continues, Do;
    if actions == [] {
      ContinuesItself(v);
    } else {
      RunContinues(v, actions[..|actions| - 1]);
      StepContinues(v, Run(v, actions[..|actions| - 1]), actions[|actions| - 1]);
      StepKeepsInvariant(Run(v, actions[..|actions| - 1]), actions[|actions| - 1]);
    }
  }

  lemma ContinuesItself(v: World)
    requires v.awaiting.Some?
    ensures Continues(v, v)
  {
  }

  lemma RowForKeyIsOne(u: World, s: Transaction, t: Transaction)
    requires ValidTable(u.rows, u.next) && s in u.rows && t in u.rows && s.ledgerId == t.ledgerId && s.key == t.key
    ensures s == t
  {
    var i :| 0 <= i < |u.rows| && u.rows[i] == s;
    var j :| 0 <= j < |u.rows| && u.rows[j] == t;
  }

  lemma SureIsRecorded(v: World, actions: seq<Action>)
    requires Invariant(v) && v.awaiting.Some? && SureToBeRecorded(v) && ResolvesIt(v, actions)
    ensures Records(Run(v, actions), Awaited(v))
  {
    var u, s := Run(v, actions), Awaited(v);
    RunContinues(v, actions);
    ResolvableKeyIsTaken(u);
    hide Run, ResolvesIt, Recordable, FormHolds, ValidTable, FirstAccepted;
    assert Awaited(u) == s;
    var i :| 0 <= i < |u.rows| && u.rows[i].ledgerId == u.ledger && u.rows[i].key == s.key;
    assert SaysFirst(u.accepted, u.rows[i]);
    if KeyTaken(v.rows, v.ledger, s.key) {
      var t :| t in v.rows && t.ledgerId == v.ledger && t.key == s.key && Content(t.amount, t.reason) == Stored(s.content);
      assert t in u.rows;
    } else {
      FirstWasSent(u, s.key);
      var c := FirstAccepted(u.accepted, s.key).value;
      var m :| 0 <= m < |v.sent| && v.sent[m] == Sending(s.key, c);
    }
  }

  lemma FirstWasSent(u: World, key: string)
    requires FormHolds(u) && FirstAccepted(u.accepted, key).Some?
    ensures var s := Sending(key, FirstAccepted(u.accepted, key).value); s in u.sent && Recordable(s.content)
  {
    hide Recordable, ValidKey;
    assert Sending(key, FirstAccepted(u.accepted, key).value) in u.accepted;
  }

  /** A recordable request that arrives is accepted: its key is ours, so only its own row can hold it. */
  lemma DeliveryIsAccepted(v: World, n: nat)
    requires FormHolds(v) && n < |v.sent| && Recordable(v.sent[n].content)
    ensures var u := Do(v, Deliver(n, 0));
            && u.sent == v.sent && u.awaiting == v.awaiting && n in u.answered && u.ledger == v.ledger
            && (KeyTaken(v.rows, v.ledger, v.sent[n].key) ==> u.rows == v.rows)
            && (!KeyTaken(v.rows, v.ledger, v.sent[n].key) ==> Records(u, v.sent[n]))
  {
    var s, u := v.sent[n], Do(v, Deliver(n, 0));
    var row := Row(v, s, 0);
    assert ValidKey(row.key) && ValidAmount(row.amount) && ValidReason(row.reason);
    if !KeyTaken(v.rows, v.ledger, s.key) {
      assert Admits(v.rows, row);
      assert row.WithId(v.next) in u.rows;
    }
  }

  lemma UnsureCanFail(v: World) returns (actions: seq<Action>)
    requires Invariant(v) && v.awaiting.Some? && !SureToBeRecorded(v)
    ensures ResolvesIt(v, actions) && !Records(Run(v, actions), Awaited(v))
  {
    var n, s := v.awaiting.value, Awaited(v);
    if KeyTaken(v.rows, v.ledger, s.key) {
      actions := [Deliver(n, 0)];
      DeliveryIsAccepted(v, n);
      OneStep(v, Deliver(n, 0));
      hide Run, Do, Invariant, Recordable;
    } else {
      var m :| 0 <= m < |v.sent| && v.sent[m].key == s.key && Recordable(v.sent[m].content) && Stored(v.sent[m].content) != Stored(s.content);
      actions := [Deliver(m, 0), Deliver(n, 0)];
      OvertakenSubmission(v, m);
    }
  }

  lemma OneStep(v: World, a: Action)
    ensures Run(v, [a]) == Do(v, a)
  {
    assert [a][..0] == [];
  }

  lemma TwoSteps(v: World, a: Action, b: Action)
    ensures Run(v, [a, b]) == Do(Do(v, a), b)
  {
    assert [a, b][..1] == [a];
    OneStep(v, a);
  }

  /** Another content sent earlier under the same key arrives first. */
  lemma OvertakenSubmission(v: World, m: nat)
    requires Invariant(v) && v.awaiting.Some? && m < |v.sent| && v.sent[m].key == Awaited(v).key
    requires !KeyTaken(v.rows, v.ledger, Awaited(v).key) && Recordable(Awaited(v).content)
    requires Recordable(v.sent[m].content) && Stored(v.sent[m].content) != Stored(Awaited(v).content)
    ensures ResolvesIt(v, [Deliver(m, 0), Deliver(v.awaiting.value, 0)])
    ensures !Records(Run(v, [Deliver(m, 0), Deliver(v.awaiting.value, 0)]), Awaited(v))
  {
    var n := v.awaiting.value;
    var u := Do(v, Deliver(m, 0));
    TwoSteps(v, Deliver(m, 0), Deliver(n, 0));
    DeliveryIsAccepted(v, m);
    StepKeepsInvariant(v, Deliver(m, 0));
    hide Run, Do, Recordable, Stored;
    var t :| t in u.rows && t.ledgerId == u.ledger && t.key == v.sent[m].key && Content(t.amount, t.reason) == Stored(v.sent[m].content);
    MineIsKeyTaken(u.rows, t);
    DeliveryIsAccepted(u, n);
    hide FormHolds;
    forall x | x in u.rows && x.ledgerId == u.ledger && x.key == t.key ensures x == t {
      RowForKeyIsOne(u, x, t);
    }
  }

  /** The exact condition, in every reachable state that awaits a submission: whatever happens until
      the submission succeeds, it is what the ledger says in the end, if and only if the row already
      under its key says it or, where there is no row yet, nothing else that could be recorded was ever
      sent under the key. */
  lemma SuccessRecordsSubmissionIff(w: World, before: seq<Action>)
    requires Mounted(w) && Run(w, before).awaiting.Some?
    ensures var v := Run(w, before);
            && v.awaiting.value < |v.sent|
            && ((forall actions :: ResolvesIt(v, actions) ==> Records(Run(v, actions), Awaited(v))) <==> SureToBeRecorded(v))
  {
    var v := Run(w, before);
    RunKeepsInvariant(w, before);
    assert v.awaiting.value < |v.sent|;
    hide Run, Invariant, SureToBeRecorded, Records, ResolvesIt;
    if SureToBeRecorded(v) {
      forall actions | ResolvesIt(v, actions) ensures Records(Run(v, actions), Awaited(v)) {
        SureIsRecorded(v, actions);
      }
    } else {
      var actions := UnsureCanFail(v);
    }
  }

  /** A press of either button sends what is typed, with the sign of the button, under the kept key or
      else the new one; unless a submission is awaited, nothing is typed, or the new key is in use. */
  lemma PressSendsWhatIsTyped(w: World, before: seq<Action>, sign: int, newKey: string)
    requires Mounted(w)
    ensures var v := Run(w, before);
            var u := Do(v, Submit(sign, newKey));
            var key := if v.form.pendingKey.Some? then v.form.pendingKey.value else newKey;
            if v.awaiting.Some? || sign * v.form.points == 0 || !ValidText(v.form.reason, |v.form.reason|)
               || (v.form.pendingKey.None? && !IsNewKey(v, newKey)) then u == v
            else
              && u.sent == v.sent + [Sending(key, Content(sign * v.form.points, v.form.reason))]
              && u.awaiting == Some(|v.sent|) && u.rows == v.rows
              && u.form == v.form.(pendingKey := Some(key), submittingSign := Some(sign))
  {
    RunKeepsInvariant(w, before);
    hide Run, RowsHold, IsNewKey;
  }

  /** The row that a press of the button would bring about. */
  ghost predicate SaysWhatWasTyped(u: World, typed: FormState, sign: int, key: string) {
    exists t :: t in u.rows && t.ledgerId == u.ledger && t.key == key && t.amount == sign * typed.points && t.reason == Trim(typed.reason)
  }

  /** For both buttons: every way in which the press can succeed leaves a row with the points that were
      typed, counted with the sign of the button, and the reason that was typed, trimmed; if and only if
      the row already under the key says so or nothing else recordable was ever sent under it. */
  lemma PressRecordsWhatIsTypedIff(w: World, before: seq<Action>, sign: int, newKey: string)
    requires Mounted(w) && Do(Run(w, before), Submit(sign, newKey)) != Run(w, before)
    ensures var v := Run(w, before);
            var u := Do(v, Submit(sign, newKey));
            && u.awaiting.Some? && u.awaiting.value < |u.sent|
            && ((forall actions :: ResolvesIt(u, actions) ==> SaysWhatWasTyped(Run(u, actions), v.form, sign, Awaited(u).key))
                <==> SureToBeRecorded(u))
  {
    var v, press := Run(w, before), Submit(sign, newKey);
    var u := Do(v, press);
    PressSendsWhatIsTyped(w, before, sign, newKey);
    assert (before + [press])[..|before|] == before;
    assert Run(w, before + [press]) == u;
    SuccessRecordsSubmissionIff(w, before + [press]);
    assert Awaited(u).content == Content(sign * v.form.points, v.form.reason);
    hide Do, Mounted, SureToBeRecorded, ResolvesIt, Trim, Run;
    forall actions ensures Records(Run(u, actions), Awaited(u)) <==> SaysWhatWasTyped(Run(u, actions), v.form, sign, Awaited(u).key) {
      RecordsIsSaying(Run(u, actions), Awaited(u), v.form, sign);
    }
  }

  lemma RecordsIsSaying(u: World, s: Sending, typed: FormState, sign: int)
    requires s.content == Content(sign * typed.points, typed.reason)
    ensures Records(u, s) <==> SaysWhatWasTyped(u, typed, sign, s.key)
  {
  }

  /** In particular: as long as the input is not changed under a key, the row says what the successful
      submission said. */
  lemma UnchangedInputIsRecorded(w: World, before: seq<Action>, actions: seq<Action>)
    requires Mounted(w) && Run(w, before).awaiting.Some? && ResolvesIt(Run(w, before), actions)
    requires var v := Run(w, before);
             forall n :: 0 <= n < |v.sent| && v.awaiting.value < |v.sent| && v.sent[n].key == Awaited(v).key ==>
               Stored(v.sent[n].content) == Stored(Awaited(v).content)
    ensures var v := Run(w, before); v.awaiting.value < |v.sent| && Records(Run(v, actions), Awaited(v))
  {
    var v := Run(w, before);
    RunKeepsInvariant(w, before);
    assert v.awaiting.value < |v.sent|;
    hide Run, ResolvesIt, Recordable, Stored;
    if KeyTaken(v.rows, v.ledger, Awaited(v).key) {
      RowOfUnchangedInput(v);
    }
    SureIsRecorded(v, actions);
  }

  lemma RowOfUnchangedInput(v: World)
    requires Invariant(v) && v.awaiting.Some? && KeyTaken(v.rows, v.ledger, Awaited(v).key)
    requires forall n :: 0 <= n < |v.sent| && v.sent[n].key == Awaited(v).key ==> Stored(v.sent[n].content) == Stored(Awaited(v).content)
    ensures Records(v, Awaited(v))
  {
    hide Stored, Recordable, ValidTable, FirstAccepted;
    var key := Awaited(v).key;
    var i :| 0 <= i < |v.rows| && v.rows[i].ledgerId == v.ledger && v.rows[i].key == key;
    assert SaysFirst(v.accepted, v.rows[i]);
    FirstWasSent(v, key);
    var m :| 0 <= m < |v.sent| && v.sent[m] == Sending(key, FirstAccepted(v.accepted, key).value);
  }

  /** The user presses one button, gives up waiting, types something else and presses the same or the
      other button. */
  function EditedRetry(key: string, first: FormState, sign: int, second: FormState, again: int): seq<Action> {
    [Edit(first.points, first.reason), Submit(sign, key), Reject, Edit(second.points, second.reason), Submit(again, key)]
  }

  function TypedWith(typed: FormState, sign: int): Content { Content(sign * typed.points, typed.reason) }

  lemma FiveSteps(w: World, a: seq<Action>)
    requires |a| == 5
    ensures Run(w, a) == Do(Do(Do(Do(Do(w, a[0]), a[1]), a[2]), a[3]), a[4])
  {
    hide Do;
    TwoSteps(w, a[0], a[1]);
    assert a[..2] == [a[0], a[1]] && a[..5] == a;
    RunNext(w, a, 2);
    RunNext(w, a, 3);
    RunNext(w, a, 4);
  }

  lemma RunNext(w: World, a: seq<Action>, k: nat)
    requires k < |a|
    ensures Run(w, a[..k + 1]) == Do(Run(w, a[..k]), a[k])
  {
    assert a[..k + 1][..k] == a[..k];
  }

  lemma EditedRetryState(w: World, key: string, first: FormState, sign: int, second: FormState, again: int)
    requires Mounted(w) && IsNewKey(w, key) && Recordable(TypedWith(first, sign)) && Recordable(TypedWith(second, again))
    ensures var v := Run(w, EditedRetry(key, first, sign, second, again));
            && v.awaiting == Some(1) && v.rows == w.rows && v.ledger == w.ledger
            && v.sent == [Sending(key, TypedWith(first, sign)), Sending(key, TypedWith(second, again))]
  {
    FiveSteps(w, EditedRetry(key, first, sign, second, again));
    TrimIsBare(first.reason);
    TrimIsBare(second.reason);
    hide Run, EditedRetry, Written, Trim, ValidTable;
  }

  /** A witness, for either button each time: after an edited retry the submission is sure to be recorded
      only if the edit made no difference. */
  lemma EditedRetryIsSureIff(w: World, key: string, first: FormState, sign: int, second: FormState, again: int)
    requires Mounted(w) && IsNewKey(w, key) && Recordable(TypedWith(first, sign)) && Recordable(TypedWith(second, again))
    ensures var v := Run(w, EditedRetry(key, first, sign, second, again));
            && v.awaiting == Some(1)
            && v.sent == [Sending(key, Content(sign * first.points, first.reason)), Sending(key, Content(again * second.points, second.reason))]
            && (SureToBeRecorded(v) <==> sign * first.points == again * second.points && Trim(first.reason) == Trim(second.reason))
  {
    EditedRetryState(w, key, first, sign, second, again);
    var v := Run(w, EditedRetry(key, first, sign, second, again));
    assert !KeyTaken(v.rows, v.ledger, key);
    assert v.sent[0] == Sending(key, TypedWith(first, sign)) && v.sent[1] == Sending(key, TypedWith(second, again));
    assert Stored(TypedWith(first, sign)) == Stored(TypedWith(second, again)) <==>
           sign * first.points == again * second.points && Trim(first.reason) == Trim(second.reason);
    hide Run, EditedRetry, Stored, Recordable, KeyTaken, Mounted;
  }
}
