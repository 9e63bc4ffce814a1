/** Things that may be used once: the kept authorization request (`state`), the sign-in ticket, the
    WebAuthn challenge - all read, deleted and then judged by whether the delete took one row - and the
    invitation, used up by a conditional update. */
module OneTimeTokens {
  import opened Basics

  datatype Token = Token(id: string, purpose: string, expiresAt: int, usedAt: Option<int>)

  predicate Expired(t: Token, now: int) { now >= t.expiresAt }

  function Unswept(rows: map<string, Token>, now: int): map<string, Token> {
    map id | id in rows && rows[id].expiresAt >= now :: rows[id]
  }

  /** The token a consumer gets, and the rows left behind: a known token is deleted even when it turns
      out to have expired, a token for another purpose is not touched. */
  function Consumed(rows: map<string, Token>, id: string, purpose: string,
                    now: int): (map<string, Token>, Option<Token>) {
    if id !in rows || rows[id].purpose != purpose then (rows, None)
    else (rows - {id}, if Expired(rows[id], now) then None else Some(rows[id]))
  }

  /** The three repositories that delete what they hand out; only challenges have purposes. */
  class OneTimeRepository {
    var rows: map<string, Token>

    ghost predicate Valid()
      reads this
    {
      forall id :: id in rows ==> rows[id].id == id
    }

    constructor ()
      ensures Valid() && rows == map[]
    {
      rows := map[];
    }

    method Issue(token: Token, now: int)
      requires Valid()
      modifies this
      ensures Valid()
      ensures rows == Unswept(old(rows), now)[token.id := token]
      ensures forall id :: id in rows <==> id == token.id || (id in old(rows) && old(rows)[id].expiresAt >= now)
      ensures forall id :: id in rows ==> rows[id] == if id == token.id then token else old(rows)[id]
    {
      rows := Unswept(rows, now);
      rows := rows[token.id := token];
    }

    /** Reads without using up. */
    method Peek(id: string, now: int) returns (found: Option<Token>)
      requires Valid()
      ensures found.Some? <==> id in rows && now < rows[id].expiresAt
      ensures found.Some? ==> found.value == rows[id]
    {
      if id !in rows || Expired(rows[id], now) {
        return None;
      }
      return Some(rows[id]);
    }

    method Consume(id: string, purpose: string, now: int) returns (consumed: Option<Token>)
      requires Valid()
      modifies this
      ensures Valid()
      ensures (rows, consumed) == Consumed(old(rows), id, purpose, now)
      ensures consumed.Some? <==> id in old(rows) && old(rows)[id].purpose == purpose && now < old(rows)[id].expiresAt
      ensures consumed.Some? ==> consumed.value == old(rows)[id]
      ensures rows == if id in old(rows) && old(rows)[id].purpose == purpose then old(rows) - {id} else old(rows)
    {
      if id !in rows || rows[id].purpose != purpose {
        return None;
      }
      var token := rows[id];
      rows := rows - {id};
      if Expired(token, now) {
        return None;
      }
      return Some(token);
    }
  }

  // ---------------------------------------------------------------- many consumers at once

  datatype Kind = ReadThenDelete | ConditionalUpdate

  /** The row of its token that a transaction has written to, and so holds locked until it ends. */
  datatype Claim = Nothing | Deleted | Used(at: int)

  datatype Stage = Fresh | HasRead(token: Token) | HasDeleted(token: Token) | Succeeded(at: int) | Failed

  datatype Status = Running | Committed | Aborted

  datatype Consumer = Consumer(want: string, purpose: string, stage: Stage, claim: Claim, status: Status)

  /** `issued` remembers every token as it was issued; ids are never handed out twice. */
  datatype System = System(kind: Kind, rows: map<string, Token>, consumers: seq<Consumer>, issued: map<string, Token>)

  datatype Action =
    | Issue(token: Token, now: int)
    | Remove(id: string)
    | Arrive(want: string, purpose: string)
    | Read(i: nat)
    | Delete(i: nat)
    | Check(i: nat, now: int)
    | Update(i: nat, now: int)
    | Commit(i: nat)
    | Abort(i: nat)

  predicate Active(s: System, i: nat) { i < |s.consumers| && s.consumers[i].status.Running? }

  /** Somebody else holds the row, so a write to it waits. */
  predicate Locked(s: System, i: nat, id: string) {
    exists j :: 0 <= j < |s.consumers| && j != i && s.consumers[j].status.Running?
                && !s.consumers[j].claim.Nothing? && s.consumers[j].want == id
  }

  function With(s: System, i: nat, c: Consumer): System
    requires i < |s.consumers|
  {
    s.(consumers := s.consumers[i := c])
  }

  function Settled(rows: map<string, Token>, c: Consumer): map<string, Token> {
    match c.claim
    case Nothing => rows
    case Deleted => rows - {c.want}
    case Used(at) => if c.want in rows then rows[c.want := rows[c.want].(usedAt := Some(at))] else rows
  }

  /** Issuing sweeps what has expired, except in the invitations' table. A locked row is not swept
      before its transaction ends. */
  function AfterSweep(s: System, now: int): map<string, Token> {
    if s.kind.ConditionalUpdate? then s.rows
    else map id | id in s.rows && (s.rows[id].expiresAt >= now || Locked(s, |s.consumers|, id)) :: s.rows[id]
  }

  function Do(s: System, a: Action): System {
    match a
    case Issue(token, now) =>
      if token.id in s.issued || token.usedAt.Some? then s
      else s.(rows := AfterSweep(s, now)[token.id := token], issued := s.issued[token.id := token])
    case Remove(id) =>
      if Locked(s, |s.consumers|, id) then s else s.(rows := s.rows - {id})
    case Arrive(want, purpose) =>
      s.(consumers := s.consumers + [Consumer(want, purpose, Fresh, Nothing, Running)])
    case Read(i) =>
      if !Active(s, i) || !s.consumers[i].stage.Fresh? || s.kind.ConditionalUpdate? then s
      else
        var c := s.consumers[i];
        if c.want !in s.rows || s.rows[c.want].purpose != c.purpose then With(s, i, c.(stage := Failed))
        else With(s, i, c.(stage := HasRead(s.rows[c.want])))
    case Delete(i) =>
      if !Active(s, i) || !s.consumers[i].stage.HasRead? || Locked(s, i, s.consumers[i].want) then s
      else
        var c := s.consumers[i];
        if c.want !in s.rows then With(s, i, c.(stage := Failed))
        else With(s, i, c.(stage := HasDeleted(c.stage.token), claim := Deleted))
    case Check(i, now) =>
      if !Active(s, i) || !s.consumers[i].stage.HasDeleted? then s
      else
        var c := s.consumers[i];
        With(s, i, c.(stage := if Expired(c.stage.token, now) then Failed else Succeeded(now)))
    case Update(i, now) =>
      if !Active(s, i) || !s.consumers[i].stage.Fresh? || s.kind.ReadThenDelete? || Locked(s, i, s.consumers[i].want) then s
      else
        var c := s.consumers[i];
        if c.want in s.rows && s.rows[c.want].usedAt.None? && s.rows[c.want].expiresAt > now
        then With(s, i, c.(stage := Succeeded(now), claim := Used(now)))
        else With(s, i, c.(stage := Failed))
    case Commit(i) =>
      if !Active(s, i) || !(s.consumers[i].stage.Succeeded? || s.consumers[i].stage.Failed?) then s
      else With(s, i, s.consumers[i].(status := Committed)).(rows := Settled(s.rows, s.consumers[i]))
    case Abort(i) =>
      if !Active(s, i) then s else With(s, i, s.consumers[i].(status := Aborted))
  }

  function Run(kind: Kind, actions: seq<Action>): System {
    if actions == [] then System(kind, map[], [], map[])
    else Do(Run(kind, actions[..|actions| - 1]), actions[|actions| - 1])
  }

  // ---------------------------------------------------------------- the invariant

  /** Still there and not used up. */
  predicate Usable(rows: map<string, Token>, id: string) { id in rows && rows[id].usedAt.None? }

  /** A row says what was issued, apart from having been used. */
  ghost predicate RowsAsIssued(s: System) {
    forall id :: id in s.rows ==> id in s.issued && s.rows[id].(usedAt := None) == s.issued[id]
  }

  ghost predicate ConsumerHolds(s: System, c: Consumer) {
    && (!c.claim.Nothing? ==> c.want in s.issued)
    && (c.status.Running? && !c.claim.Nothing? ==> Usable(s.rows, c.want))
    && (c.status.Committed? && !c.claim.Nothing? ==> !Usable(s.rows, c.want))
    && (c.stage.HasRead? || c.stage.HasDeleted? ==>
          s.kind.ReadThenDelete? && c.want in s.issued && c.stage.token == s.issued[c.want] && c.purpose == c.stage.token.purpose)
    && (c.stage.HasDeleted? ==> !c.claim.Nothing?)
    && (c.stage.Succeeded? ==>
          && !c.claim.Nothing? && !Expired(s.issued[c.want], c.stage.at)
          && (s.kind.ReadThenDelete? ==> c.purpose == s.issued[c.want].purpose))
    && (c.stage.Fresh? || c.stage.HasRead? ==> c.claim.Nothing?)
    && (s.kind.ReadThenDelete? ==> !c.claim.Used?) && (s.kind.ConditionalUpdate? ==> !c.claim.Deleted?)
  }

  predicate Holds(c: Consumer) { !c.status.Aborted? && !c.claim.Nothing? }

  ghost predicate ClaimsApart(consumers: seq<Consumer>) {
    forall i, j :: 0 <= i < j < |consumers| && Holds(consumers[i]) && Holds(consumers[j]) ==> consumers[i].want != consumers[j].want
  }

  ghost predicate NothingUsed(s: System) {
    s.kind.ReadThenDelete? ==> forall id :: id in s.rows ==> s.rows[id].usedAt.None?
  }

  ghost predicate Invariant(s: System) {
    && RowsAsIssued(s) && NothingUsed(s)
    && (forall id :: id in s.issued ==> s.issued[id].usedAt.None?)
    && (forall i :: 0 <= i < |s.consumers| ==> ConsumerHolds(s, s.consumers[i]))
    && ClaimsApart(s.consumers)
  }

  lemma IssueKeepsInvariant(s: System, token: Token, now: int)
    requires Invariant(s)
    ensures Invariant(Do(s, Issue(token, now)))
  {
    var t := Do(s, Issue(token, now));
    forall i | 0 <= i < |s.consumers| ensures ConsumerHolds(t, t.consumers[i]) {
      var c := s.consumers[i];
      assert ConsumerHolds(s, c);
      assert c.status.Running? && !c.claim.Nothing? ==> Locked(s, |s.consumers|, c.want);
    }
  }

  lemma RemoveKeepsInvariant(s: System, id: string)
    requires Invariant(s)
    ensures Invariant(Do(s, Remove(id)))
  {
  }

  /** A step of one consumer that leaves the rows alone and claims nothing new. */
  lemma StepWithoutClaim(s: System, i: nat, c: Consumer)
    requires Invariant(s) && i < |s.consumers| && ConsumerHolds(s, c)
    requires c.want == s.consumers[i].want && (Holds(c) ==> Holds(s.consumers[i]))
    ensures Invariant(With(s, i, c))
  {
  }

  /** A step that claims an unlocked, usable row. */
  lemma StepWithClaim(s: System, i: nat, c: Consumer)
    requires Invariant(s) && Active(s, i) && !Locked(s, i, c.want)
    requires c.want == s.consumers[i].want && Usable(s.rows, c.want) && ConsumerHolds(s, c)
    ensures Invariant(With(s, i, c))
  {
  }

  lemma CommitKeepsInvariant(s: System, i: nat)
    requires Invariant(s) && Do(s, Commit(i)) != s
    ensures Invariant(Do(s, Commit(i)))
  {
    var t, c := Do(s, Commit(i)), s.consumers[i];
    assert ConsumerHolds(s, c);
    forall j | 0 <= j < |t.consumers| ensures ConsumerHolds(t, t.consumers[j]) {
      assert ConsumerHolds(s, s.consumers[j]);
      if j != i && Holds(s.consumers[j]) && Holds(c) {
        assert s.consumers[j].want != c.want;
      }
    }
  }

  lemma StepKeepsInvariant(s: System, a: Action)
    requires Invariant(s)
    ensures Invariant(Do(s, a))
  {
    var t := Do(s, a);
    if t != s {
      match a
      case Issue(token, now) => IssueKeepsInvariant(s, token, now);
      case Remove(id) => RemoveKeepsInvariant(s, id);
      case Arrive(want, purpose) =>
        forall j | 0 <= j < |t.consumers| ensures ConsumerHolds(t, t.consumers[j]) {
          if j < |s.consumers| { assert ConsumerHolds(s, s.consumers[j]); }
        }
      case Read(i) => StepWithoutClaim(s, i, t.consumers[i]);
      case Delete(i) =>
        assert ConsumerHolds(s, s.consumers[i]);
        if s.consumers[i].want in s.rows {
          StepWithClaim(s, i, t.consumers[i]);
        } else {
          StepWithoutClaim(s, i, t.consumers[i]);
        }
      case Check(i, now) =>
        assert ConsumerHolds(s, s.consumers[i]);
        StepWithoutClaim(s, i, t.consumers[i]);
      case Update(i, now) =>
        assert ConsumerHolds(s, s.consumers[i]);
        if t.consumers[i].claim.Nothing? {
          StepWithoutClaim(s, i, t.consumers[i]);
        } else {
          StepWithClaim(s, i, t.consumers[i]);
        }
      case Commit(i) => CommitKeepsInvariant(s, i);
      case Abort(i) =>
        assert ConsumerHolds(s, s.consumers[i]);
        StepWithoutClaim(s, i, t.consumers[i]);
    }
  }

  lemma {:induction false} RunKeepsInvariant(kind: Kind, actions: seq<Action>)
    ensures Invariant(Run(kind, actions)) && Run(kind, actions).kind == kind
  {
    if actions != [] {
      RunKeepsInvariant(kind, actions[..|actions| - 1]);
      StepKeepsInvariant(Run(kind, actions[..|actions| - 1]), actions[|actions| - 1]);
    }
  }

  // ---------------------------------------------------------------- what every run guarantees

  predicate HasSucceeded(s: System, i: nat) {
    i < |s.consumers| && s.consumers[i].status.Committed? && s.consumers[i].stage.Succeeded?
  }

  /** Whatever the interleaving, a token is successfully used at most once, and never after it
      expired; a challenge only for the purpose it was issued for. */
  lemma UsedAtMostOnce(kind: Kind, actions: seq<Action>, i: nat, j: nat)
    requires HasSucceeded(Run(kind, actions), i) && HasSucceeded(Run(kind, actions), j)
    requires Run(kind, actions).consumers[i].want == Run(kind, actions).consumers[j].want
    ensures i == j
  {
    RunKeepsInvariant(kind, actions);
    assert ConsumerHolds(Run(kind, actions), Run(kind, actions).consumers[i]);
    assert ConsumerHolds(Run(kind, actions), Run(kind, actions).consumers[j]);
  }

  lemma UsedInTimeAndForItsPurpose(kind: Kind, actions: seq<Action>, i: nat)
    requires HasSucceeded(Run(kind, actions), i)
    ensures var s := Run(kind, actions);
            var c := s.consumers[i];
            && c.want in s.issued && c.stage.at < s.issued[c.want].expiresAt
            && (kind.ReadThenDelete? ==> c.purpose == s.issued[c.want].purpose)
            && !Usable(s.rows, c.want)
  {
    RunKeepsInvariant(kind, actions);
    assert ConsumerHolds(Run(kind, actions), Run(kind, actions).consumers[i]);
  }

  /** A row goes only when it is removed, when it has expired and something is issued, or when the
      consumer that deleted it commits. */
  lemma RowsLeaveOnlyFor(kind: Kind, actions: seq<Action>, a: Action, id: string)
    requires id in Run(kind, actions).rows && id !in Do(Run(kind, actions), a).rows
    ensures var s := Run(kind, actions);
            || a == Remove(id)
            || (kind.ReadThenDelete? && a.Issue? && s.rows[id].expiresAt < a.now)
            || (a.Commit? && a.i < |s.consumers| && s.consumers[a.i].want == id && s.consumers[a.i].claim.Deleted?)
  {
    RunKeepsInvariant(kind, actions);
    hide Invariant, Run;
  }

  /** Asking for the wrong purpose leaves the row in place, also when the request is committed. */
  lemma WrongPurposeLeavesRow(s: System, i: nat)
    requires s.kind.ReadThenDelete? && Active(s, i) && s.consumers[i].stage.Fresh? && s.consumers[i].claim.Nothing?
    requires s.consumers[i].want in s.rows && s.rows[s.consumers[i].want].purpose != s.consumers[i].purpose
    ensures var after := Do(Do(s, Read(i)), Commit(i));
            after.rows == s.rows && after.consumers[i].stage.Failed?
  {
  }

  /** A consumer that nobody disturbs does exactly what the repository's method says. */
  lemma LoneConsumerIsConsume(s: System, i: nat, now: int)
    requires Invariant(s) && s.kind.ReadThenDelete? && Active(s, i) && s.consumers[i].stage.Fresh?
    requires !Locked(s, i, s.consumers[i].want)
    ensures var c := s.consumers[i];
            var after := Do(Do(Do(Do(s, Read(i)), Delete(i)), Check(i, now)), Commit(i));
            && after.rows == Consumed(s.rows, c.want, c.purpose, now).0
            && (HasSucceeded(after, i) <==> Consumed(s.rows, c.want, c.purpose, now).1.Some?)
  {
    var read := Do(s, Read(i));
    assert forall j :: 0 <= j < |s.consumers| && j != i ==> read.consumers[j] == s.consumers[j];
    assert !Locked(read, i, s.consumers[i].want);
    assert ConsumerHolds(s, s.consumers[i]);
  }

  /** An invitation that is free, unused and not expired is used up by an undisturbed update; any
      other is refused and nothing changes. */
  lemma LoneUpdateUsesIff(s: System, i: nat, now: int)
    requires s.kind.ConditionalUpdate? && Active(s, i) && s.consumers[i].stage.Fresh? && s.consumers[i].claim.Nothing?
    requires !Locked(s, i, s.consumers[i].want)
    ensures var want := s.consumers[i].want;
            var after := Do(Do(s, Update(i, now)), Commit(i));
            && (HasSucceeded(after, i) <==> Usable(s.rows, want) && s.rows[want].expiresAt > now)
            && after.rows == if HasSucceeded(after, i) then s.rows[want := s.rows[want].(usedAt := Some(now))] else s.rows
  {
  }
}
