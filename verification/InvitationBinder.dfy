/** Turning an invitation code into a membership. */
module InvitationBinder {
  import opened Basics
  import opened FamilyArchive
  import opened Texts
  import opened Memberships
  import opened FamilyStore
  import OneTimeTokens

  /** `code` stands for the stored hash of the code. */
  datatype Invitation = Invitation(
    id: nat,
    familyId: nat,
    code: string,
    role: Role,
    target: Option<nat>,
    expiresAt: int,
    usedAt: Option<int>)

  // ---------------------------------------------------------------- the invitations' table

  predicate Redeemable(i: Invitation, now: int) { i.usedAt.None? && i.expiresAt > now }

  function PendingIn(familyId: nat, now: int): Invitation -> bool {
    (i: Invitation) => i.familyId == familyId && Redeemable(i, now)
  }

  /** The conditional update: every matching row that can still be redeemed is marked as used. */
  function UsedUp(rows: seq<Invitation>, code: string, now: int): (after: seq<Invitation>)
    ensures |after| == |rows|
  {
    seq(|rows|, i requires 0 <= i < |rows| =>
      if rows[i].code == code && Redeemable(rows[i], now) then rows[i].(usedAt := Some(now)) else rows[i])
  }

  /** Where the code stands; the number of rows when it is unknown. */
  function Place(rows: seq<Invitation>, code: string): (at: nat)
    ensures at <= |rows|
    ensures at < |rows| ==> rows[at].code == code
    ensures at == |rows| ==> forall i :: 0 <= i < |rows| ==> rows[i].code != code
  {
    if rows == [] then 0 else if rows[0].code == code then 0
    else
      assert forall i :: 1 <= i < |rows| ==> rows[i] == rows[1..][i - 1];
      1 + Place(rows[1..], code)
  }

  ghost predicate CodesUnique(rows: seq<Invitation>) {
    forall i, j :: 0 <= i < j < |rows| ==> rows[i].code != rows[j].code
  }

  lemma UsedUpIsOneRow(rows: seq<Invitation>, code: string, now: int)
    requires CodesUnique(rows)
    ensures var at := Place(rows, code);
            UsedUp(rows, code, now) ==
              if at < |rows| && Redeemable(rows[at], now) then rows[at := rows[at].(usedAt := Some(now))] else rows
  {
  }

  class SqlFamilyInvitationRepository {
    var rows: seq<Invitation>
    var next: nat

    ghost predicate Valid()
      reads this
    {
      && CodesUnique(rows)
      && (forall i :: 0 <= i < |rows| ==> rows[i].id < next)
      && (forall i, j :: 0 <= i < j < |rows| ==> rows[i].id < rows[j].id)
    }

    constructor ()
      ensures Valid() && rows == []
    {
      rows, next := [], 1;
    }

    /** The code is random; the caller of the model chooses one that is not in use. */
    method Issue(familyId: nat, role: Role, target: Option<nat>, expiresAt: int,
                 code: string) returns (issued: Invitation)
      requires Valid() && Place(rows, code) == |rows|
      modifies this
      ensures Valid()
      ensures issued == Invitation(old(next), familyId, code, role, target, expiresAt, None)
      ensures rows == old(rows) + [issued] && next == old(next) + 1
    {
      issued := Invitation(next, familyId, code, role, target, expiresAt, None);
      rows, next := rows + [issued], next + 1;
    }

    method FindByCode(code: string) returns (found: Option<Invitation>)
      requires Valid()
      ensures found.Some? <==> exists i :: 0 <= i < |rows| && rows[i].code == code
      ensures found.Some? ==> found.value in rows && found.value.code == code
    {
      var at := Place(rows, code);
      found := if at < |rows| then Some(rows[at]) else None;
    }

    /** What can still be redeemed, in the order it was issued. */
    method ListPending(familyId: nat, now: int) returns (pending: seq<Invitation>)
      requires Valid()
      ensures pending == Filter(rows, PendingIn(familyId, now))
      ensures forall i :: i in pending <==> i in rows && i.familyId == familyId && i.usedAt.None? && i.expiresAt > now
      ensures forall i, j :: 0 <= i < j < |pending| ==> pending[i].id < pending[j].id
    {
      var at := FilterPositions(rows, PendingIn(familyId, now));
      FilterMembers(rows, PendingIn(familyId, now));
      pending := Filter(rows, PendingIn(familyId, now));
    }

    method Consume(code: string, now: int) returns (consumed: Option<Invitation>)
      requires Valid()
      modifies this`rows
      ensures Valid()
      ensures rows == UsedUp(old(rows), code, now)
      ensures consumed.Some? <==>
                exists i :: 0 <= i < |old(rows)| && old(rows)[i].code == code && old(rows)[i].usedAt.None? && old(rows)[i].expiresAt > now
      ensures |rows| == |old(rows)|
      ensures forall i :: 0 <= i < |rows| ==>
                rows[i] == if old(rows)[i].code == code && old(rows)[i].usedAt.None? && old(rows)[i].expiresAt > now
                           then old(rows)[i].(usedAt := Some(now)) else old(rows)[i]
      ensures consumed.Some? ==> consumed.value in rows && consumed.value.code == code && consumed.value.usedAt == Some(now)
    {
      UsedUpIsOneRow(rows, code, now);
      var at := Place(rows, code);
      var updated := at < |rows| && Redeemable(rows[at], now);
      rows := UsedUp(rows, code, now);
      if !updated {
        return None;
      }
      return Some(rows[at]);
    }

    method Delete(id: nat)
      requires Valid()
      modifies this`rows
      ensures Valid()
      ensures rows == Filter(old(rows), OtherThan(id))
      ensures forall i :: i in rows <==> i in old(rows) && i.id != id
    {
      FilterMembers(rows, OtherThan(id));
      var at := FilterPositions(rows, OtherThan(id));
      rows := Filter(rows, OtherThan(id));
    }
  }

  function OtherThan(id: nat): Invitation -> bool { (i: Invitation) => i.id != id }

  // ---------------------------------------------------------------- binding

  datatype BindError =
    | InvitationNotFound
    | AccountAlreadyInFamily
    | AlreadyBelongsToFamily
    | InvitationTargetUnavailable
    | DisplayNameRequired
    | InvalidDisplayName

  datatype Tables = Tables(
    invitations: seq<Invitation>,
    members: seq<Membership>, nextMember: nat,
    ledgers: seq<Ledger>, nextLedger: nat)

  datatype Joined = Joined(tables: Tables, member: Membership)

  function LinkTarget(t: Tables, membershipId: nat, familyId: nat, accountId: nat): Result<Joined, BindError> {
    var target := FindMember(t.members, membershipId);
    if target.None? || target.value.familyId != familyId then Err(InvitationNotFound)
    else if target.value.accountId.Some? then Err(InvitationTargetUnavailable)
    else Ok(Joined(t.(members := Linked(t.members, membershipId, accountId)), target.value.(accountId := Some(accountId))))
  }

  function JoinAsNew(t: Tables, familyId: nat, role: Role, accountId: nat,
                     displayName: Option<string>): Result<Joined, BindError> {
    if displayName.None? || displayName.value == "" then Err(DisplayNameRequired)
    else if !ValidText(displayName.value, DISPLAY_NAME_MAX_LENGTH) then Err(InvalidDisplayName)
    else
      var member := NewMember(t.members, t.nextMember, familyId, Some(accountId), role, displayName.value);
      var joined := t.(members := t.members + [member], nextMember := t.nextMember + 1);
      Ok(Joined(if role.HasOwnLedger()
                then joined.(ledgers := t.ledgers + [Ledger(t.nextLedger, familyId, member.id)], nextLedger := t.nextLedger + 1)
                else joined,
                member))
  }

  /** One bind, from the code to the membership. */
  function Bound(t: Tables, code: string, accountId: nat, displayName: Option<string>,
                 now: int): Result<Joined, BindError> {
    var at := Place(t.invitations, code);
    if at == |t.invitations| || !Redeemable(t.invitations[at], now) then Err(InvitationNotFound)
    else
      var invitation := t.invitations[at];
      var existing := ListForAccount(t.members, accountId);
      if Filter(existing, InFamily(invitation.familyId)) != [] then Err(AccountAlreadyInFamily)
      else if existing != [] then Err(AlreadyBelongsToFamily)
      else
        var rest := t.(invitations := t.invitations[at := invitation.(usedAt := Some(now))]);
        if invitation.target.Some? then LinkTarget(rest, invitation.target.value, invitation.familyId, accountId)
        else JoinAsNew(rest, invitation.familyId, invitation.role, accountId, displayName)
  }

  class InvitationBinder {
    var t: Tables

    constructor (tables: Tables)
      ensures t == tables
    {
      t := tables;
    }

    method Link(membershipId: nat, familyId: nat, accountId: nat) returns (joined: Result<Membership, BindError>)
      modifies this
      ensures var spec := LinkTarget(old(t), membershipId, familyId, accountId);
              && (spec.Ok? ==> joined == Ok(spec.value.member) && t == spec.value.tables)
              && (spec.Err? ==> joined == Err(spec.error))
    {
      var target := FindMember(t.members, membershipId);
      if target.None? || target.value.familyId != familyId {
        return Err(InvitationNotFound);
      }
      if target.value.accountId.Some? {
        return Err(InvitationTargetUnavailable);
      }
      t := t.(members := Linked(t.members, membershipId, accountId));
      return Ok(target.value.(accountId := Some(accountId)));
    }

    method Join(familyId: nat, role: Role, accountId: nat,
                displayName: Option<string>) returns (joined: Result<Membership, BindError>)
      modifies this
      ensures var spec := JoinAsNew(old(t), familyId, role, accountId, displayName);
              && (spec.Ok? ==> joined == Ok(spec.value.member) && t == spec.value.tables)
              && (spec.Err? ==> joined == Err(spec.error))
    {
      if displayName.None? || displayName.value == "" {
        return Err(DisplayNameRequired);
      }
      if !ValidText(displayName.value, DISPLAY_NAME_MAX_LENGTH) {
        return Err(InvalidDisplayName);
      }
      var member := NewMember(t.members, t.nextMember, familyId, Some(accountId), role, displayName.value);
      t := t.(members := t.members + [member], nextMember := t.nextMember + 1);
      if role.HasOwnLedger() {
        t := t.(ledgers := t.ledgers + [Ledger(t.nextLedger, familyId, member.id)], nextLedger := t.nextLedger + 1);
      }
      return Ok(member);
    }

    /** The invitation is used up first; whatever fails afterwards rolls the whole request back. */
    method Bind(code: string, accountId: nat, displayName: Option<string>,
                now: int) returns (joined: Result<Membership, BindError>)
      requires CodesUnique(t.invitations)
      modifies this
      ensures var spec := Bound(old(t), code, accountId, displayName, now);
              && (spec.Ok? ==> joined == Ok(spec.value.member) && t == spec.value.tables)
              && (spec.Err? ==> joined == Err(spec.error) && t == old(t))
      ensures joined.Ok? ==>
                exists i :: 0 <= i < |old(t).invitations| && old(t).invitations[i].code == code
                            && old(t).invitations[i].usedAt.None? && now < old(t).invitations[i].expiresAt
    {
      var before := t;
      UsedUpIsOneRow(t.invitations, code, now);
      var at := Place(t.invitations, code);
      if at == |t.invitations| || !Redeemable(t.invitations[at], now) {
        return Err(InvitationNotFound);
      }
      t := t.(invitations := UsedUp(t.invitations, code, now));
      var invitation := t.invitations[at];
      var existing := ListForAccount(t.members, accountId);
      if Filter(existing, InFamily(invitation.familyId)) != [] {
        joined := Err(AccountAlreadyInFamily);
      } else if existing != [] {
        joined := Err(AlreadyBelongsToFamily);
      } else if invitation.target.Some? {
        joined := Link(invitation.target.value, invitation.familyId, accountId);
      } else {
        joined := Join(invitation.familyId, invitation.role, accountId, displayName);
      }
      if joined.Err? {
        t := before;
      }
    }
  }

  // ---------------------------------------------------------------- binding, field by field

  /** A code that is not known, used up or expired makes nobody a member. */
  lemma BindNeedsAnInvitation(t: Tables, code: string, accountId: nat, displayName: Option<string>, now: int)
    requires forall i :: 0 <= i < |t.invitations| && t.invitations[i].code == code ==>
               t.invitations[i].usedAt.Some? || t.invitations[i].expiresAt <= now
    ensures Bound(t, code, accountId, displayName, now) == Err(InvitationNotFound)
  {
  }

  lemma PlaceOf(rows: seq<Invitation>, code: string, at: nat)
    requires CodesUnique(rows) && at < |rows| && rows[at].code == code
    ensures Place(rows, code) == at
  {
  }

  lemma AccountsMemberships(members: seq<Membership>, accountId: nat, familyId: nat)
    ensures ListForAccount(members, accountId) != [] <==> exists m :: m in members && m.accountId == Some(accountId)
    ensures Filter(ListForAccount(members, accountId), InFamily(familyId)) != [] <==>
              exists m :: m in members && m.accountId == Some(accountId) && m.familyId == familyId
  {
    var own := ListForAccount(members, accountId);
    var inside := Filter(own, InFamily(familyId));
    FilterMembers(members, HeldBy(accountId));
    FilterMembers(own, InFamily(familyId));
    hide Filter;
    if own != [] {
      assert own[0] in own;
    }
    if inside != [] {
      assert inside[0] in inside;
    }
  }

  /** With a good code an account that takes part somewhere is turned away, and told whether it is this
      very family. */
  lemma BindRefusesMembers(t: Tables, code: string, accountId: nat, displayName: Option<string>, now: int, at: nat)
    requires CodesUnique(t.invitations) && at < |t.invitations| && t.invitations[at].code == code
    requires t.invitations[at].usedAt.None? && now < t.invitations[at].expiresAt
    ensures var inside := exists m :: m in t.members && m.accountId == Some(accountId) && m.familyId == t.invitations[at].familyId;
            var somewhere := exists m :: m in t.members && m.accountId == Some(accountId);
            var bound := Bound(t, code, accountId, displayName, now);
            && (bound == Err(AccountAlreadyInFamily) <==> inside)
            && (bound == Err(AlreadyBelongsToFamily) <==> somewhere && !inside)
  {
    PlaceOf(t.invitations, code, at);
    AccountsMemberships(t.members, accountId, t.invitations[at].familyId);
    hide Place, ListForAccount, Filter, FindMember, ValidText, NewMember;
  }

  /** An invitation for a member links that member, if it is one of the inviting family and not linked
      yet, and leaves everybody else alone. */
  lemma BindLinksTheTarget(t: Tables, code: string, accountId: nat, displayName: Option<string>, now: int, at: nat)
    requires CodesUnique(t.invitations) && at < |t.invitations| && t.invitations[at].code == code
    requires t.invitations[at].usedAt.None? && now < t.invitations[at].expiresAt && t.invitations[at].target.Some?
    requires ValidMembers(t.members, t.nextMember) && forall m :: m in t.members ==> m.accountId != Some(accountId)
    ensures var inv := t.invitations[at];
            var bound := Bound(t, code, accountId, displayName, now);
            && ((forall k :: 0 <= k < |t.members| ==> t.members[k].id != inv.target.value || t.members[k].familyId != inv.familyId) ==>
                  bound == Err(InvitationNotFound))
            && (forall k :: 0 <= k < |t.members| && t.members[k].id == inv.target.value && t.members[k].familyId == inv.familyId ==>
                  if t.members[k].accountId.Some? then bound == Err(InvitationTargetUnavailable)
                  else
                    var linked := t.members[k].(accountId := Some(accountId));
                    bound == Ok(Joined(t.(invitations := t.invitations[at := inv.(usedAt := Some(now))],
                                          members := t.members[k := linked]), linked)))
  {
    PlaceOf(t.invitations, code, at);
    AccountsMemberships(t.members, accountId, t.invitations[at].familyId);
    hide Place, ListForAccount, Filter, CodesUnique;
    var inv := t.invitations[at];
    var found := FindMember(t.members, inv.target.value);
    if found.Some? {
      var k :| 0 <= k < |t.members| && t.members[k] == found.value;
      assert Linked(t.members, inv.target.value, accountId) == t.members[k := t.members[k].(accountId := Some(accountId))];
    }
  }

  /** An invitation for nobody in particular makes a new member of the inviting family, with the role of
      the invitation and the name that was given, listed behind everybody else. */
  lemma BindMakesANewcomer(t: Tables, code: string, accountId: nat, displayName: Option<string>, now: int, at: nat)
    requires CodesUnique(t.invitations) && at < |t.invitations| && t.invitations[at].code == code
    requires t.invitations[at].usedAt.None? && now < t.invitations[at].expiresAt && t.invitations[at].target.None?
    requires forall m :: m in t.members ==> m.accountId != Some(accountId)
    ensures var inv := t.invitations[at];
            var bound := Bound(t, code, accountId, displayName, now);
            if displayName.None? || displayName == Some("") then bound == Err(DisplayNameRequired)
            else if !ValidText(displayName.value, 100) then bound == Err(InvalidDisplayName)
            else
              && bound.Ok? && bound.value.tables.members == t.members + [bound.value.member]
              && bound.value.tables.nextMember == t.nextMember + 1
              && bound.value.member == Membership(t.nextMember, inv.familyId, Some(accountId), inv.role, displayName.value,
                                                  bound.value.member.displayOrder)
              && (forall m :: m in t.members && m.familyId == inv.familyId ==> m.displayOrder < bound.value.member.displayOrder)
              && bound.value.tables.ledgers ==
                   t.ledgers + (if inv.role == Child then [Ledger(t.nextLedger, inv.familyId, t.nextMember)] else [])
              && bound.value.tables.invitations == t.invitations[at := inv.(usedAt := Some(now))]
  {
    PlaceOf(t.invitations, code, at);
    AccountsMemberships(t.members, accountId, t.invitations[at].familyId);
    hide Place, ListForAccount, Filter, CodesUnique, ValidText;
  }

  // ---------------------------------------------------------------- using up is the conditional update

  /** The invitations as things to be used once, by their codes. */
  function TokensOf(rows: seq<Invitation>): map<string, OneTimeTokens.Token>
    requires CodesUnique(rows)
  {
    map i | 0 <= i < |rows| :: rows[i].code := OneTimeTokens.Token(rows[i].code, "", rows[i].expiresAt, rows[i].usedAt)
  }

  lemma TokenAt(rows: seq<Invitation>, i: nat)
    requires CodesUnique(rows) && i < |rows|
    ensures rows[i].code in TokensOf(rows)
    ensures TokensOf(rows)[rows[i].code] == OneTimeTokens.Token(rows[i].code, "", rows[i].expiresAt, rows[i].usedAt)
  {
  }

  lemma UnknownCode(rows: seq<Invitation>, code: string)
    requires CodesUnique(rows) && Place(rows, code) == |rows|
    ensures code !in TokensOf(rows)
  {
  }

  /** Marking a row as used marks its token. */
  lemma MarkedToken(rows: seq<Invitation>, at: nat, now: int)
    requires CodesUnique(rows) && at < |rows|
    ensures var marked := rows[at := rows[at].(usedAt := Some(now))];
            && CodesUnique(marked)
            && rows[at].code in TokensOf(rows)
            && TokensOf(marked) == TokensOf(rows)[rows[at].code := TokensOf(rows)[rows[at].code].(usedAt := Some(now))]
  {
    var marked := rows[at := rows[at].(usedAt := Some(now))];
    TokenAt(rows, at);
    var tokens, after := TokensOf(rows), TokensOf(marked);
    forall i | 0 <= i < |rows|
      ensures rows[i].code in after && (i != at ==> rows[i].code in tokens && after[rows[i].code] == tokens[rows[i].code])
    {
      TokenAt(marked, i);
      TokenAt(rows, i);
    }
    TokenAt(marked, at);
  }

  /** Using up an invitation is the update that many consumers may make at once, when nobody disturbs
      it: the same row is marked, and it succeeds for the same codes. So a code makes at most one
      member, whatever the interleaving. */
  lemma ConsumeIsTheUpdate(rows: seq<Invitation>, code: string, now: int, s: OneTimeTokens.System, i: nat)
    requires CodesUnique(rows) && s.rows == TokensOf(rows) && s.kind.ConditionalUpdate?
    requires OneTimeTokens.Active(s, i) && !OneTimeTokens.Locked(s, i, code)
    requires s.consumers[i].want == code && s.consumers[i].stage.Fresh? && s.consumers[i].claim.Nothing?
    ensures CodesUnique(UsedUp(rows, code, now))
    ensures var after := OneTimeTokens.Do(OneTimeTokens.Do(s, OneTimeTokens.Update(i, now)), OneTimeTokens.Commit(i));
            && after.rows == TokensOf(UsedUp(rows, code, now))
            && (OneTimeTokens.HasSucceeded(after, i) <==>
                  exists k :: 0 <= k < |rows| && rows[k].code == code && rows[k].usedAt.None? && rows[k].expiresAt > now)
  {
    OneTimeTokens.LoneUpdateUsesIff(s, i, now);
    UsedUpIsOneRow(rows, code, now);
    var at := Place(rows, code);
    if at < |rows| {
      PlaceIsOnly(rows, code);
      TokenAt(rows, at);
      MarkedToken(rows, at, now);
    } else {
      UnknownCode(rows, code);
    }
    hide Place, UsedUp, TokensOf, CodesUnique, OneTimeTokens.Do, OneTimeTokens.Locked, OneTimeTokens.Active, OneTimeTokens.HasSucceeded;
  }

  lemma PlaceIsOnly(rows: seq<Invitation>, code: string)
    requires CodesUnique(rows) && Place(rows, code) < |rows|
    ensures forall k :: 0 <= k < |rows| && rows[k].code == code ==> k == Place(rows, code)
  {
  }

  // ---------------------------------------------------------------- runs

  datatype Command =
    | Issue(invitation: Invitation)
    | Revoke(invitationId: nat)
    | Bind(code: string, accountId: nat, displayName: Option<string>, now: int)

  /** The tables, how many binds succeeded, and how many used invitations were deleted later. */
  datatype Course = Course(tables: Tables, binds: nat, removed: nat)

  predicate IsUsed(i: Invitation) { i.usedAt.Some? }

  function Used(): Invitation -> bool { (i: Invitation) => i.usedAt.Some? }

  function Step(c: Course, command: Command): Course {
    match command
    case Issue(invitation) =>
      if Place(c.tables.invitations, invitation.code) < |c.tables.invitations| || IsUsed(invitation) then c
      else c.(tables := c.tables.(invitations := c.tables.invitations + [invitation]))
    case Revoke(id) =>
      var kept := Filter(c.tables.invitations, OtherThan(id));
      var gone := |Filter(c.tables.invitations, Used())| - |Filter(kept, Used())|;
      c.(tables := c.tables.(invitations := kept), removed := c.removed + (if gone < 0 then 0 else gone))
    case Bind(code, accountId, displayName, now) =>
      match Bound(c.tables, code, accountId, displayName, now)
      case Ok(joined) => c.(tables := joined.tables, binds := c.binds + 1)
      case Err(_) => c
  }

  function Run(start: Tables, commands: seq<Command>): Course {
    if commands == [] then Course(start, 0, 0)
    else Step(Run(start, commands[..|commands| - 1]), commands[|commands| - 1])
  }

  /** No account takes part twice, so it is in at most one family. */
  ghost predicate OneFamilyEach(members: seq<Membership>) {
    forall i, j :: 0 <= i < j < |members| && members[i].accountId.Some? ==> members[i].accountId != members[j].accountId
  }

  ghost predicate LedgerOf(ledgers: seq<Ledger>, m: Membership) {
    exists l :: l in ledgers && l.membershipId == m.id && l.familyId == m.familyId
  }

  ghost predicate Sound(t: Tables) {
    && ValidMembers(t.members, t.nextMember)
    && OneFamilyEach(t.members)
    && (forall l :: l in t.ledgers ==> l.membershipId < t.nextMember)
    && (forall m :: m in t.members ==> (m.role.HasOwnLedger() <==> LedgerOf(t.ledgers, m)))
    && CodesUnique(t.invitations)
  }

  lemma NoMembershipYet(members: seq<Membership>, accountId: nat)
    requires ListForAccount(members, accountId) == []
    ensures forall i :: 0 <= i < |members| ==> members[i].accountId != Some(accountId)
  {
    FilterMembers(members, HeldBy(accountId));
    forall i | 0 <= i < |members| ensures members[i].accountId != Some(accountId) {
      assert members[i] in members && members[i] !in ListForAccount(members, accountId);
    }
  }

  lemma LinkedHasItsLedger(t: Tables, membershipId: nat, accountId: nat, m: Membership)
    requires forall m :: m in t.members ==> (m.role.HasOwnLedger() <==> LedgerOf(t.ledgers, m))
    requires m in Linked(t.members, membershipId, accountId)
    ensures m.role.HasOwnLedger() <==> LedgerOf(t.ledgers, m)
  {
    var after := Linked(t.members, membershipId, accountId);
    var i :| 0 <= i < |after| && after[i] == m;
    assert t.members[i] in t.members;
    assert LedgerOf(t.ledgers, t.members[i]) <==> LedgerOf(t.ledgers, m);
  }

  lemma LinkKeepsSound(t: Tables, membershipId: nat, familyId: nat, accountId: nat)
    requires Sound(t) && ListForAccount(t.members, accountId) == [] && LinkTarget(t, membershipId, familyId, accountId).Ok?
    ensures Sound(LinkTarget(t, membershipId, familyId, accountId).value.tables)
  {
    hide LedgerOf, CodesUnique, ListForAccount;
    NoMembershipYet(t.members, accountId);
    forall m | m in Linked(t.members, membershipId, accountId) ensures m.role.HasOwnLedger() <==> LedgerOf(t.ledgers, m) {
      LinkedHasItsLedger(t, membershipId, accountId, m);
    }
  }

  lemma NewcomerHasItsLedger(members: seq<Membership>, nextMember: nat, ledgers: seq<Ledger>, member: Membership,
                             more: seq<Ledger>)
    requires forall i :: 0 <= i < |members| ==> members[i].id < nextMember
    requires forall l :: l in ledgers ==> l.membershipId < nextMember
    requires forall m :: m in members ==> (m.role.HasOwnLedger() <==> LedgerOf(ledgers, m))
    requires member.id == nextMember
    requires forall l :: l in more ==> l.membershipId == member.id && l.familyId == member.familyId
    requires more != [] <==> member.role.HasOwnLedger()
    ensures forall m :: m in members + [member] ==> (m.role.HasOwnLedger() <==> LedgerOf(ledgers + more, m))
  {
    forall m | m in members + [member] ensures m.role.HasOwnLedger() <==> LedgerOf(ledgers + more, m) {
      if m in members {
        var i :| 0 <= i < |members| && members[i] == m;
        assert LedgerOf(ledgers, m) <==> LedgerOf(ledgers + more, m);
      } else if more != [] {
        assert more[0] in ledgers + more;
      }
    }
  }

  lemma JoinKeepsSound(t: Tables, familyId: nat, role: Role, accountId: nat, displayName: Option<string>)
    requires Sound(t) && ListForAccount(t.members, accountId) == [] && JoinAsNew(t, familyId, role, accountId, displayName).Ok?
    ensures Sound(JoinAsNew(t, familyId, role, accountId, displayName).value.tables)
  {
    var joined := JoinAsNew(t, familyId, role, accountId, displayName).value;
    var more := if role.HasOwnLedger() then [Ledger(t.nextLedger, familyId, joined.member.id)] else [];
    hide NewMember, ValidText, LedgerOf;
    assert joined.member.id == t.nextMember && joined.member.role == role && joined.member.familyId == familyId
           && joined.member.accountId == Some(accountId) by { NewMemberIs(t, familyId, role, accountId, displayName); }
    NoMembershipYet(t.members, accountId);
    assert joined.tables.ledgers == t.ledgers + more;
    NewcomerHasItsLedger(t.members, t.nextMember, t.ledgers, joined.member, more);
  }

  lemma NewMemberIs(t: Tables, familyId: nat, role: Role, accountId: nat, displayName: Option<string>)
    requires JoinAsNew(t, familyId, role, accountId, displayName).Ok?
    ensures var m := JoinAsNew(t, familyId, role, accountId, displayName).value.member;
            m.id == t.nextMember && m.role == role && m.familyId == familyId && m.accountId == Some(accountId)
  {
  }

  lemma BindKeepsSound(t: Tables, code: string, accountId: nat, displayName: Option<string>, now: int)
    requires Sound(t) && Bound(t, code, accountId, displayName, now).Ok?
    ensures Sound(Bound(t, code, accountId, displayName, now).value.tables)
  {
    var at := Place(t.invitations, code);
    var invitation := t.invitations[at];
    var rest := t.(invitations := t.invitations[at := invitation.(usedAt := Some(now))]);
    assert Sound(rest);
    if invitation.target.Some? {
      LinkKeepsSound(rest, invitation.target.value, invitation.familyId, accountId);
    } else {
      JoinKeepsSound(rest, invitation.familyId, invitation.role, accountId, displayName);
    }
  }

  /** What a successful bind has done: it has used up exactly the invitation of the code, the account
      has one membership - in the inviting family -, no linked member was touched, and a ledger was
      added exactly when a newcomer with a ledger of its own was. */
  lemma BindMeansJoined(t: Tables, code: string, accountId: nat, displayName: Option<string>, now: int)
    requires Sound(t) && Bound(t, code, accountId, displayName, now).Ok?
    ensures var done := Bound(t, code, accountId, displayName, now).value;
            var at := Place(t.invitations, code);
            && at < |t.invitations| && t.invitations[at].code == code
            && t.invitations[at].usedAt.None? && now < t.invitations[at].expiresAt
            && done.tables.invitations == t.invitations[at := t.invitations[at].(usedAt := Some(now))]
            && done.member in done.tables.members
            && done.member.accountId == Some(accountId) && done.member.familyId == t.invitations[at].familyId
            && (forall m :: m in t.members && m.accountId.Some? ==> m in done.tables.members)
            && done.tables.ledgers == t.ledgers + (if t.invitations[at].target.None? && t.invitations[at].role.HasOwnLedger()
                                                   then [Ledger(t.nextLedger, done.member.familyId, done.member.id)] else [])
  {
    hide ValidText, OneFamilyEach, CodesUnique, LedgerOf, Filter, Place, Highest;
    var done := Bound(t, code, accountId, displayName, now).value;
    var invitation := t.invitations[Place(t.invitations, code)];
    if invitation.target.Some? {
      var target := FindMember(t.members, invitation.target.value).value;
      var k :| 0 <= k < |t.members| && t.members[k] == target;
      assert done.tables.members[k] == done.member;
      forall m | m in t.members && m.accountId.Some? ensures m in done.tables.members {
        var i :| 0 <= i < |t.members| && t.members[i] == m;
        assert done.tables.members[i] == m;
      }
    }
  }

  lemma {:induction false} MarkingOneCounts(rows: seq<Invitation>, at: nat, now: int)
    requires at < |rows| && rows[at].usedAt.None?
    ensures |Filter(rows[at := rows[at].(usedAt := Some(now))], Used())| == |Filter(rows, Used())| + 1
  {
    var marked := rows[at := rows[at].(usedAt := Some(now))];
    var n := |rows| - 1;
    if at < n {
      MarkingOneCounts(rows[..n], at, now);
      assert marked[..n] == rows[..n][at := rows[at].(usedAt := Some(now))];
    } else {
      assert marked[..n] == rows[..n];
    }
  }

  lemma {:induction false} KeepingFewerCountsFewer(rows: seq<Invitation>, p: Invitation -> bool)
    ensures |Filter(Filter(rows, p), Used())| <= |Filter(rows, Used())|
  {
    if rows != [] {
      var n := |rows| - 1;
      KeepingFewerCountsFewer(rows[..n], p);
      if p(rows[n]) {
        FilterSnoc(Filter(rows[..n], p), rows[n], Used());
        assert Filter(rows, p) == Filter(rows[..n], p) + [rows[n]];
      } else {
        assert Filter(rows, p) == Filter(rows[..n], p);
      }
    }
  }

  lemma StepKeepsSound(c: Course, command: Command)
    requires Sound(c.tables)
    ensures Sound(Step(c, command).tables)
  {
    match command
    case Issue(invitation) =>
    case Revoke(id) =>
      var at := FilterPositions(c.tables.invitations, OtherThan(id));
    case Bind(code, accountId, displayName, now) =>
      if Bound(c.tables, code, accountId, displayName, now).Ok? {
        BindKeepsSound(c.tables, code, accountId, displayName, now);
      }
  }

  lemma StepCounts(c: Course, command: Command)
    ensures |Filter(Step(c, command).tables.invitations, Used())| + Step(c, command).removed - Step(c, command).binds
            == |Filter(c.tables.invitations, Used())| + c.removed - c.binds
  {
    match command
    case Issue(invitation) =>
      FilterSnoc(c.tables.invitations, invitation, Used());
    case Revoke(id) =>
      KeepingFewerCountsFewer(c.tables.invitations, OtherThan(id));
    case Bind(code, accountId, displayName, now) =>
      if Bound(c.tables, code, accountId, displayName, now).Ok? {
        MarkingOneCounts(c.tables.invitations, Place(c.tables.invitations, code), now);
      }
  }

  /** Over any run of issuing, revoking and binding, from any sound tables: an account is never in two
      families, exactly the members whose role owns a ledger have one, and the successful binds are as
      many as the invitations used since the start, those deleted after use included. A failed bind
      leaves no trace. */
  lemma {:induction false} RunsKeepFamilies(start: Tables, commands: seq<Command>)
    requires Sound(start)
    ensures var c := Run(start, commands);
            && Sound(c.tables)
            && |Filter(c.tables.invitations, Used())| + c.removed == c.binds + |Filter(start.invitations, Used())|
  {
    if commands != [] {
      RunsKeepFamilies(start, commands[..|commands| - 1]);
      StepKeepsSound(Run(start, commands[..|commands| - 1]), commands[|commands| - 1]);
      StepCounts(Run(start, commands[..|commands| - 1]), commands[|commands| - 1]);
    }
  }

  /** Over any run an invitation that is used was used before it expired. */
  lemma {:induction false} UsedInTime(start: Tables, commands: seq<Command>)
    requires CodesUnique(start.invitations)
    requires forall i :: i in start.invitations && i.usedAt.Some? ==> i.usedAt.value < i.expiresAt
    ensures CodesUnique(Run(start, commands).tables.invitations)
    ensures forall i :: i in Run(start, commands).tables.invitations && i.usedAt.Some? ==> i.usedAt.value < i.expiresAt
  {
    if commands != [] {
      var c := Run(start, commands[..|commands| - 1]);
      UsedInTime(start, commands[..|commands| - 1]);
      match commands[|commands| - 1]
      case Issue(_) =>
      case Revoke(id) =>
        var at := FilterPositions(c.tables.invitations, OtherThan(id));
        FilterMembers(c.tables.invitations, OtherThan(id));
      case Bind(code, accountId, displayName, now) =>
        if Bound(c.tables, code, accountId, displayName, now).Ok? {
          BindMarksOne(c.tables, code, accountId, displayName, now);
        }
    }
  }

  lemma BindMarksOne(t: Tables, code: string, accountId: nat, displayName: Option<string>, now: int)
    requires CodesUnique(t.invitations) && Bound(t, code, accountId, displayName, now).Ok?
    ensures var at := Place(t.invitations, code);
            && at < |t.invitations| && now < t.invitations[at].expiresAt
            && Bound(t, code, accountId, displayName, now).value.tables.invitations
               == t.invitations[at := t.invitations[at].(usedAt := Some(now))]
  {
  }

  /** Once linked, by a bind or otherwise, a member stays as it is through any run. */
  lemma {:induction false} LinkedMembersStay(start: Tables, commands: seq<Command>, m: Membership)
    requires Sound(start) && m in start.members && m.accountId.Some?
    ensures m in Run(start, commands).tables.members
  {
    if commands != [] {
      var c := Run(start, commands[..|commands| - 1]);
      LinkedMembersStay(start, commands[..|commands| - 1], m);
      RunsKeepFamilies(start, commands[..|commands| - 1]);
      match commands[|commands| - 1]
      case Issue(_) =>
      case Revoke(_) =>
      case Bind(code, accountId, displayName, now) =>
        if Bound(c.tables, code, accountId, displayName, now).Ok? {
          BindMeansJoined(c.tables, code, accountId, displayName, now);
        }
    }
  }
}
