/** The table of family memberships and the one order in which every screen lists them. */
module Memberships {
  import opened Basics
  import opened Sorting
  import opened FamilyArchive
  import opened Texts

  const DISPLAY_NAME_MAX_LENGTH := 100

  datatype Membership = Membership(
    id: nat,
    familyId: nat,
    accountId: Option<nat>,
    role: Role,
    displayName: string,
    displayOrder: int)

  function RoleOrder(role: Role): nat {
    match role
    case Owner => 0
    case Parent => 1
    case Child => 2
    case Display => 3
  }

  function ListingOrder(): Membership -> Key {
    (m: Membership) => Key(RoleOrder(m.role), m.displayOrder, m.id)
  }

  function InFamily(familyId: nat): Membership -> bool { (m: Membership) => m.familyId == familyId }

  function HasRole(role: Role): Membership -> bool { (m: Membership) => m.role == role }

  function HeldBy(accountId: nat): Membership -> bool { (m: Membership) => m.accountId == Some(accountId) }

  ghost predicate ValidMembers(rows: seq<Membership>, next: nat) {
    && (forall i :: 0 <= i < |rows| ==> rows[i].id < next)
    && (forall i, j :: 0 <= i < j < |rows| ==> rows[i].id < rows[j].id)
  }

  function ListForFamily(rows: seq<Membership>, familyId: nat): seq<Membership> {
    SortBy(Filter(rows, InFamily(familyId)), ListingOrder())
  }

  function ListForAccount(rows: seq<Membership>, accountId: nat): seq<Membership> {
    Filter(rows, HeldBy(accountId))
  }

  /** The largest display order in use in the family. */
  function Highest(rows: seq<Membership>, familyId: nat): (highest: Option<int>)
    ensures highest.None? ==> forall m :: m in rows ==> m.familyId != familyId
    ensures highest.Some? ==> forall m :: m in rows && m.familyId == familyId ==> m.displayOrder <= highest.value
    ensures highest.Some? ==> exists m :: m in rows && m.familyId == familyId && m.displayOrder == highest.value
  {
    if rows == [] then None
    else
      var last := rows[|rows| - 1];
      var before := Highest(rows[..|rows| - 1], familyId);
      assert rows == rows[..|rows| - 1] + [last];
      if last.familyId != familyId then before
      else if before.Some? && before.value >= last.displayOrder then before
      else Some(last.displayOrder)
  }

  function NextDisplayOrder(rows: seq<Membership>, familyId: nat): int {
    var highest := Highest(rows, familyId);
    if highest.None? then 0 else highest.value + 1
  }

  function NewMember(rows: seq<Membership>, next: nat, familyId: nat, accountId: Option<nat>,
                     role: Role, displayName: string): Membership {
    Membership(next, familyId, accountId, role, displayName, NextDisplayOrder(rows, familyId))
  }

  // ---------------------------------------------------------------- reorder

  function FindMember(rows: seq<Membership>, id: nat): (found: Option<Membership>)
    ensures found.Some? ==> found.value in rows && found.value.id == id
    ensures found.None? ==> forall m :: m in rows ==> m.id != id
  {
    if rows == [] then None
    else
      var last := rows[|rows| - 1];
      assert rows == rows[..|rows| - 1] + [last];
      if last.id == id then Some(last) else FindMember(rows[..|rows| - 1], id)
  }

  /** Gives the row with this id in this family the display order, and leaves every other row alone. */
  function WithOrder(rows: seq<Membership>, familyId: nat, id: nat, order: int): (changed: seq<Membership>)
    ensures |changed| == |rows|
  {
    seq(|rows|, i requires 0 <= i < |rows| =>
      if rows[i].familyId == familyId && rows[i].id == id then rows[i].(displayOrder := order) else rows[i])
  }

  /** The rows after the first n ids have been numbered from 0. */
  function Reordered(rows: seq<Membership>, familyId: nat, ids: seq<nat>, n: nat): (changed: seq<Membership>)
    requires n <= |ids|
    ensures |changed| == |rows|
  {
    if n == 0 then rows else WithOrder(Reordered(rows, familyId, ids, n - 1), familyId, ids[n - 1], n - 1)
  }

  class SqlFamilyMembershipRepository {
    var rows: seq<Membership>
    var next: nat

    ghost predicate Valid()
      reads this
    {
      ValidMembers(rows, next)
    }

    constructor ()
      ensures Valid() && rows == []
    {
      rows, next := [], 1;
    }

    method Add(familyId: nat, accountId: Option<nat>, role: Role, displayName: string)
        returns (added: Option<Membership>)
      requires Valid()
      modifies this
      ensures Valid()
      ensures added.Some? <==> ValidText(displayName, DISPLAY_NAME_MAX_LENGTH)
      ensures added.Some? ==>
                && added.value == NewMember(old(rows), old(next), familyId, accountId, role, displayName)
                && added.value == Membership(old(next), familyId, accountId, role, displayName, added.value.displayOrder)
                && (forall m :: m in old(rows) && m.familyId == familyId ==> m.displayOrder < added.value.displayOrder)
                && rows == old(rows) + [added.value] && next == old(next) + 1
      ensures added.None? ==> rows == old(rows) && next == old(next)
    {
      if !ValidText(displayName, DISPLAY_NAME_MAX_LENGTH) {
        return None;
      }
      added := Some(NewMember(rows, next, familyId, accountId, role, displayName));
      rows, next := rows + [added.value], next + 1;
    }

    method LinkAccount(membershipId: nat, accountId: nat) returns (ok: bool)
      requires Valid()
      modifies this`rows
      ensures Valid()
      ensures ok <==> exists m :: m in old(rows) && m.id == membershipId
      ensures rows == Linked(old(rows), membershipId, accountId)
      ensures forall i :: 0 <= i < |rows| ==>
                rows[i] == if old(rows)[i].id == membershipId then old(rows)[i].(accountId := Some(accountId)) else old(rows)[i]
    {
      ok := FindMember(rows, membershipId).Some?;
      rows := Linked(rows, membershipId, accountId);
    }

    /** Numbers the listed members from 0. A foreign id is refused and nothing is flushed. */
    method Reorder(familyId: nat, membershipIds: seq<nat>) returns (ok: bool)
      requires Valid()
      modifies this`rows
      ensures Valid()
      ensures ok <==> forall id :: id in membershipIds ==> Belongs(old(rows), familyId, id)
      ensures ok ==> rows == Reordered(old(rows), familyId, membershipIds, |membershipIds|)
      ensures !ok ==> rows == old(rows)
    {
      var changed := rows;
      for order := 0 to |membershipIds|
        invariant rows == old(rows)
        invariant changed == Reordered(rows, familyId, membershipIds, order)
        invariant forall k :: 0 <= k < order ==> Belongs(rows, familyId, membershipIds[k])
      {
        ReorderedBelongs(rows, familyId, membershipIds, order, membershipIds[order]);
        var row := FindMember(Filter(changed, InFamily(familyId)), membershipIds[order]);
        if row.None? {
          assert membershipIds[order] in membershipIds;
          return false;
        }
        changed := WithOrder(changed, familyId, membershipIds[order], order);
      }
      ReorderedKeeps(rows, familyId, membershipIds, |membershipIds|);
      rows := changed;
      return true;
    }

    method Delete(membershipId: nat)
      requires Valid()
      modifies this`rows
      ensures Valid()
      ensures rows == Filter(old(rows), NotMember(membershipId))
      ensures forall m :: m in rows <==> m in old(rows) && m.id != membershipId
    {
      FilterMembers(rows, NotMember(membershipId));
      var at := FilterPositions(rows, NotMember(membershipId));
      rows := Filter(rows, NotMember(membershipId));
    }
  }

  function NotMember(id: nat): Membership -> bool { (m: Membership) => m.id != id }

  function Linked(rows: seq<Membership>, membershipId: nat, accountId: nat): (changed: seq<Membership>)
    ensures |changed| == |rows|
  {
    seq(|rows|, i requires 0 <= i < |rows| =>
      if rows[i].id == membershipId then rows[i].(accountId := Some(accountId)) else rows[i])
  }

  predicate Belongs(rows: seq<Membership>, familyId: nat, id: nat) {
    exists i :: 0 <= i < |rows| && rows[i].id == id && rows[i].familyId == familyId
  }

  lemma ReorderedBelongs(rows: seq<Membership>, familyId: nat, ids: seq<nat>, n: nat, id: nat)
    requires n <= |ids|
    ensures FindMember(Filter(Reordered(rows, familyId, ids, n), InFamily(familyId)), id).Some? <==> Belongs(rows, familyId, id)
  {
    var changed := Reordered(rows, familyId, ids, n);
    var found := Filter(changed, InFamily(familyId));
    ReorderedKeeps(rows, familyId, ids, n);
    FilterMembers(changed, InFamily(familyId));
    if FindMember(found, id).Some? {
      var m := FindMember(found, id).value;
      var i :| 0 <= i < |changed| && changed[i] == m;
      assert rows[i].id == id;
    }
    if Belongs(rows, familyId, id) {
      var i :| 0 <= i < |rows| && rows[i].id == id && rows[i].familyId == familyId;
      assert changed[i] in found;
    }
  }

  lemma {:induction false} ReorderedKeeps(rows: seq<Membership>, familyId: nat, ids: seq<nat>, n: nat)
    requires n <= |ids|
    ensures forall i :: 0 <= i < |rows| ==>
              Reordered(rows, familyId, ids, n)[i] == rows[i].(displayOrder := Reordered(rows, familyId, ids, n)[i].displayOrder)
  {
    if n > 0 {
      ReorderedKeeps(rows, familyId, ids, n - 1);
    }
  }

  // ---------------------------------------------------------------- reordering is what is listed

  /** One family's members of one role, as they are listed. */
  function ListedAs(rows: seq<Membership>, familyId: nat, role: Role): seq<Membership> {
    Filter(ListForFamily(rows, familyId), HasRole(role))
  }

  function IdsOf(members: seq<Membership>): seq<nat> {
    seq(|members|, i requires 0 <= i < |members| => members[i].id)
  }

  /** The guard in front of the reordering: the given ids are the family's children, each once. */
  predicate SameChildren(rows: seq<Membership>, familyId: nat, ids: seq<nat>) {
    multiset(ids) == multiset(IdsOf(ListedAs(rows, familyId, Child)))
  }

  lemma MembersDistinguish(rows: seq<Membership>, next: nat, p: Membership -> bool)
    requires ValidMembers(rows, next)
    ensures KeysDistinguish(Filter(rows, p), ListingOrder())
  {
    FilterMembers(rows, p);
    forall x, y | x in Filter(rows, p) && y in Filter(rows, p) && x.id == y.id ensures x == y {
      assert x in rows && y in rows;
      var i :| 0 <= i < |rows| && rows[i] == x;
      var j :| 0 <= j < |rows| && rows[j] == y;
    }
  }

  /** Listing a role is sorting that role's rows. */
  lemma ListedAsSorted(rows: seq<Membership>, next: nat, familyId: nat, role: Role)
    requires ValidMembers(rows, next)
    ensures ListedAs(rows, familyId, role) == SortBy(Filter(rows, BothHold(InFamily(familyId), HasRole(role))), ListingOrder())
  {
    MembersDistinguish(rows, next, InFamily(familyId));
    FilterOfSort(Filter(rows, InFamily(familyId)), HasRole(role), ListingOrder());
    FilterTwice(rows, InFamily(familyId), HasRole(role));
  }

  lemma ListedMembers(rows: seq<Membership>, familyId: nat, role: Role)
    ensures forall m :: m in ListedAs(rows, familyId, role) <==> m in rows && m.familyId == familyId && m.role == role
  {
    SortPermutes(Filter(rows, InFamily(familyId)), ListingOrder());
    FilterMembers(rows, InFamily(familyId));
    FilterMembers(ListForFamily(rows, familyId), HasRole(role));
  }

  /** The first role is listed before the second. */
  predicate RoleBefore(a: Role, b: Role) {
    || (a.Owner? && !b.Owner?)
    || (a.Parent? && (b.Child? || b.Display?))
    || (a.Child? && b.Display?)
  }

  /** A family is listed with all its members and nobody else: the owner, the parents, the children, the
      displays; within a role by display order, and where that is the same by id. */
  lemma ListedByRoleAndOrder(rows: seq<Membership>, next: nat, familyId: nat)
    requires ValidMembers(rows, next)
    ensures var listed := ListForFamily(rows, familyId);
            && (forall m :: m in listed <==> m in rows && m.familyId == familyId)
            && (forall i, j :: 0 <= i < j < |listed| ==>
                  RoleBefore(listed[i].role, listed[j].role)
                  || (listed[i].role == listed[j].role
                      && (listed[i].displayOrder < listed[j].displayOrder
                          || (listed[i].displayOrder == listed[j].displayOrder && listed[i].id < listed[j].id))))
  {
    var listed := ListForFamily(rows, familyId);
    FamilyListed(rows, next, familyId);
    hide ListForFamily;
    forall i, j | 0 <= i < j < |listed|
      ensures RoleBefore(listed[i].role, listed[j].role)
              || (listed[i].role == listed[j].role
                  && (listed[i].displayOrder < listed[j].displayOrder
                      || (listed[i].displayOrder == listed[j].displayOrder && listed[i].id < listed[j].id)))
    {
      SameIdSameMember(rows, next, listed[i], listed[j]);
      assert ListingOrder()(listed[i]).AtMost(ListingOrder()(listed[j]));
    }
  }

  lemma FamilyListed(rows: seq<Membership>, next: nat, familyId: nat)
    requires ValidMembers(rows, next)
    ensures var listed := ListForFamily(rows, familyId);
            && (forall m :: m in listed <==> m in rows && m.familyId == familyId)
            && Distinct(listed) && Sorted(listed, ListingOrder())
  {
    var own, listed := Filter(rows, InFamily(familyId)), ListForFamily(rows, familyId);
    SortPermutes(own, ListingOrder());
    SortSorts(own, ListingOrder());
    FilterMembers(rows, InFamily(familyId));
    FilterKeepsDistinct(rows, InFamily(familyId));
    DistinctPermutation(own, listed);
    hide Filter, SortBy, Sorted, Distinct, ValidMembers;
    forall m ensures m in listed <==> m in own {
      assert m in multiset(listed) <==> m in multiset(own);
    }
  }

  /** All memberships of an account, and no other. */
  lemma AccountListed(rows: seq<Membership>, accountId: nat)
    ensures forall m :: m in ListForAccount(rows, accountId) <==> m in rows && m.accountId == Some(accountId)
  {
    FilterMembers(rows, HeldBy(accountId));
  }

  lemma {:induction false} NotNumberedUnchanged(rows: seq<Membership>, familyId: nat, ids: seq<nat>, n: nat, i: nat)
    requires n <= |ids| && i < |rows| && (rows[i].familyId != familyId || rows[i].id !in ids[..n])
    ensures Reordered(rows, familyId, ids, n)[i] == rows[i]
  {
    if n > 0 {
      assert ids[n - 1] in ids[..n];
      assert ids[..n] == ids[..n - 1] + [ids[n - 1]];
      NotNumberedUnchanged(rows, familyId, ids, n - 1, i);
    }
  }

  lemma {:induction false} NumberedByPosition(rows: seq<Membership>, familyId: nat, ids: seq<nat>, n: nat, i: nat,
                                              k: nat)
    requires Distinct(ids) && k < n <= |ids| && i < |rows| && rows[i].familyId == familyId && rows[i].id == ids[k]
    ensures Reordered(rows, familyId, ids, n)[i] == rows[i].(displayOrder := k)
  {
    ReorderedKeeps(rows, familyId, ids, n - 1);
    if k == n - 1 {
      assert rows[i].id !in ids[..k];
    } else {
      NumberedByPosition(rows, familyId, ids, n - 1, i, k);
    }
  }

  /** Strictly rising numbers among the first |xs| naturals are those naturals. */
  lemma {:induction false} RisingIsCounting(xs: seq<int>, k: nat)
    requires forall i :: 0 <= i < |xs| ==> 0 <= xs[i] < |xs|
    requires forall i, j :: 0 <= i < j < |xs| ==> xs[i] < xs[j]
    requires k < |xs|
    ensures xs[k] == k
  {
    RisesByOne(xs, k);
    FallsByOne(xs, k);
  }

  lemma {:induction false} RisesByOne(xs: seq<int>, k: nat)
    requires forall i :: 0 <= i < |xs| ==> 0 <= xs[i]
    requires forall i, j :: 0 <= i < j < |xs| ==> xs[i] < xs[j]
    requires k < |xs|
    ensures xs[k] >= k
  {
    if k > 0 {
      RisesByOne(xs, k - 1);
    }
  }

  lemma {:induction false} FallsByOne(xs: seq<int>, k: nat)
    requires forall i :: 0 <= i < |xs| ==> xs[i] < |xs|
    requires forall i, j :: 0 <= i < j < |xs| ==> xs[i] < xs[j]
    requires k < |xs|
    ensures xs[k] <= k
    decreases |xs| - k
  {
    if k < |xs| - 1 {
      FallsByOne(xs, k + 1);
    }
  }

  lemma ReorderedTable(rows: seq<Membership>, next: nat, familyId: nat, ids: seq<nat>)
    requires ValidMembers(rows, next)
    ensures ValidMembers(Reordered(rows, familyId, ids, |ids|), next)
  {
    ReorderedKeeps(rows, familyId, ids, |ids|);
  }

  lemma SameIdSameMember(rows: seq<Membership>, next: nat, x: Membership, y: Membership)
    requires ValidMembers(rows, next) && x in rows && y in rows
    ensures x.id == y.id ==> x == y
  {
  }

  lemma ListedIdsDistinct(rows: seq<Membership>, next: nat, familyId: nat, role: Role)
    requires ValidMembers(rows, next)
    ensures Distinct(IdsOf(ListedAs(rows, familyId, role)))
  {
    var p := BothHold(InFamily(familyId), HasRole(role));
    var listed := ListedAs(rows, familyId, role);
    ListedAsSorted(rows, next, familyId, role);
    SortPermutes(Filter(rows, p), ListingOrder());
    var at := FilterPositions(rows, p);
    DistinctPermutation(Filter(rows, p), listed);
    ListedMembers(rows, familyId, role);
    forall i, j | 0 <= i < j < |listed| ensures listed[i].id != listed[j].id {
      if listed[i].id == listed[j].id {
        SameIdSameMember(rows, next, listed[i], listed[j]);
      }
    }
  }

  lemma ChildIsNumbered(rows: seq<Membership>, next: nat, familyId: nat, ids: seq<nat>, m: Membership) returns (k: nat)
    requires ValidMembers(rows, next) && SameChildren(rows, familyId, ids) && Distinct(ids)
    requires m in ListedAs(Reordered(rows, familyId, ids, |ids|), familyId, Child)
    ensures k < |ids| && ids[k] == m.id && m.displayOrder == k
  {
    var changed := Reordered(rows, familyId, ids, |ids|);
    ListedMembers(changed, familyId, Child);
    ReorderedKeeps(rows, familyId, ids, |ids|);
    var i :| 0 <= i < |rows| && changed[i] == m;
    ListedMembers(rows, familyId, Child);
    assert rows[i] in ListedAs(rows, familyId, Child);
    var j :| 0 <= j < |ListedAs(rows, familyId, Child)| && ListedAs(rows, familyId, Child)[j] == rows[i];
    assert IdsOf(ListedAs(rows, familyId, Child))[j] == m.id;
    assert m.id in multiset(ids);
    k :| 0 <= k < |ids| && ids[k] == m.id;
    NumberedByPosition(rows, familyId, ids, |ids|, i, k);
  }

  lemma SameChildCount(rows: seq<Membership>, next: nat, familyId: nat, ids: seq<nat>)
    requires ValidMembers(rows, next) && SameChildren(rows, familyId, ids)
    ensures |ListedAs(Reordered(rows, familyId, ids, |ids|), familyId, Child)| == |ids|
  {
    var changed := Reordered(rows, familyId, ids, |ids|);
    var p := BothHold(InFamily(familyId), HasRole(Child));
    ReorderedKeeps(rows, familyId, ids, |ids|);
    ReorderedTable(rows, next, familyId, ids);
    SameFilterCount(rows, changed, p);
    ListedAsSorted(rows, next, familyId, Child);
    ListedAsSorted(changed, next, familyId, Child);
    SortPermutes(Filter(rows, p), ListingOrder());
    SortPermutes(Filter(changed, p), ListingOrder());
    SameLength(ids, IdsOf(ListedAs(rows, familyId, Child)));
  }

  lemma {:induction false} SameFilterCount(xs: seq<Membership>, ys: seq<Membership>, p: Membership -> bool)
    requires |xs| == |ys| && forall i :: 0 <= i < |xs| ==> p(xs[i]) == p(ys[i])
    ensures |Filter(xs, p)| == |Filter(ys, p)|
  {
    if xs != [] {
      SameFilterCount(xs[..|xs| - 1], ys[..|ys| - 1], p);
    }
  }

  /** Members listed in order whose display orders point at their place in `ids` are listed as `ids`. */
  lemma ListedByPlace(listed: seq<Membership>, ids: seq<nat>)
    requires |listed| == |ids| && Sorted(listed, ListingOrder()) && Distinct(IdsOf(listed))
    requires forall m :: m in listed ==> m.role == Child && 0 <= m.displayOrder < |ids| && ids[m.displayOrder] == m.id
    ensures IdsOf(listed) == ids
  {
    var orders := seq(|listed|, i requires 0 <= i < |listed| => listed[i].displayOrder);
    forall i | 0 <= i < |listed| ensures 0 <= orders[i] < |ids| && ids[orders[i]] == listed[i].id {
      assert listed[i] in listed;
    }
    forall i, j | 0 <= i < j < |listed| ensures orders[i] < orders[j] {
      assert IdsOf(listed)[i] != IdsOf(listed)[j];
      assert listed[i] in listed && listed[j] in listed;
      assert ListingOrder()(listed[i]).AtMost(ListingOrder()(listed[j]));
    }
    forall k | 0 <= k < |ids| ensures IdsOf(listed)[k] == ids[k] {
      RisingIsCounting(orders, k);
    }
  }

  /** After a reordering with the family's children, the children are listed in exactly the given
      order. */
  lemma ReorderIsWhatIsListed(rows: seq<Membership>, next: nat, familyId: nat, ids: seq<nat>)
    requires ValidMembers(rows, next) && SameChildren(rows, familyId, ids)
    ensures IdsOf(ListedAs(Reordered(rows, familyId, ids, |ids|), familyId, Child)) == ids
  {
    hide ValidMembers, ListedAs, Distinct, Filter, SortBy, Sorted, IdsOf, SameChildren;
    var changed := Reordered(rows, familyId, ids, |ids|);
    var listed := ListedAs(changed, familyId, Child);
    assert Distinct(ids) by { ReorderedIdsDistinct(rows, next, familyId, ids); }
    SameChildCount(rows, next, familyId, ids);
    ReorderedTable(rows, next, familyId, ids);
    ListedIdsDistinct(changed, next, familyId, Child);
    ListedMembers(changed, familyId, Child);
    ListedAsSorted(changed, next, familyId, Child);
    SortSorts(Filter(changed, BothHold(InFamily(familyId), HasRole(Child))), ListingOrder());
    forall m | m in listed ensures m.role == Child && 0 <= m.displayOrder < |ids| && ids[m.displayOrder] == m.id {
      var k := ChildIsNumbered(rows, next, familyId, ids, m);
    }
    ListedByPlace(listed, ids);
  }

  lemma ReorderedIdsDistinct(rows: seq<Membership>, next: nat, familyId: nat, ids: seq<nat>)
    requires ValidMembers(rows, next) && SameChildren(rows, familyId, ids)
    ensures Distinct(ids)
  {
    ListedIdsDistinct(rows, next, familyId, Child);
    DistinctPermutation(IdsOf(ListedAs(rows, familyId, Child)), ids);
  }

  /** ... and the members of every other role are listed as before. */
  lemma ReorderLeavesOtherRoles(rows: seq<Membership>, next: nat, familyId: nat, ids: seq<nat>, role: Role)
    requires ValidMembers(rows, next) && SameChildren(rows, familyId, ids) && role != Child
    ensures ListedAs(Reordered(rows, familyId, ids, |ids|), familyId, role) == ListedAs(rows, familyId, role)
  {
    var changed := Reordered(rows, familyId, ids, |ids|);
    var p := BothHold(InFamily(familyId), HasRole(role));
    ReorderedTable(rows, next, familyId, ids);
    ReorderedKeeps(rows, familyId, ids, |ids|);
    forall i | 0 <= i < |rows| && p(rows[i]) ensures changed[i] == rows[i] {
      if rows[i].id in ids {
        assert rows[i].id in multiset(IdsOf(ListedAs(rows, familyId, Child)));
        var j :| 0 <= j < |ListedAs(rows, familyId, Child)| && IdsOf(ListedAs(rows, familyId, Child))[j] == rows[i].id;
        ListedMembers(rows, familyId, Child);
        SameIdSameMember(rows, next, rows[i], ListedAs(rows, familyId, Child)[j]);
      }
      NotNumberedUnchanged(rows, familyId, ids, |ids|, i);
    }
    SameFilter(rows, changed, p);
    ListedAsSorted(rows, next, familyId, role);
    ListedAsSorted(changed, next, familyId, role);
  }

  lemma {:induction false} SameFilter(xs: seq<Membership>, ys: seq<Membership>, p: Membership -> bool)
    requires |xs| == |ys| && forall i :: 0 <= i < |xs| ==> p(xs[i]) == p(ys[i]) && (p(xs[i]) ==> xs[i] == ys[i])
    ensures Filter(xs, p) == Filter(ys, p)
  {
    if xs != [] {
      SameFilter(xs[..|xs| - 1], ys[..|ys| - 1], p);
    }
  }

  lemma NewcomerSortsLast(rows: seq<Membership>, next: nat, newcomer: Membership, listed: seq<Membership>)
    requires ValidMembers(rows, next)
    requires newcomer.id == next && newcomer.displayOrder == NextDisplayOrder(rows, newcomer.familyId)
    requires Sorted(listed, ListingOrder())
    requires forall m :: m in listed ==> m in rows && m.familyId == newcomer.familyId && m.role == newcomer.role
    ensures Sorted(listed + [newcomer], ListingOrder())
  {
  }

  lemma SnocIsPermutation<T>(xs: seq<T>, ys: seq<T>, x: T)
    requires multiset(xs) == multiset(ys)
    ensures multiset(xs + [x]) == multiset(ys + [x])
  {
  }

  lemma NewcomerOfRoleIsLast(rows: seq<Membership>, next: nat, newcomer: Membership)
    requires ValidMembers(rows, next)
    requires newcomer.id == next && newcomer.displayOrder == NextDisplayOrder(rows, newcomer.familyId)
    ensures var p := BothHold(InFamily(newcomer.familyId), HasRole(newcomer.role));
            SortBy(Filter(rows + [newcomer], p), ListingOrder()) == SortBy(Filter(rows, p), ListingOrder()) + [newcomer]
  {
    var p := BothHold(InFamily(newcomer.familyId), HasRole(newcomer.role));
    var own := Filter(rows, p);
    assert ValidMembers(rows + [newcomer], next + 1);
    hide Sorted, KeysDistinguish, Filter, SortBy, ValidMembers, NextDisplayOrder;
    FilterSnoc(rows, newcomer, p);
    SortSorts(own, ListingOrder());
    SortPermutes(own, ListingOrder());
    FilterMembers(rows, p);
    MembersDistinguish(rows + [newcomer], next + 1, p);
    forall m | m in SortBy(own, ListingOrder()) ensures m in own {
      assert m in multiset(SortBy(own, ListingOrder())) && m in multiset(own);
    }
    NewcomerSortsLast(rows, next, newcomer, SortBy(own, ListingOrder()));
    SnocIsPermutation(SortBy(own, ListingOrder()), own, newcomer);
    SortIsTheOnlyOrder(own + [newcomer], SortBy(own, ListingOrder()) + [newcomer], ListingOrder());
  }

  /** A newcomer is listed behind everyone of the same role and moves nobody else. */
  lemma NewcomerIsListedLast(rows: seq<Membership>, next: nat, newcomer: Membership, role: Role)
    requires ValidMembers(rows, next)
    requires newcomer.id == next && newcomer.displayOrder == NextDisplayOrder(rows, newcomer.familyId)
    ensures ListedAs(rows + [newcomer], newcomer.familyId, role)
            == ListedAs(rows, newcomer.familyId, role) + (if newcomer.role == role then [newcomer] else [])
  {
    ListedAsSorted(rows, next, newcomer.familyId, role);
    ListedAsSorted(rows + [newcomer], next + 1, newcomer.familyId, role);
    hide ValidMembers, ListedAs, SortBy, Highest, Filter;
    if newcomer.role == role {
      NewcomerOfRoleIsLast(rows, next, newcomer);
    } else {
      var p := BothHold(InFamily(newcomer.familyId), HasRole(role));
      FilterSnoc(rows, newcomer, p);
      assert Filter(rows + [newcomer], p) == Filter(rows, p);
      assert ListedAs(rows, newcomer.familyId, role) + [] == ListedAs(rows, newcomer.familyId, role);
    }
  }
}
