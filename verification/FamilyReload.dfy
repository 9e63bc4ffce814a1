/** Reading the family again while earlier readings are still on their way. */
module FamilyReload {
  import opened Basics

  /** `family` is what the screens show (by its id), `latest` the number of the newest reading. */
  datatype Shown = Shown(family: Option<nat>, failed: bool, loading: bool, latest: nat)

  const AT_FIRST := Shown(None, false, true, 0)

  // ---------------------------------------------------------------- the provider

  /** Starting a reading; without the scope nothing is asked and nothing is shown. */
  function Begun(s: Shown, canView: bool): Shown {
    var ticketed := s.(latest := s.latest + 1);
    if canView then ticketed else ticketed.(family := None, failed := false, loading := false)
  }

  function Arrived(s: Shown, ticket: nat, family: Option<nat>): Shown {
    if ticket != s.latest then s else s.(family := family, failed := false, loading := false)
  }

  /** A failure does not take away a family that is shown. */
  function Refused(s: Shown, ticket: nat): Shown {
    if ticket != s.latest then s
    else if s.family.Some? then s.(loading := false)
    else s.(failed := true, loading := false)
  }

  class FamilyProvider {
    var family: Option<nat>
    var failed: bool
    var loading: bool
    var latest: nat

    function State(): Shown
      reads this
    {
      Shown(family, failed, loading, latest)
    }

    constructor ()
      ensures State() == AT_FIRST
    {
      family, failed, loading, latest := None, false, true, 0;
    }

    /** Up to the first request; `ticket` is the number the rest of the reading carries. */
    method BeginReload(canView: bool) returns (ticket: nat)
      modifies this
      ensures State() == Begun(old(State()), canView) && ticket == latest
      ensures latest == old(latest) + 1
      ensures if canView then family == old(family) && failed == old(failed) && loading == old(loading)
              else family == None && !failed && !loading
    {
      latest := latest + 1;
      ticket := latest;
      if !canView {
        family, failed := None, false;
        loading := false;
      }
    }

    method FinishReload(ticket: nat, answer: Result<Option<nat>, ()>)
      modifies this
      ensures State() == match answer
                         case Ok(found) => Arrived(old(State()), ticket, found)
                         case Err(_) => Refused(old(State()), ticket)
      ensures ticket != old(latest) ==> State() == old(State())
      ensures ticket == old(latest) ==>
                && latest == old(latest) && !loading
                && (answer.Ok? ==> family == answer.value && !failed)
                && (answer.Err? ==> family == old(family) && failed == (family == None || old(failed)))
    {
      if answer.Ok? {
        if ticket == latest {
          family, failed := answer.value, false;
        }
      } else if ticket == latest {
        if family.None? {
          family, failed := None, true;
        }
      }
      if ticket == latest {
        loading := false;
      }
    }
  }

  // ---------------------------------------------------------------- overlapping readings

  datatype Outcome = Found(family: Option<nat>) | Failure | ScopeLost

  /** What changed the shown state, in order, with the newest ticket at that moment. */
  datatype Applied = Applied(ticket: nat, newest: nat, outcome: Outcome)

  /** `pending` are the readings under way, any of which may end next. */
  datatype Course = Course(shown: Shown, pending: set<nat>, applied: seq<Applied>)

  datatype Action = Begin(canView: bool) | Succeed(ticket: nat, family: Option<nat>) | Fail(ticket: nat)

  function Do(c: Course, a: Action): Course {
    match a
    case Begin(canView) =>
      var s := Begun(c.shown, canView);
      if canView then c.(shown := s, pending := c.pending + {s.latest})
      else c.(shown := s, applied := c.applied + [Applied(s.latest, s.latest, ScopeLost)])
    case Succeed(ticket, family) =>
      if ticket !in c.pending then c
      else c.(shown := Arrived(c.shown, ticket, family), pending := c.pending - {ticket},
              applied := if ticket == c.shown.latest then c.applied + [Applied(ticket, c.shown.latest, Found(family))] else c.applied)
    case Fail(ticket) =>
      if ticket !in c.pending then c
      else c.(shown := Refused(c.shown, ticket), pending := c.pending - {ticket},
              applied := if ticket == c.shown.latest then c.applied + [Applied(ticket, c.shown.latest, Failure)] else c.applied)
  }

  function Run(actions: seq<Action>): Course {
    if actions == [] then Course(AT_FIRST, {}, [])
    else Do(Run(actions[..|actions| - 1]), actions[|actions| - 1])
  }

  /** What should be shown after these outcomes: the last answer that was not a failure. */
  function LastAnswer(applied: seq<Applied>): Option<nat> {
    if applied == [] then None
    else
      var last := applied[|applied| - 1];
      match last.outcome
      case Found(family) => family
      case ScopeLost => None
      case Failure => LastAnswer(applied[..|applied| - 1])
  }

  ghost predicate TicketsHold(c: Course) {
    && (forall t :: t in c.pending ==> 0 < t <= c.shown.latest)
    && (forall i :: 0 <= i < |c.applied| ==>
          c.applied[i].ticket == c.applied[i].newest && c.applied[i].ticket <= c.shown.latest && c.applied[i].ticket !in c.pending)
    && (forall i, j :: 0 <= i < j < |c.applied| ==> c.applied[i].ticket < c.applied[j].ticket)
  }

  ghost predicate ShownHolds(c: Course) {
    && c.shown.family == LastAnswer(c.applied)
    && (c.shown.failed <==> c.applied != [] && c.applied[|c.applied| - 1].outcome.Failure? && c.shown.family.None?)
    && (c.shown.loading <==> c.applied == [])
  }

  ghost predicate Invariant(c: Course) { TicketsHold(c) && ShownHolds(c) }

  /** A result that is applied comes with the newest ticket, behind all earlier ones. */
  lemma StepKeepsTickets(c: Course, a: Action)
    requires TicketsHold(c)
    ensures TicketsHold(Do(c, a))
  {
  }

  lemma StepKeepsShown(c: Course, a: Action)
    requires ShownHolds(c)
    ensures ShownHolds(Do(c, a))
  {
  }

  lemma StepKeepsInvariant(c: Course, a: Action)
    requires Invariant(c)
    ensures Invariant(Do(c, a))
  {
    StepKeepsTickets(c, a);
    StepKeepsShown(c, a);
  }

  /** No stale overwrite: whatever overlaps, only the newest reading changes what is shown, later
      changes carry later tickets, and the shown family is the last answer that was no failure.
      "Failed" is shown only while there is no family, and the first result ends the loading. */
  lemma {:induction false} OnlyNewestIsApplied(actions: seq<Action>)
    ensures var c := Run(actions);
            && (forall i :: 0 <= i < |c.applied| ==> c.applied[i].ticket == c.applied[i].newest)
            && (forall i, j :: 0 <= i < j < |c.applied| ==> c.applied[i].ticket < c.applied[j].ticket)
            && c.shown.family == LastAnswer(c.applied)
            && (c.shown.failed ==> c.shown.family.None?)
            && (c.shown.loading <==> c.applied == [])
            && Invariant(c)
  {
    if actions != [] {
      OnlyNewestIsApplied(actions[..|actions| - 1]);
      StepKeepsInvariant(Run(actions[..|actions| - 1]), actions[|actions| - 1]);
    }
  }

  /** A shown family gives way only to an answer of the newest reading or to the loss of the scope,
      and what is no longer loading never is again. */
  lemma FamilyGivesWayOnlyTo(c: Course, a: Action)
    requires c.shown.family.Some? && Do(c, a).shown.family != c.shown.family
    ensures a == Begin(false) || (a.Succeed? && a.ticket == c.shown.latest && Do(c, a).shown.family == a.family)
  {
  }

  lemma {:induction false} LoadingEndsOnce(actions: seq<Action>, n: nat)
    requires n <= |actions| && !Run(actions[..n]).shown.loading
    ensures !Run(actions).shown.loading
  {
    if n == |actions| {
      assert actions[..n] == actions;
    } else {
      var before := actions[..|actions| - 1];
      assert before[..n] == actions[..n];
      LoadingEndsOnce(before, n);
    }
  }

  /** No reading newer than the ticket ends: none of them answers, fails, or ends at once for want of
      the scope. Newer readings may start, and older ones may do what they like. */
  predicate NothingNewerEnds(actions: seq<Action>, ticket: nat) {
    forall i :: 0 <= i < |actions| ==>
      match actions[i]
      case Begin(canView) => canView
      case Succeed(t, _) => t <= ticket
      case Fail(t) => t <= ticket
  }

  function Continued(c: Course, actions: seq<Action>): Course {
    if actions == [] then c else Do(Continued(c, actions[..|actions| - 1]), actions[|actions| - 1])
  }

  ghost predicate StillShown(c: Course, ticket: nat, family: Option<nat>) {
    ticket !in c.pending && ticket <= c.shown.latest
    && c.shown.family == family && !c.shown.failed && !c.shown.loading
  }

  lemma {:induction false} AnswerStaysShown(c: Course, actions: seq<Action>, ticket: nat, family: Option<nat>)
    requires StillShown(c, ticket, family) && NothingNewerEnds(actions, ticket)
    ensures StillShown(Continued(c, actions), ticket, family)
  {
    if actions != [] {
      AnswerStaysShown(c, actions[..|actions| - 1], ticket, family);
    }
  }

  /** When the newest reading ends well its family is shown, and it stays until a newer reading ends,
      whatever else happens. */
  lemma NewestAnswerIsShown(actions: seq<Action>, family: Option<nat>, later: seq<Action>)
    requires Run(actions).shown.latest in Run(actions).pending
    requires NothingNewerEnds(later, Run(actions).shown.latest)
    ensures var shown := Continued(Do(Run(actions), Succeed(Run(actions).shown.latest, family)), later).shown;
            shown.family == family && !shown.failed && !shown.loading
  {
    var ticket := Run(actions).shown.latest;
    AnswerStaysShown(Do(Run(actions), Succeed(ticket, family)), later, ticket, family);
  }
}
