/** The record of stopped sign-ins, which sweeps its expired rows on every write. A login is refused
    when a row of its subject says that sessions started up to then are over. */
module SessionRevocation {
  import opened Basics

  datatype Session = Session(issuer: string, subject: string, sessionId: Option<string>)

  datatype Revocation = Revocation(jti: string, session: Session, revokedAt: int, expiresAt: int)

  datatype Login = Login(session: Session, startedAt: int)

  /** The row stops the login. A row without a session id stops every session of the subject; a login
      without one is stopped by such rows only. */
  predicate Stops(r: Revocation, login: Login) {
    && r.session.issuer == login.session.issuer
    && r.session.subject == login.session.subject
    && r.revokedAt >= login.startedAt
    && (r.session.sessionId.None? ||
        (login.session.sessionId.Some? && r.session.sessionId == login.session.sessionId))
  }

  predicate IsRevoked(rows: seq<Revocation>, login: Login) {
    exists i :: 0 <= i < |rows| && Stops(rows[i], login)
  }

  /** The answer in the columns of the table: a row with the login's issuer and subject that stops no
      earlier than the login began, and has no session id or exactly the login's. */
  lemma RevokedInColumns(rows: seq<Revocation>, login: Login)
    ensures IsRevoked(rows, login) <==>
              exists i :: 0 <= i < |rows|
                && rows[i].session.issuer == login.session.issuer && rows[i].session.subject == login.session.subject
                && rows[i].revokedAt >= login.startedAt
                && (rows[i].session.sessionId == None || rows[i].session.sessionId == login.session.sessionId)
  {
    if i :| 0 <= i < |rows|
            && rows[i].session.issuer == login.session.issuer && rows[i].session.subject == login.session.subject
            && rows[i].revokedAt >= login.startedAt
            && (rows[i].session.sessionId == None || rows[i].session.sessionId == login.session.sessionId) {
      assert Stops(rows[i], login);
    }
  }

  predicate HasJti(rows: seq<Revocation>, jti: string) {
    exists i :: 0 <= i < |rows| && rows[i].jti == jti
  }

  function Unexpired(now: int): Revocation -> bool { (r: Revocation) => r.expiresAt >= now }

  function Sweep(rows: seq<Revocation>, now: int): seq<Revocation> { Filter(rows, Unexpired(now)) }

  function Recorded(rows: seq<Revocation>, r: Revocation, now: int): seq<Revocation> {
    if HasJti(Sweep(rows, now), r.jti) then Sweep(rows, now) else Sweep(rows, now) + [r]
  }

  lemma JtiAmongMembers(rows: seq<Revocation>, jti: string)
    ensures HasJti(rows, jti) <==> exists r :: r in rows && r.jti == jti
  {
    if r :| r in rows && r.jti == jti {
      var i :| 0 <= i < |rows| && rows[i] == r;
    }
  }

  class SqlSessionRevocationRepository {
    var rows: seq<Revocation>

    /** The primary key: one row per jti. */
    ghost predicate Valid()
      reads this
    {
      forall i, j :: 0 <= i < j < |rows| ==> rows[i].jti != rows[j].jti
    }

    constructor ()
      ensures Valid() && rows == []
    {
      rows := [];
    }

    method Record(revocation: Revocation, now: int) returns (recorded: bool)
      requires Valid()
      modifies this
      ensures Valid()
      ensures rows == Recorded(old(rows), revocation, now)
      ensures recorded <==> !HasJti(Sweep(old(rows), now), revocation.jti)
      ensures recorded <==> forall r :: r in old(rows) && r.expiresAt >= now ==> r.jti != revocation.jti
      ensures forall r :: r in rows <==> (r in old(rows) && r.expiresAt >= now) || (recorded && r == revocation)
    {
      var at := FilterPositions(rows, Unexpired(now));
      FilterMembers(rows, Unexpired(now));
      JtiAmongMembers(Sweep(rows, now), revocation.jti);
      rows := Sweep(rows, now);
      if HasJti(rows, revocation.jti) {
        return false;
      }
      rows := rows + [revocation];
      return true;
    }

    method IsRevokedNow(login: Login) returns (found: bool)
      ensures found <==> IsRevoked(rows, login)
      ensures found <==>
                exists i :: 0 <= i < |rows|
                  && rows[i].session.issuer == login.session.issuer && rows[i].session.subject == login.session.subject
                  && rows[i].revokedAt >= login.startedAt
                  && (rows[i].session.sessionId == None || rows[i].session.sessionId == login.session.sessionId)
    {
      RevokedInColumns(rows, login);
      for i := 0 to |rows|
        invariant forall j :: 0 <= j < i ==> !Stops(rows[j], login)
      {
        if Stops(rows[i], login) {
          return true;
        }
      }
      return false;
    }
  }

  // ---------------------------------------------------------------- runs

  /** A notice written at the given time of the clock. */
  datatype Event = Event(row: Revocation, at: int)

  function TableAfter(events: seq<Event>): seq<Revocation> {
    if events == [] then []
    else Recorded(TableAfter(events[..|events| - 1]), events[|events| - 1].row, events[|events| - 1].at)
  }

  /** The last event finds no row with its jti, so it is written. */
  predicate LastIsAccepted(events: seq<Event>)
    requires events != []
  {
    var before, last := events[..|events| - 1], events[|events| - 1];
    !HasJti(Sweep(TableAfter(before), last.at), last.row.jti)
  }

  /** Everything that was ever written, without sweeping. */
  function AcceptedLog(events: seq<Event>): seq<Revocation> {
    if events == [] then []
    else AcceptedLog(events[..|events| - 1]) + (if LastIsAccepted(events) then [events[|events| - 1].row] else [])
  }

  predicate SeenBefore(events: seq<Event>, jti: string) {
    exists i :: 0 <= i < |events| && events[i].row.jti == jti
  }

  /** The first notice of every jti, without sweeping. */
  function FirstSeenLog(events: seq<Event>): seq<Revocation> {
    if events == [] then []
    else
      var before, last := events[..|events| - 1], events[|events| - 1];
      FirstSeenLog(before) + (if SeenBefore(before, last.row.jti) then [] else [last.row])
  }

  /** Up to time q, and with every row kept for at least a login's lifetime. */
  ghost predicate KeptLongEnough(events: seq<Event>, lifetime: int, q: int) {
    forall i :: 0 <= i < |events| ==>
      events[i].at <= q && events[i].row.expiresAt >= events[i].row.revokedAt + lifetime
  }

  /** A row that was written and is gone expired before q. */
  lemma {:induction false} OnlyExpiredRowsAreGone(events: seq<Event>, lifetime: int, q: int)
    requires KeptLongEnough(events, lifetime, q)
    ensures forall r :: r in TableAfter(events) ==> r in AcceptedLog(events)
    ensures forall r :: r in AcceptedLog(events) ==> r in TableAfter(events) || r.expiresAt < q
    ensures forall r :: r in AcceptedLog(events) ==> r.expiresAt >= r.revokedAt + lifetime
  {
    if events != [] {
      var before, last := events[..|events| - 1], events[|events| - 1];
      OnlyExpiredRowsAreGone(before, lifetime, q);
      FilterMembers(TableAfter(before), Unexpired(last.at));
    }
  }

  /** Sweeping refines never forgetting: for a login that has not outlived its lifetime, the swept
      table and the complete log of everything written give the same answer, in every run. */
  lemma SweepingForgetsNothingNeeded(events: seq<Event>, lifetime: int, q: int, login: Login)
    requires KeptLongEnough(events, lifetime, q) && q <= login.startedAt + lifetime
    ensures IsRevoked(TableAfter(events), login) <==> IsRevoked(AcceptedLog(events), login)
  {
    OnlyExpiredRowsAreGone(events, lifetime, q);
    var table, log := TableAfter(events), AcceptedLog(events);
    if IsRevoked(table, login) {
      var i :| 0 <= i < |table| && Stops(table[i], login);
      var j :| 0 <= j < |log| && log[j] == table[i];
    }
    if IsRevoked(log, login) {
      var j :| 0 <= j < |log| && Stops(log[j], login);
      assert log[j] in table;
    }
  }

  lemma {:induction false} WrittenJtisWereSeen(events: seq<Event>)
    ensures forall r :: r in TableAfter(events) ==> SeenBefore(events, r.jti)
  {
    if events != [] {
      var before, last := events[..|events| - 1], events[|events| - 1];
      WrittenJtisWereSeen(before);
      FilterMembers(TableAfter(before), Unexpired(last.at));
      forall r | r in TableAfter(events) ensures SeenBefore(events, r.jti) {
        if r != last.row {
          assert SeenBefore(before, r.jti);
          var i :| 0 <= i < |before| && before[i].row.jti == r.jti;
          assert events[i].row.jti == r.jti;
        } else {
          assert events[|events| - 1].row.jti == r.jti;
        }
      }
    }
  }

  lemma NewJtiIsAccepted(events: seq<Event>)
    requires events != [] && !SeenBefore(events[..|events| - 1], events[|events| - 1].row.jti)
    ensures LastIsAccepted(events)
  {
    var before, last := events[..|events| - 1], events[|events| - 1];
    WrittenJtisWereSeen(before);
    FilterMembers(TableAfter(before), Unexpired(last.at));
    var swept := Sweep(TableAfter(before), last.at);
    forall i | 0 <= i < |swept| ensures swept[i].jti != last.row.jti {
      assert swept[i] in swept;
    }
  }

  lemma {:induction false} FirstSeenWasAccepted(events: seq<Event>)
    ensures forall r :: r in FirstSeenLog(events) ==> r in AcceptedLog(events)
    ensures |FirstSeenLog(events)| <= |AcceptedLog(events)|
  {
    if events != [] {
      FirstSeenWasAccepted(events[..|events| - 1]);
      if !SeenBefore(events[..|events| - 1], events[|events| - 1].row.jti) {
        NewJtiIsAccepted(events);
      }
    }
  }

  /** No stop is ever lost: what the first notice of any jti stops is stopped. */
  lemma FirstNoticesAreEnforced(events: seq<Event>, lifetime: int, q: int, login: Login)
    requires KeptLongEnough(events, lifetime, q) && q <= login.startedAt + lifetime
    requires IsRevoked(FirstSeenLog(events), login)
    ensures IsRevoked(TableAfter(events), login)
  {
    FirstSeenWasAccepted(events);
    var log := FirstSeenLog(events);
    var i :| 0 <= i < |log| && Stops(log[i], login);
    assert log[i] in AcceptedLog(events);
    var j :| 0 <= j < |AcceptedLog(events)| && AcceptedLog(events)[j] == log[i];
    SweepingForgetsNothingNeeded(events, lifetime, q, login);
  }

  /** The notices that were written although their jti had been seen: they came after the row that
      remembered it had expired. */
  function LateLog(events: seq<Event>): seq<Revocation> {
    if events == [] then []
    else
      var before, last := events[..|events| - 1], events[|events| - 1];
      LateLog(before) + (if SeenBefore(before, last.row.jti) && LastIsAccepted(events) then [last.row] else [])
  }

  ghost predicate HasNoRow(rows: seq<Revocation>, jti: string) { forall r :: r in rows ==> r.jti != jti }

  /** Indeed a repetition is written only when every earlier row of its jti has expired. */
  lemma WrittenRepetitionIsLate(events: seq<Event>, lifetime: int, r: Revocation)
    requires events != [] && LastIsAccepted(events)
    requires KeptLongEnough(events[..|events| - 1], lifetime, events[|events| - 1].at)
    requires r in AcceptedLog(events[..|events| - 1]) && r.jti == events[|events| - 1].row.jti
    ensures r.expiresAt < events[|events| - 1].at
  {
    var before, last := events[..|events| - 1], events[|events| - 1];
    OnlyExpiredRowsAreGone(before, lifetime, last.at);
    FilterMembers(TableAfter(before), Unexpired(last.at));
    assert HasNoRow(Sweep(TableAfter(before), last.at), last.row.jti);
  }

  /** Everything written is a first notice or a late repetition, and nothing else is. */
  lemma {:induction false} WrittenIsFirstOrLate(events: seq<Event>)
    ensures forall r :: r in AcceptedLog(events) <==> r in FirstSeenLog(events) || r in LateLog(events)
  {
    if events != [] {
      hide LastIsAccepted, SeenBefore;
      WrittenIsFirstOrLate(events[..|events| - 1]);
      if !SeenBefore(events[..|events| - 1], events[|events| - 1].row.jti) {
        NewJtiIsAccepted(events);
      }
    }
  }

  /** The exact answer: a login that has not outlived its lifetime is refused if and only if a first
      notice stops it, or a notice that was repeated after its row had expired does. */
  lemma TableAnswersLikeFirstSeen(events: seq<Event>, lifetime: int, q: int, login: Login)
    requires KeptLongEnough(events, lifetime, q) && q <= login.startedAt + lifetime
    ensures IsRevoked(TableAfter(events), login) <==>
              IsRevoked(FirstSeenLog(events), login) || IsRevoked(LateLog(events), login)
  {
    var written, first, late := AcceptedLog(events), FirstSeenLog(events), LateLog(events);
    SweepingForgetsNothingNeeded(events, lifetime, q, login);
    WrittenIsFirstOrLate(events);
    hide AcceptedLog, FirstSeenLog, LateLog, TableAfter, Stops;
    StoppedByMember(written, login);
    StoppedByMember(first, login);
    StoppedByMember(late, login);
  }

  lemma StoppedByMember(rows: seq<Revocation>, login: Login)
    ensures IsRevoked(rows, login) <==> exists r :: r in rows && Stops(r, login)
  {
    if r :| r in rows && Stops(r, login) {
      var i :| 0 <= i < |rows| && rows[i] == r;
    }
  }

  lemma OneEvent(e: Event)
    ensures TableAfter([e]) == [e.row] && FirstSeenLog([e]) == [e.row] && SeenBefore([e], e.row.jti)
  {
    assert [e][..0] == [] && Sweep([], e.at) == [];
    assert [e][0].row.jti == e.row.jti;
  }

  /** A repetition behind an expired row replaces it in the table, not in the log of first notices. */
  lemma LateRepetition(first: Event, again: Event)
    requires first.row.jti == again.row.jti && first.row.expiresAt < again.at
    ensures TableAfter([first, again]) == [again.row] && FirstSeenLog([first, again]) == [first.row]
  {
    assert [first, again][..1] == [first];
    OneEvent(first);
    assert [first.row][..0] == [];
    assert Sweep([first.row], again.at) == [];
  }

  /** With a late repetition it can refuse a login that no first notice stops. */
  lemma LateReplayStopsLaterLogin(session: Session)
    ensures var events := [Event(Revocation("x", session, 0, 10), 0), Event(Revocation("x", session, 20, 30), 20)];
            var login := Login(session, 15);
            && KeptLongEnough(events, 10, 20) && 20 <= login.startedAt + 10
            && IsRevoked(TableAfter(events), login) && !IsRevoked(FirstSeenLog(events), login)
  {
    var first, again := Event(Revocation("x", session, 0, 10), 0), Event(Revocation("x", session, 20, 30), 20);
    LateRepetition(first, again);
    hide TableAfter, FirstSeenLog;
    assert Stops([again.row][0], Login(session, 15));
  }

  /** A repeated notice that arrives in time changes no answer and is reported as known. */
  lemma ReplayInTimeChangesNothing(events: seq<Event>, again: Event, lifetime: int, q: int, login: Login)
    requires KeptLongEnough(events + [again], lifetime, q) && q <= login.startedAt + lifetime
    requires HasJti(Sweep(TableAfter(events), again.at), again.row.jti)
    ensures IsRevoked(TableAfter(events + [again]), login) <==> IsRevoked(TableAfter(events), login)
  {
    var after := events + [again];
    assert after[..|after| - 1] == events;
    assert KeptLongEnough(events, lifetime, q) by {
      forall i | 0 <= i < |events| ensures after[i] == events[i] {}
    }
    SweepingForgetsNothingNeeded(after, lifetime, q, login);
    SweepingForgetsNothingNeeded(events, lifetime, q, login);
    assert AcceptedLog(events) + [] == AcceptedLog(events);
  }

  /** A notice without a session id that was written stops every session of its subject that had
      started by then, for as long as such a session can live, whatever is written later. */
  lemma SubjectWideStopHitsEverySession(events: seq<Event>, n: nat, lifetime: int, q: int, login: Login)
    requires 0 < n <= |events| && LastIsAccepted(events[..n]) && events[n - 1].row.session.sessionId.None?
    requires KeptLongEnough(events, lifetime, q) && login.startedAt <= events[n - 1].row.revokedAt && q <= login.startedAt + lifetime
    requires login.session.issuer == events[n - 1].row.session.issuer && login.session.subject == events[n - 1].row.session.subject
    ensures IsRevoked(TableAfter(events), login)
  {
    AcceptedStays(events, n);
    SweepingForgetsNothingNeeded(events, lifetime, q, login);
    var log, r := AcceptedLog(events), events[n - 1].row;
    var j :| 0 <= j < |log| && log[j] == r;
    assert Stops(log[j], login);
  }

  /** A notice with a session id that was written stops that session if it had started by then, for as
      long as it can live ... */
  lemma SessionStopHitsItsSession(events: seq<Event>, n: nat, lifetime: int, q: int, login: Login)
    requires 0 < n <= |events| && LastIsAccepted(events[..n]) && events[n - 1].row.session.sessionId.Some?
    requires KeptLongEnough(events, lifetime, q) && login.startedAt <= events[n - 1].row.revokedAt && q <= login.startedAt + lifetime
    requires login.session == events[n - 1].row.session
    ensures IsRevoked(TableAfter(events), login)
  {
    AcceptedStays(events, n);
    SweepingForgetsNothingNeeded(events, lifetime, q, login);
    var log, r := AcceptedLog(events), events[n - 1].row;
    var j :| 0 <= j < |log| && log[j] == r;
    assert Stops(log[j], login);
  }

  /** ... and nothing is ever stopped without a notice for it: one of the login's own issuer and subject,
      no older than the login, for all sessions or for exactly this one. */
  lemma OnlyOwnNoticesStop(events: seq<Event>, login: Login) returns (n: nat)
    requires IsRevoked(TableAfter(events), login)
    ensures n < |events|
    ensures events[n].row.session.issuer == login.session.issuer && events[n].row.session.subject == login.session.subject
    ensures events[n].row.revokedAt >= login.startedAt
    ensures events[n].row.session.sessionId == None || events[n].row.session.sessionId == login.session.sessionId
  {
    var table := TableAfter(events);
    var i :| 0 <= i < |table| && Stops(table[i], login);
    n := RowComesFromNotice(events, table[i]);
  }

  lemma {:induction false} RowComesFromNotice(events: seq<Event>, r: Revocation) returns (n: nat)
    requires r in TableAfter(events)
    ensures n < |events| && events[n].row == r
  {
    var before, last := events[..|events| - 1], events[|events| - 1];
    FilterMembers(TableAfter(before), Unexpired(last.at));
    if r == last.row {
      n := |events| - 1;
    } else {
      n := RowComesFromNotice(before, r);
    }
  }

  /** So notices for one session, however many, leave every other session alone, and every other subject
      and issuer. */
  lemma SessionStopsSpareTheOthers(events: seq<Event>, stopped: Session, login: Login)
    requires stopped.sessionId.Some? && (forall n :: 0 <= n < |events| ==> events[n].row.session == stopped)
    requires login.session != stopped
    ensures !IsRevoked(TableAfter(events), login)
  {
    if IsRevoked(TableAfter(events), login) {
      var n := OnlyOwnNoticesStop(events, login);
      assert false;
    }
  }

  lemma {:induction false} AcceptedStays(events: seq<Event>, n: nat)
    requires 0 < n <= |events| && LastIsAccepted(events[..n])
    ensures events[n - 1].row in AcceptedLog(events)
  {
    if n == |events| {
      assert events[..n] == events;
    } else {
      var before := events[..|events| - 1];
      assert before[..n] == events[..n];
      AcceptedStays(before, n);
    }
  }
}
