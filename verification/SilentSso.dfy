/** Signing in without a click when the identity provider already knows the browser, and why that
    cannot turn into a loop. The sign-out mark is shared by all tabs, the tried mark belongs to one. */
module SilentSso {
  import opened Basics

  const REDIRECT_TO_PARAM := "redirect_to"
  const SILENT_DECLINED_PARAM := "sso_silent"

  /** What the browser lets a page do with its storage. */
  datatype Storage = Works | ReadOnly | Blocked

  datatype Marks = Marks(signedOut: bool, tried: bool)

  predicate HarmlessParam(name: string, reloaded: bool) {
    name == REDIRECT_TO_PARAM || (reloaded && name == SILENT_DECLINED_PARAM)
  }

  predicate MaySilentSso(storage: Storage, marks: Marks, params: seq<string>, reloaded: bool) {
    && (forall i :: 0 <= i < |params| ==> HarmlessParam(params[i], reloaded))
    && !storage.Blocked? && !marks.signedOut && (reloaded || !marks.tried)
  }

  /** What the marks are once the page has tried to set or clear them. */
  function WithTried(storage: Storage, m: Marks): Marks { if storage.Works? then m.(tried := true) else m }

  function WithSignOut(storage: Storage, m: Marks): Marks { if storage.Works? then m.(signedOut := true) else m }

  function Cleared(storage: Storage, m: Marks): Marks { if storage.Works? then Marks(false, false) else m }

  /** What cannot be read counts as signed out: no renewal is asked for then. */
  predicate CountsAsSignedOut(storage: Storage, m: Marks) { storage.Blocked? || m.signedOut }

  class SilentSsoMarks {
    const storage: Storage
    var signedOut: bool
    var tried: bool

    function State(): Marks
      reads this
    {
      Marks(signedOut, tried)
    }

    constructor (storage: Storage)
      ensures this.storage == storage && State() == Marks(false, false)
    {
      this.storage, signedOut, tried := storage, false, false;
    }

    method MaySilent(params: seq<string>, reloaded: bool) returns (may: bool)
      ensures may <==> MaySilentSso(storage, State(), params, reloaded)
      ensures may <==>
                && (forall i :: 0 <= i < |params| ==> params[i] == "redirect_to" || (reloaded && params[i] == "sso_silent"))
                && storage != Blocked && !signedOut && (reloaded || !tried)
    {
      for i := 0 to |params|
        invariant forall j :: 0 <= j < i ==> HarmlessParam(params[j], reloaded)
      {
        if !HarmlessParam(params[i], reloaded) {
          return false;
        }
      }
      return !storage.Blocked? && !signedOut && (reloaded || !tried);
    }

    /** Tells whether the mark really stands; without it nothing may be tried. */
    method MarkSilentSsoTried() returns (marked: bool)
      modifies this
      ensures State() == WithTried(storage, old(State()))
      ensures marked ==> tried
      ensures signedOut == old(signedOut) && tried == (old(tried) || storage == Works)
      ensures marked <==> storage.Works?
    {
      if storage.Works? {
        tried := true;
        return true;
      }
      return false;
    }

    method SignedOutHere() returns (out: bool)
      ensures out <==> CountsAsSignedOut(storage, State())
      ensures out <==> storage == Blocked || signedOut
    {
      if storage.Blocked? {
        return true;
      }
      return signedOut;
    }

    method MarkSignedOut()
      modifies this
      ensures State() == WithSignOut(storage, old(State()))
      ensures tried == old(tried) && signedOut == (old(signedOut) || storage == Works)
    {
      if storage.Works? {
        signedOut := true;
      }
    }

    method ClearSilentSsoMarks()
      modifies this
      ensures State() == Cleared(storage, old(State()))
      ensures if storage == Works then !signedOut && !tried else signedOut == old(signedOut) && tried == old(tried)
    {
      if storage.Works? {
        signedOut, tried := false, false;
      }
    }
  }

  // ---------------------------------------------------------------- tabs and documents

  /** The document a tab shows. `allowed` says that its sign-in page was let in when it was mounted and
      is still asking whether there is a provider. */
  datatype Document = Document(reloaded: bool, allowed: bool)

  /** A tab with its history: attempts made, documents opened by reload, sign-ins and renewals that
      succeeded, renewals asked for. `renewing` while the answer to the last of these is awaited. */
  datatype Tab = Tab(tried: bool, shown: Option<Document>, attempts: nat, reloads: nat, clears: nat, renewals: nat, renewing: bool)

  datatype Browser = Browser(storage: Storage, signedOut: bool, tabs: seq<Tab>)

  datatype RenewalOutcome = Renewed | Declined | Unfinished

  datatype Action =
    | OpenTab
    | OpenDocument(t: nat, reloaded: bool)
    | MountLogin(t: nat, params: seq<string>, pendingCode: bool)
    | LeavePage(t: nat)
    | ProviderAnswers(t: nat, enabled: bool)
    | SignedIn(t: nat)
    | SignOut(t: nat)
    | AskRenewal(t: nat)
    | RenewalEnds(t: nat, outcome: RenewalOutcome)

  function Put(b: Browser, t: nat, tab: Tab): Browser
    requires t < |b.tabs|
  {
    b.(tabs := b.tabs[t := tab])
  }

  function MarksIn(b: Browser, t: nat): Marks
    requires t < |b.tabs|
  {
    Marks(b.signedOut, b.tabs[t].tried)
  }

  /** One mark is the browser's, the other the tab's. */
  function PutMarks(b: Browser, t: nat, m: Marks): Browser
    requires t < |b.tabs|
  {
    Put(b, t, b.tabs[t].(tried := m.tried)).(signedOut := m.signedOut)
  }

  predicate LetIn(tab: Tab) { tab.shown.Some? && tab.shown.value.allowed }

  /** The sign-in page, if there is one, asks no more. */
  function Settled(tab: Tab): Tab {
    if LetIn(tab) then tab.(shown := Some(tab.shown.value.(allowed := false))) else tab
  }

  function TabOf(a: Action): nat {
    match a
    case OpenTab => 0
    case OpenDocument(t, _) => t
    case MountLogin(t, _, _) => t
    case LeavePage(t) => t
    case ProviderAnswers(t, _) => t
    case SignedIn(t) => t
    case SignOut(t) => t
    case AskRenewal(t) => t
    case RenewalEnds(t, _) => t
  }

  function Do(b: Browser, a: Action): Browser {
    if a.OpenTab? then b.(tabs := b.tabs + [Tab(false, None, 0, 0, 0, 0, false)])
    else if TabOf(a) >= |b.tabs| then b
    else InTab(b, a, TabOf(a), b.tabs[TabOf(a)])
  }

  function InTab(b: Browser, a: Action, t: nat, tab: Tab): Browser
    requires t < |b.tabs| && tab == b.tabs[t] && !a.OpenTab?
  {
    match a
    case OpenDocument(_, reloaded) =>
      // whatever the old document was doing ends with it
      Put(b, t, tab.(shown := Some(Document(reloaded, false)), renewing := false, reloads := tab.reloads + if reloaded then 1 else 0))
    case MountLogin(_, params, pendingCode) =>
      if tab.shown.None? then b
      else
        var may := !pendingCode && MaySilentSso(b.storage, MarksIn(b, t), params, tab.shown.value.reloaded);
        Put(b, t, tab.(shown := Some(tab.shown.value.(allowed := may))))
    case LeavePage(_) => Put(b, t, Settled(tab))
    case ProviderAnswers(_, enabled) =>
      if !LetIn(tab) then b
      else if !enabled then Put(b, t, Settled(tab))
      else
        // the mark is set first; only when it stands the browser is sent away, leaving the document
        var marked := PutMarks(b, t, WithTried(b.storage, MarksIn(b, t)));
        if !b.storage.Works? then Put(marked, t, Settled(marked.tabs[t]))
        else Put(marked, t, marked.tabs[t].(shown := None, renewing := false, attempts := tab.attempts + 1))
    case SignedIn(_) =>
      // the page is left for the destination
      PutMarks(Put(b, t, Settled(tab).(clears := tab.clears + 1)), t, Cleared(b.storage, MarksIn(b, t)))
    case SignOut(_) =>
      // signing out is done on another page than the sign-in page
      PutMarks(Put(b, t, Settled(tab)), t, WithSignOut(b.storage, MarksIn(b, t)))
    case AskRenewal(_) =>
      if tab.renewing || CountsAsSignedOut(b.storage, MarksIn(b, t)) then b
      else Put(b, t, tab.(renewing := true, renewals := tab.renewals + 1))
    case RenewalEnds(_, outcome) =>
      if !tab.renewing then b
      else
        var ended := Put(b, t, tab.(renewing := false, clears := tab.clears + if outcome.Renewed? then 1 else 0));
        match outcome
        case Renewed => PutMarks(ended, t, Cleared(b.storage, MarksIn(b, t)))
        case Declined => PutMarks(ended, t, WithTried(b.storage, MarksIn(b, t)))
        case Unfinished => ended
  }

  function Run(b: Browser, actions: seq<Action>): Browser {
    if actions == [] then b else Do(Run(b, actions[..|actions| - 1]), actions[|actions| - 1])
  }

  function Opened(storage: Storage, signedOut: bool): Browser { Browser(storage, signedOut, []) }

  // ---------------------------------------------------------------- no loop

  /** An attempt that the tab still has in hand: an unset mark or a page that was let in by one ... */
  function OpenAttempt(tab: Tab): nat {
    if !tab.tried || (LetIn(tab) && !tab.shown.value.reloaded) then 1 else 0
  }

  /** ... and the one that a reload by hand gives. */
  function ReloadAttempt(tab: Tab): nat {
    if tab.shown.Some? && tab.shown.value.reloaded then 1 else 0
  }

  ghost predicate Bounded(tab: Tab) {
    tab.attempts + OpenAttempt(tab) + ReloadAttempt(tab) <= 1 + tab.reloads + tab.clears
  }

  lemma StepKeepsBound(b: Browser, a: Action)
    requires forall t :: 0 <= t < |b.tabs| ==> Bounded(b.tabs[t])
    ensures forall t :: 0 <= t < |Do(b, a).tabs| ==> Bounded(Do(b, a).tabs[t])
    ensures Do(b, a).storage == b.storage
  {
    var t := TabOf(a);
    if !a.OpenTab? && t < |b.tabs| {
      OwnStepKeepsBound(b, a, t);
      OtherTabsStay(b, a, t);
      hide InTab, Bounded;
    }
  }

  lemma OwnStepKeepsBound(b: Browser, a: Action, t: nat)
    requires t < |b.tabs| && !a.OpenTab? && Bounded(b.tabs[t])
    ensures t < |InTab(b, a, t, b.tabs[t]).tabs| && Bounded(InTab(b, a, t, b.tabs[t]).tabs[t])
  {
  }

  lemma OtherTabsStay(b: Browser, a: Action, t: nat)
    requires t < |b.tabs| && !a.OpenTab?
    ensures var after := InTab(b, a, t, b.tabs[t]);
            && after.storage == b.storage && |after.tabs| == |b.tabs|
            && forall k :: 0 <= k < |b.tabs| && k != t ==> after.tabs[k] == b.tabs[k]
  {
  }

  lemma {:induction false} RunKeepsBound(storage: Storage, signedOut: bool, actions: seq<Action>)
    ensures var b := Run(Opened(storage, signedOut), actions);
            b.storage == storage && forall t :: 0 <= t < |b.tabs| ==> Bounded(b.tabs[t])
  {
    if actions != [] {
      var before := actions[..|actions| - 1];
      RunKeepsBound(storage, signedOut, before);
      hide Bounded;
      StepKeepsBound(Run(Opened(storage, signedOut), before), actions[|actions| - 1]);
    }
  }

  /** Silent sign-in cannot loop: in every run the attempts of a tab are at most one, plus one for
      every document opened by reload, plus one for every sign-in or renewal that succeeded there. */
  lemma AttemptsAreBounded(storage: Storage, signedOut: bool, actions: seq<Action>, t: nat)
    requires t < |Run(Opened(storage, signedOut), actions).tabs|
    ensures var tab := Run(Opened(storage, signedOut), actions).tabs[t];
            tab.attempts <= 1 + tab.reloads + tab.clears
  {
    RunKeepsBound(storage, signedOut, actions);
  }

  lemma UnmarkedStepTriesNothing(b: Browser, a: Action)
    requires !b.storage.Works? && forall t :: 0 <= t < |b.tabs| ==> b.tabs[t].attempts == 0
    ensures !Do(b, a).storage.Works? && forall t :: 0 <= t < |Do(b, a).tabs| ==> Do(b, a).tabs[t].attempts == 0
  {
  }

  /** Without a storage that can be written nothing is ever tried. */
  lemma {:induction false} NoMarkNoAttempt(storage: Storage, signedOut: bool, actions: seq<Action>)
    requires !storage.Works?
    ensures var b := Run(Opened(storage, signedOut), actions);
            !b.storage.Works? && forall t :: 0 <= t < |b.tabs| ==> b.tabs[t].attempts == 0
  {
    if actions != [] {
      NoMarkNoAttempt(storage, signedOut, actions[..|actions| - 1]);
      UnmarkedStepTriesNothing(Run(Opened(storage, signedOut), actions[..|actions| - 1]), actions[|actions| - 1]);
    }
  }

  // ---------------------------------------------------------------- after a sign-out

  /** Somebody is in again: by signing in, or because a renewal asked for earlier succeeded. */
  predicate Succeeds(a: Action) { a.SignedIn? || (a.RenewalEnds? && a.outcome.Renewed?) }

  predicate NobodyGetsIn(actions: seq<Action>) { forall i :: 0 <= i < |actions| ==> !Succeeds(actions[i]) }

  /** What tab t can still try while nobody gets in. */
  predicate OnlyPagesLetInBefore(b: Browser, later: Browser, t: nat)
    requires t < |b.tabs|
  {
    && t < |later.tabs| && later.signedOut && later.storage == b.storage
    && later.tabs[t].attempts + (if LetIn(later.tabs[t]) then 1 else 0) <= b.tabs[t].attempts + (if LetIn(b.tabs[t]) then 1 else 0)
    && later.tabs[t].attempts >= b.tabs[t].attempts
    && later.tabs[t].renewals == b.tabs[t].renewals
  }

  lemma StepAfterSignOut(b: Browser, later: Browser, a: Action, t: nat)
    requires t < |b.tabs| && OnlyPagesLetInBefore(b, later, t) && !Succeeds(a)
    ensures OnlyPagesLetInBefore(b, Do(later, a), t)
  {
  }

  lemma {:induction false} AfterSignOut(b: Browser, actions: seq<Action>, t: nat)
    requires b.signedOut && t < |b.tabs| && NobodyGetsIn(actions)
    ensures OnlyPagesLetInBefore(b, Run(b, actions), t)
  {
    if actions != [] {
      hide Do, OnlyPagesLetInBefore, Succeeds;
      AfterSignOut(b, actions[..|actions| - 1], t);
      StepAfterSignOut(b, Run(b, actions[..|actions| - 1]), actions[|actions| - 1], t);
    } else {
      assert OnlyPagesLetInBefore(b, b, t);
    }
  }

  /** The tab makes no attempt in any continuation in which nobody gets in. */
  ghost predicate StaysQuiet(b: Browser, t: nat)
    requires t < |b.tabs|
  {
    forall actions: seq<Action> :: NobodyGetsIn(actions) ==>
      t < |Run(b, actions).tabs| && Run(b, actions).tabs[t].attempts == b.tabs[t].attempts
  }

  /** In every state that can come about: once tab `who` has signed out, tab t stays quiet until
      somebody gets in, unless t is another tab whose sign-in page was let in before and still asks
      for the provider. Such a page has made up its mind when it was opened. */
  lemma SignOutSilencesIff(signedOut: bool, before: seq<Action>, who: nat, t: nat)
    requires var b := Run(Opened(Works, signedOut), before); who < |b.tabs| && t < |b.tabs|
    ensures var b := Run(Opened(Works, signedOut), before);
            |Do(b, SignOut(who)).tabs| == |b.tabs| &&
            (StaysQuiet(Do(b, SignOut(who)), t) <==> who == t || !LetIn(b.tabs[t]))
  {
    var b := Run(Opened(Works, signedOut), before);
    RunKeepsBound(Works, signedOut, before);
    hide Run, Bounded;
    var out := Do(b, SignOut(who));
    assert out.signedOut && (LetIn(out.tabs[t]) <==> who != t && LetIn(b.tabs[t]));
    if LetIn(out.tabs[t]) {
      LetInPageAttempts(out, t);
    } else {
      forall actions: seq<Action> | NobodyGetsIn(actions)
        ensures t < |Run(out, actions).tabs| && Run(out, actions).tabs[t].attempts == out.tabs[t].attempts
      {
        AfterSignOut(out, actions, t);
      }
    }
  }

  lemma LetInPageAttempts(b: Browser, t: nat)
    requires b.storage.Works? && t < |b.tabs| && LetIn(b.tabs[t])
    ensures !StaysQuiet(b, t)
  {
    var actions := [ProviderAnswers(t, true)];
    assert actions[..0] == [] && Run(b, actions) == Do(b, actions[0]);
    assert NobodyGetsIn(actions);
    assert Run(b, actions).tabs[t].attempts == b.tabs[t].attempts + 1;
  }

  /** A state in which a sign-out does not silence: a sign-in page waits in one tab while another tab
      signs out. */
  function PageWaitingInFirstTab(): seq<Action> { [OpenTab, OpenTab, OpenDocument(0, false), MountLogin(0, [], false)] }

  lemma WaitingPageIsNotSilenced()
    ensures var b := Run(Opened(Works, false), PageWaitingInFirstTab());
            |b.tabs| == 2 && LetIn(b.tabs[0]) && |Do(b, SignOut(1)).tabs| == 2 && !StaysQuiet(Do(b, SignOut(1)), 0)
  {
    var a := PageWaitingInFirstTab();
    var b := Run(Opened(Works, false), a);
    assert a[..3][..2] == a[..2] && a[..2][..1] == a[..1] && a[..1][..0] == [];
    assert Run(Opened(Works, false), a[..1]) == Do(Opened(Works, false), OpenTab);
    assert Run(Opened(Works, false), a[..2]) == Do(Run(Opened(Works, false), a[..1]), OpenTab);
    assert Run(Opened(Works, false), a[..3]) == Do(Run(Opened(Works, false), a[..2]), OpenDocument(0, false));
    assert b == Do(Run(Opened(Works, false), a[..3]), MountLogin(0, [], false));
    SignOutSilencesIff(false, a, 1, 0);
  }

  /** After a sign-out that could be recorded no tab asks for a renewal until somebody gets in, and in
      a browser whose storage cannot be read none is ever asked for. */
  lemma NoRenewalAfterSignOut(b: Browser, who: nat, actions: seq<Action>, t: nat)
    requires who < |b.tabs| && t < |b.tabs| && (b.storage.Blocked? || (b.storage.Works? && NobodyGetsIn(actions)))
    ensures var out := Do(b, SignOut(who));
            t < |Run(out, actions).tabs| && Run(out, actions).tabs[t].renewals == b.tabs[t].renewals
  {
    var out := Do(b, SignOut(who));
    if b.storage.Works? {
      AfterSignOut(out, actions, t);
    } else {
      UnreadableNeverRenews(out, actions, t);
    }
  }

  lemma UnreadableStepRenewsNothing(b: Browser, a: Action, t: nat)
    requires b.storage.Blocked? && t < |b.tabs|
    ensures var later := Do(b, a);
            later.storage == b.storage && t < |later.tabs| && later.tabs[t].renewals == b.tabs[t].renewals
  {
  }

  lemma {:induction false} UnreadableNeverRenews(b: Browser, actions: seq<Action>, t: nat)
    requires b.storage.Blocked? && t < |b.tabs|
    ensures var later := Run(b, actions);
            later.storage == b.storage && t < |later.tabs| && later.tabs[t].renewals == b.tabs[t].renewals
  {
    if actions != [] {
      hide Do;
      UnreadableNeverRenews(b, actions[..|actions| - 1], t);
      UnreadableStepRenewsNothing(Run(b, actions[..|actions| - 1]), actions[|actions| - 1], t);
    }
  }

  // ---------------------------------------------------------------- what lets a page in

  /** A sign-in page asks for the provider exactly when no code is pending, its address carries nothing
      but where to go - or, behind a reload, that an attempt was declined -, nobody signed out, and this
      tab has not tried yet or was reloaded. */
  lemma PageIsLetInIff(b: Browser, t: nat, params: seq<string>, pendingCode: bool)
    requires t < |b.tabs| && b.tabs[t].shown.Some?
    ensures var after := Do(b, MountLogin(t, params, pendingCode));
            var reloaded := b.tabs[t].shown.value.reloaded;
            && t < |after.tabs|
            && (LetIn(after.tabs[t]) <==>
                  && !pendingCode && b.storage != Blocked && !b.signedOut && (reloaded || !b.tabs[t].tried)
                  && forall i :: 0 <= i < |params| ==> params[i] == "redirect_to" || (reloaded && params[i] == "sso_silent"))
  {
  }

  /** An attempt is made exactly when a page that was let in hears of a provider and its mark stands; the
      mark is set whenever it can be. */
  lemma AttemptIsMadeIff(b: Browser, t: nat, enabled: bool)
    requires t < |b.tabs|
    ensures var after := Do(b, ProviderAnswers(t, enabled));
            && t < |after.tabs|
            && after.tabs[t].attempts == b.tabs[t].attempts + (if LetIn(b.tabs[t]) && enabled && b.storage == Works then 1 else 0)
            && after.tabs[t].tried == (b.tabs[t].tried || (LetIn(b.tabs[t]) && enabled && b.storage == Works))
            && !LetIn(after.tabs[t])
  {
  }

  /** A renewal is asked for unless one is awaited or the browser counts as signed out. One that succeeds
      takes the marks away, one that is declined counts as a try, and any other changes no mark. */
  lemma RenewalsAndMarks(b: Browser, t: nat, outcome: RenewalOutcome)
    requires b.storage == Works && t < |b.tabs|
    ensures var asked, ended := Do(b, AskRenewal(t)), Do(b, RenewalEnds(t, outcome));
            && t < |asked.tabs| && t < |ended.tabs|
            && asked.tabs[t].renewals == b.tabs[t].renewals + (if b.tabs[t].renewing || b.signedOut then 0 else 1)
            && (b.tabs[t].renewing ==>
                  match outcome
                  case Renewed => !ended.signedOut && !ended.tabs[t].tried
                  case Declined => ended.signedOut == b.signedOut && ended.tabs[t].tried
                  case Unfinished => ended.signedOut == b.signedOut && ended.tabs[t].tried == b.tabs[t].tried)
  {
  }

  /** Signing in takes the mark of the sign-out away from all tabs, and the tried mark from its own. */
  lemma SignInTakesTheMarksAway(b: Browser, t: nat)
    requires b.storage == Works && t < |b.tabs|
    ensures var after := Do(b, SignedIn(t));
            && !after.signedOut && |after.tabs| == |b.tabs| && !after.tabs[t].tried
            && forall other :: 0 <= other < |b.tabs| && other != t ==> after.tabs[other] == b.tabs[other]
  {
  }

  /** So the next sign-in page of the tab, opened with nowhere else to go, may try again whatever was
      before; and with anything else in its address it may not. */
  lemma SignedInMayTryAgain(storage: Storage, signedOut: bool, before: seq<Action>, t: nat, params: seq<string>)
    requires storage == Works && t < |Run(Opened(storage, signedOut), before).tabs|
    ensures var b := Run(Opened(storage, signedOut), before);
            var after := Do(Do(Do(b, SignedIn(t)), OpenDocument(t, false)), MountLogin(t, params, false));
            t < |after.tabs| && (LetIn(after.tabs[t]) <==> forall i :: 0 <= i < |params| ==> params[i] == "redirect_to")
  {
    var b := Run(Opened(storage, signedOut), before);
    RunKeepsBound(storage, signedOut, before);
    SignInTakesTheMarksAway(b, t);
    var page := Do(Do(b, SignedIn(t)), OpenDocument(t, false));
    PageIsLetInIff(page, t, params, false);
    hide Run, Bounded;
  }
}
