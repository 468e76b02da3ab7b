/**
 * Invitations and credentials. An exchange and a lobby visit read, then save what they read,
 * outside any transaction; these results say what survives that race and exactly what does not.
 */
module AccessTheorems {
  import opened Base
  import opened LifecycleModel
  import S = SessionModel
  import opened LifecycleTheorems

  /** The interview was cancelled, or expired before it was started: its invitations were withdrawn. */
  predicate Ended(iv: Interview) {
    iv.status == Cancelled || (iv.status == Expired && iv.session.None?)
  }

  /** What holds of an interview's invitations whatever the race. */
  ghost predicate Numbered(iv: Interview) {
    && iv.invitations != []
    && iv.invitationVersion == |iv.invitations| + (if iv.status == Cancelled then 1 else 0)
    && (forall j :: 0 <= j < |iv.invitations| ==> iv.invitations[j].version == j + 1)
    && (forall c :: 0 <= c < |iv.credentials| ==> iv.credentials[c].invitation < |iv.invitations|)
    && (!Ended(iv) ==> iv.invitations[|iv.invitations| - 1].revokedAt.None?)
    && iv.invitations[|iv.invitations| - 1].expiresAt == iv.invitationExpiresAt
    && (iv.session.Some? && iv.session.value.db.session.status == S.InProgress ==> iv.status == InProgress)
    && (iv.status == Invited ==> iv.session.None?)
  }

  ghost predicate TicketOk(interviews: seq<Interview>, t: Ticket) {
    && t.interview < |interviews|
    && t.invitation < |interviews[t.interview].invitations|
    && (t.Lobby? ==>
          && t.credential < |interviews[t.interview].credentials|
          && interviews[t.interview].credentials[t.credential].invitation == t.invitation)
  }

  ghost predicate AccessInv(w: World) {
    && (forall i :: 0 <= i < |w.interviews| ==> Numbered(w.interviews[i]))
    && (forall t :: 0 <= t < |w.tickets| ==> TicketOk(w.interviews, w.tickets[t]))
  }

  /** Invitations and credentials are only added; what a credential hangs off never changes. */
  ghost predicate Extends(a: Interview, b: Interview) {
    && |a.invitations| <= |b.invitations|
    && |a.credentials| <= |b.credentials|
    && a.invitationVersion <= b.invitationVersion
    && forall c :: 0 <= c < |a.credentials| ==> b.credentials[c].invitation == a.credentials[c].invitation
  }

  /** Replacing one interview by an extension of it. */
  lemma ReplaceInv(w: World, i: nat, iv: Interview)
    requires AccessInv(w) && i < |w.interviews| && Numbered(iv) && Extends(w.interviews[i], iv)
    ensures AccessInv(SetInterview(w, i, iv))
  {
    forall t | 0 <= t < |w.tickets|
      ensures TicketOk(w.interviews[i := iv], w.tickets[t])
    {
      assert TicketOk(w.interviews, w.tickets[t]);
    }
  }

  lemma CancelNumbered(iv: Interview, now: Time)
    requires Numbered(iv) && IsOpen(iv)
    ensures Numbered(CancelInterview(iv, now)) && Extends(iv, CancelInterview(iv, now))
  {
  }

  lemma RoundInv(w: World, e: Event)
    requires AccessInv(w) && Attempt(w, e).Ok?
    requires e.StartEv? || e.SessionEv? || e.SweepEv? || e.FinishEv? || e.ExpireEv? || e.RevokeEv? || e.ResendEv?
    ensures AccessInv(Step(w, e)) && e.i < |w.interviews| == |Step(w, e).interviews|
    ensures Extends(w.interviews[e.i], Step(w, e).interviews[e.i])
    ensures forall k :: 0 <= k < |w.interviews| && k != e.i ==> Step(w, e).interviews[k] == w.interviews[k]
  {
    assert Numbered(w.interviews[e.i]);
    var iv := Step(w, e).interviews[e.i];
    RoundNumbered(w, e);
    ReplaceInv(w, e.i, iv);
    assert Step(w, e).interviews == w.interviews[e.i := iv];
  }

  lemma RoundNumbered(w: World, e: Event)
    requires Attempt(w, e).Ok?
    requires e.StartEv? || e.SessionEv? || e.SweepEv? || e.FinishEv? || e.ExpireEv? || e.RevokeEv? || e.ResendEv?
    requires e.i < |w.interviews| && Numbered(w.interviews[e.i])
    ensures Numbered(Step(w, e).interviews[e.i]) && Extends(w.interviews[e.i], Step(w, e).interviews[e.i])
  {
    if e.RevokeEv? {
      CancelNumbered(w.interviews[e.i], e.now);
    } else if e.ExpireEv? || e.ResendEv? {
      RenewNumbered(w, e);
    } else if e.SessionEv? {
      SessionKeepsStatus(w.interviews[e.i].setup, w.interviews[e.i].session.value, e.e);
    }
  }

  lemma RenewNumbered(w: World, e: Event)
    requires Attempt(w, e).Ok? && (e.ExpireEv? || e.ResendEv?) && e.i < |w.interviews| && Numbered(w.interviews[e.i])
    ensures Numbered(Step(w, e).interviews[e.i]) && Extends(w.interviews[e.i], Step(w, e).interviews[e.i])
  {
  }

  lemma WithdrawInv(w: World, expectedVersion: nat, now: Time)
    requires AccessInv(w)
    ensures var w' := Step(w, WithdrawEv(expectedVersion, now));
      && AccessInv(w') && |w'.interviews| == |w.interviews|
      && forall k :: 0 <= k < |w.interviews| ==> Extends(w.interviews[k], w'.interviews[k])
  {
    var w' := Step(w, WithdrawEv(expectedVersion, now));
    forall k | 0 <= k < |w.interviews|
      ensures Numbered(w'.interviews[k]) && Extends(w.interviews[k], w'.interviews[k])
    {
      assert Numbered(w.interviews[k]);
      if IsOpen(w.interviews[k]) { CancelNumbered(w.interviews[k], now); }
    }
    forall t | 0 <= t < |w.tickets|
      ensures TicketOk(w'.interviews, w'.tickets[t])
    {
      assert TicketOk(w.interviews, w.tickets[t]);
    }
  }

  lemma AddTicket(w: World, t: Ticket)
    requires AccessInv(w) && TicketOk(w.interviews, t)
    ensures AccessInv(w.(tickets := w.tickets + [t]))
  {
  }

  lemma MarkTicket(w: World, t: nat, ticket: Ticket)
    requires AccessInv(w) && t < |w.tickets| && TicketOk(w.interviews, ticket)
    ensures AccessInv(w.(tickets := w.tickets[t := ticket]))
  {
  }

  /** A request writes one interview and marks its ticket. */
  lemma RequestWriteInv(w: World, t: nat, iv: Interview, ticket: Ticket)
    requires AccessInv(w) && t < |w.tickets| && w.tickets[t].interview < |w.interviews|
    requires Numbered(iv) && Extends(w.interviews[w.tickets[t].interview], iv)
    requires TicketOk(w.interviews, w.tickets[t]) ==> TicketOk(w.interviews, ticket)
    ensures AccessInv(SetInterview(w, w.tickets[t].interview, iv).(tickets := w.tickets[t := ticket]))
  {
    MarkTicket(w, t, ticket);
    ReplaceInv(w.(tickets := w.tickets[t := ticket]), w.tickets[t].interview, iv);
  }

  lemma WriteCredentialInv(w: World, t: nat)
    requires AccessInv(w) && WriteCredential(w, t) != w
    ensures var w' := WriteCredential(w, t); var i := w.tickets[t].interview;
      && AccessInv(w') && i < |w.interviews| && w'.interviews == w.interviews[i := w'.interviews[i]]
      && Extends(w.interviews[i], w'.interviews[i])
  {
    var ticket := w.tickets[t];
    var iv := w.interviews[ticket.interview];
    assert TicketOk(w.interviews, ticket) && Numbered(iv);
    var after := iv.(credentials := iv.credentials + [Credential(ticket.invitation, ticket.cookieExpiresAt, None)]);
    RequestWriteInv(w, t, after, ticket.(stage := HasWritten));
  }

  lemma SaveReadInv(w: World, t: nat)
    requires AccessInv(w) && SaveRead(w, t) != w
    ensures var w' := SaveRead(w, t); var i := w.tickets[t].interview;
      && AccessInv(w') && i < |w.interviews| && w'.interviews == w.interviews[i := w'.interviews[i]]
      && Extends(w.interviews[i], w'.interviews[i])
  {
    var ticket := w.tickets[t];
    assert TicketOk(w.interviews, ticket) && Numbered(w.interviews[ticket.interview]);
    SavedNumbered(w.interviews[ticket.interview], ticket);
    RequestWriteInv(w, t, SavedInterview(w.interviews[ticket.interview], ticket), Finished(ticket));
  }

  lemma SavedNumbered(iv: Interview, ticket: Ticket)
    requires Numbered(iv)
    ensures Numbered(SavedInterview(iv, ticket)) && Extends(iv, SavedInterview(iv, ticket))
  {
  }

  lemma RequestInv(w: World, e: Event)
    requires AccessInv(w)
    requires e.ReadExchangeEv? || e.ReadLobbyEv? || e.WriteCredentialEv? || e.SaveReadEv?
    ensures var w' := Step(w, e);
      && AccessInv(w') && |w'.interviews| == |w.interviews|
      && forall k :: 0 <= k < |w.interviews| ==> Extends(w.interviews[k], w'.interviews[k])
  {
    var w' := Step(w, e);
    if w' != w {
      if e.WriteCredentialEv? {
        WriteCredentialInv(w, e.ticket);
      } else if e.SaveReadEv? {
        SaveReadInv(w, e.ticket);
      } else {
        AddTicket(w, w'.tickets[|w.tickets|]);
      }
    }
  }

  lemma CreateInv(w: World, input: CreateInput, now: Time)
    requires AccessInv(w) && CreateInterview(w, input, now).Ok?
    ensures AccessInv(CreateInterview(w, input, now).value)
  {
    var w' := CreateInterview(w, input, now).value;
    forall t | 0 <= t < |w.tickets|
      ensures TicketOk(w'.interviews, w'.tickets[t])
    {
      assert TicketOk(w.interviews, w.tickets[t]);
    }
  }

  lemma StepInv(w: World, e: Event)
    requires AccessInv(w)
    ensures AccessInv(Step(w, e)) && |w.interviews| <= |Step(w, e).interviews|
    ensures forall k :: 0 <= k < |w.interviews| ==> Extends(w.interviews[k], Step(w, e).interviews[k])
  {
    if Attempt(w, e).Ok? {
      match e
      case CreateEv(input, now) => CreateInv(w, input, now);
      case WithdrawEv(expectedVersion, now) => WithdrawInv(w, expectedVersion, now);
      case NotesEv(_) =>
      case DecideEv(_, _, _) =>
      case UploadCvEv(_) =>
      case RemoveCvEv(_) =>
      case ReadExchangeEv(_, _, _) => RequestInv(w, e);
      case ReadLobbyEv(_, _, _) => RequestInv(w, e);
      case WriteCredentialEv(_) => RequestInv(w, e);
      case SaveReadEv(_) => RequestInv(w, e);
      case _ => RoundInv(w, e);
    }
  }

  lemma {:induction false} RunInv(w: World, events: seq<Event>)
    requires AccessInv(w)
    ensures AccessInv(Run(w, events)) && |w.interviews| <= |Run(w, events).interviews|
    ensures forall k :: 0 <= k < |w.interviews| ==> Extends(w.interviews[k], Run(w, events).interviews[k])
    decreases |events|
  {
    if events != [] {
      var next := Step(w, events[0]);
      StepInv(w, events[0]);
      RunInv(next, events[1..]);
      forall k | 0 <= k < |w.interviews|
        ensures Extends(w.interviews[k], Run(w, events).interviews[k])
      {
        assert Extends(w.interviews[k], next.interviews[k]);
        assert Extends(next.interviews[k], Run(w, events).interviews[k]);
      }
    }
  }

  lemma ReachableInv(w: World)
    requires Reachable(w)
    ensures AccessInv(w)
  {
    var events :| w == Run(NewApplication(), events);
    RunInv(NewApplication(), events);
  }

  /* ---------- what survives every race ---------- */

  /** No two invitations of an interview share a version: the table's unique constraint is never violated. */
  lemma InvitationVersionsUnique(w: World, i: nat, j: nat, k: nat)
    requires Reachable(w) && i < |w.interviews| && j < k < |w.interviews[i].invitations|
    ensures w.interviews[i].invitations[j].version < w.interviews[i].invitations[k].version
    ensures w.interviews[i].invitations[k].version <= w.interviews[i].invitationVersion
  {
    ReachableInv(w);
    assert Numbered(w.interviews[i]);
  }

  /** The newest invitation is live unless the invitations were withdrawn, and expires with the interview's invitation. */
  lemma NewestInvitationIsTheOffer(w: World, i: nat)
    requires Reachable(w) && i < |w.interviews|
    ensures var iv := w.interviews[i]; var n := |iv.invitations|;
      && n > 0
      && iv.invitations[n - 1].expiresAt == iv.invitationExpiresAt
      && (iv.status != Cancelled ==> iv.invitations[n - 1].version == iv.invitationVersion)
      && (!Ended(iv) ==> InvitationLive(iv, n - 1))
  {
    ReachableInv(w);
    assert Numbered(w.interviews[i]);
  }

  /** Whoever is let in holds a credential of the newest invitation, of an interview not cancelled. */
  lemma AcceptedIsNewest(w: World, i: nat, c: nat, now: Time)
    requires Reachable(w) && i < |w.interviews| && Accepts(w.interviews[i], c, now)
    ensures w.interviews[i].credentials[c].invitation == |w.interviews[i].invitations| - 1
    ensures w.interviews[i].status != Cancelled
  {
    ReachableInv(w);
    assert Numbered(w.interviews[i]);
  }

  /** The step withdraws interview i's invitations and moves its invitation version on. */
  predicate Withdraws(w: World, e: Event, i: nat) {
    && i < |w.interviews| && Attempt(w, e).Ok?
    && match e
       case RevokeEv(k, _, _) => k == i
       case ResendEv(k, _, _, _, _) => k == i
       case WithdrawEv(_, _) => IsOpen(w.interviews[i]) && w.status != Withdrawn
       case _ => false
  }

  lemma WithdrawsMovesOn(w: World, e: Event, i: nat)
    requires AccessInv(w) && Withdraws(w, e, i)
    ensures Step(w, e).interviews[i].invitationVersion > |w.interviews[i].invitations|
  {
    assert Numbered(w.interviews[i]);
  }

  /**
   * After a revoke, a resend or a withdraw, no invitation from before it ever admits anybody
   * again: not through credentials already issued, not through credentials a racing exchange
   * writes afterwards, whatever is saved back over the revocation.
   */
  lemma WithdrawnAccessNeverReturns(w: World, e: Event, i: nat, events: seq<Event>, c: nat, now: Time)
    requires Reachable(w) && Withdraws(w, e, i)
    ensures i < |Run(Step(w, e), events).interviews|
    ensures var iv := Run(Step(w, e), events).interviews[i];
      && (c < |iv.credentials| && iv.credentials[c].invitation < |w.interviews[i].invitations| ==> !Accepts(iv, c, now))
      && (c < |w.interviews[i].credentials| ==> !Accepts(iv, c, now))
      && (c < |w.interviews[i].invitations| ==> ReadForExchange(Run(Step(w, e), events), i, c, now).Err?)
  {
    ReachableInv(w);
    assert Numbered(w.interviews[i]);
    WithdrawsMovesOn(w, e, i);
    StepInv(w, e);
    RunInv(Step(w, e), events);
    var mid, iv := Step(w, e).interviews[i], Run(Step(w, e), events).interviews[i];
    assert Extends(w.interviews[i], mid) && Extends(mid, iv) && Numbered(iv);
  }

  /* ---------- what holds while no stale entity is saved ---------- */

  /**
   * A live invitation is the newest one of an interview whose invitations were not withdrawn; a
   * live credential hangs off a live invitation.
   */
  ghost predicate Tidy(iv: Interview) {
    && (forall j :: 0 <= j < |iv.invitations| && iv.invitations[j].revokedAt.None? ==>
          iv.invitations[j].version == iv.invitationVersion && !Ended(iv))
    && (forall c :: 0 <= c < |iv.credentials| && iv.credentials[c].revokedAt.None? ==>
          InvitationLive(iv, iv.credentials[c].invitation))
  }

  ghost predicate AllTidy(w: World) {
    forall i :: 0 <= i < |w.interviews| ==> Tidy(w.interviews[i])
  }

  /** The entity being written was read from an invitation that has been revoked since. */
  predicate SavesStale(w: World, e: Event) {
    match e
    case WriteCredentialEv(t) => t < |w.tickets| && CanWrite(w.tickets[t]) && IsStale(w, w.tickets[t])
    case SaveReadEv(t) => t < |w.tickets| && CanSave(w.tickets[t]) && IsStale(w, w.tickets[t])
    case _ => false
  }

  predicate IsStale(w: World, t: Ticket) {
    t.interview < |w.interviews| && !InvitationLive(w.interviews[t.interview], t.invitation)
  }

  /** In a tidy interview there is at most one live invitation, and none once it is cancelled. */
  lemma TidyMeansOneLive(w: World, i: nat, j: nat, k: nat)
    requires Reachable(w) && AllTidy(w) && i < |w.interviews|
    requires InvitationLive(w.interviews[i], j)
    ensures w.interviews[i].invitations[j].version == w.interviews[i].invitationVersion
    ensures InvitationLive(w.interviews[i], k) ==> k == j
    ensures w.interviews[i].status != Cancelled
  {
    ReachableInv(w);
    assert Numbered(w.interviews[i]) && Tidy(w.interviews[i]);
  }

  lemma RoundTidy(w: World, e: Event)
    requires AccessInv(w) && AllTidy(w) && Attempt(w, e).Ok?
    requires e.StartEv? || e.SessionEv? || e.SweepEv? || e.FinishEv? || e.ExpireEv? || e.RevokeEv? || e.ResendEv?
    ensures AllTidy(Step(w, e))
  {
    RoundInv(w, e);
    assert Numbered(w.interviews[e.i]) && Tidy(w.interviews[e.i]);
    RoundTidyAt(w, e);
  }

  lemma RoundTidyAt(w: World, e: Event)
    requires Attempt(w, e).Ok?
    requires e.StartEv? || e.SessionEv? || e.SweepEv? || e.FinishEv? || e.ExpireEv? || e.RevokeEv? || e.ResendEv?
    requires e.i < |w.interviews| && Numbered(w.interviews[e.i]) && Tidy(w.interviews[e.i])
    ensures Tidy(Step(w, e).interviews[e.i])
  {
    if e.ExpireEv? || e.RevokeEv? || e.ResendEv? {
      RevokedTidy(w, e);
    }
  }

  lemma RevokedTidy(w: World, e: Event)
    requires Attempt(w, e).Ok? && (e.ExpireEv? || e.RevokeEv? || e.ResendEv?)
    requires e.i < |w.interviews| && Tidy(w.interviews[e.i])
    ensures Tidy(Step(w, e).interviews[e.i])
  {
  }

  lemma WithdrawTidy(w: World, expectedVersion: nat, now: Time)
    requires AccessInv(w) && AllTidy(w)
    ensures AllTidy(Step(w, WithdrawEv(expectedVersion, now)))
  {
    forall i | 0 <= i < |w.interviews|
      ensures Tidy(Step(w, WithdrawEv(expectedVersion, now)).interviews[i])
    {
      assert Tidy(w.interviews[i]);
    }
  }

  lemma SaveTidy(w: World, e: Event)
    requires AccessInv(w) && AllTidy(w) && (e.WriteCredentialEv? || e.SaveReadEv?)
    ensures AllTidy(Step(w, e)) <==> !SavesStale(w, e)
  {
    var w' := Step(w, e);
    if e.ticket < |w.tickets| {
      var t := w.tickets[e.ticket];
      assert TicketOk(w.interviews, t);
      var iv := w.interviews[t.interview];
      assert Numbered(iv) && Tidy(iv);
      assert w'.interviews == w.interviews[t.interview := w'.interviews[t.interview]];
      assert AllTidy(w') <==> Tidy(w'.interviews[t.interview]);
      if (if e.WriteCredentialEv? then CanWrite(t) else CanSave(t)) {
        SavedTidy(iv, t, e.WriteCredentialEv?, w'.interviews[t.interview]);
      }
    }
  }

  /** The same for the one interview the ticket names. */
  lemma SavedTidy(iv: Interview, t: Ticket, writes: bool, after: Interview)
    requires Numbered(iv) && Tidy(iv) && t.invitation < |iv.invitations|
    requires t.Lobby? ==> t.credential < |iv.credentials| && iv.credentials[t.credential].invitation == t.invitation
    requires writes ==> t.Exchange?
    requires after ==
      if writes then iv.(credentials := iv.credentials + [Credential(t.invitation, t.cookieExpiresAt, None)])
      else SavedInterview(iv, t)
    ensures Tidy(after) <==> InvitationLive(iv, t.invitation)
  {
    if !InvitationLive(iv, t.invitation) {
      if writes {
        assert after.credentials[|iv.credentials|].revokedAt.None?;
      } else if t.Exchange? {
        assert after.invitations[t.invitation].revokedAt.None?;
      } else {
        assert after.credentials[t.credential].revokedAt.None?;
      }
    } else if !writes && t.Exchange? {
      assert after.invitations == iv.invitations;
    }
  }

  /** Exactly the stale saves break it: every other step of every actor keeps it. */
  lemma TidyKeptIffNotStale(w: World, e: Event)
    requires Reachable(w) && AllTidy(w)
    ensures AllTidy(Step(w, e)) <==> !SavesStale(w, e)
  {
    ReachableInv(w);
    if e.WriteCredentialEv? || e.SaveReadEv? {
      SaveTidy(w, e);
    } else if Attempt(w, e).Ok? {
      match e
      case WithdrawEv(expectedVersion, now) => WithdrawTidy(w, expectedVersion, now);
      case CreateEv(_, _) =>
      case NotesEv(_) =>
      case DecideEv(_, _, _) =>
      case UploadCvEv(_) =>
      case RemoveCvEv(_) =>
      case ReadExchangeEv(_, _, _) =>
      case ReadLobbyEv(_, _, _) =>
      case _ => RoundTidy(w, e);
    }
  }

  /** Some entity read before a revocation is saved after it. */
  predicate StaleSaveIn(w: World, events: seq<Event>)
    decreases |events|
  {
    events != [] && (SavesStale(w, events[0]) || StaleSaveIn(Step(w, events[0]), events[1..]))
  }

  ghost predicate TidyThroughout(w: World, events: seq<Event>)
    decreases |events|
  {
    AllTidy(w) && (events != [] ==> TidyThroughout(Step(w, events[0]), events[1..]))
  }

  /** Over whole runs: every state is tidy exactly when nothing stale is saved. */
  lemma {:induction false} TidyThroughoutIffNothingStaleSaved(w: World, events: seq<Event>)
    requires Reachable(w) && AllTidy(w)
    ensures TidyThroughout(w, events) <==> !StaleSaveIn(w, events)
    ensures !StaleSaveIn(w, events) ==> AllTidy(Run(w, events))
    decreases |events|
  {
    if events != [] {
      TidyKeptIffNotStale(w, events[0]);
      if !SavesStale(w, events[0]) {
        ReachableNext(w, events[0]);
        TidyThroughoutIffNothingStaleSaved(Step(w, events[0]), events[1..]);
      }
    }
  }

  /** In particular from a new application. */
  lemma NewApplicationStaysTidy(events: seq<Event>)
    requires !StaleSaveIn(NewApplication(), events)
    ensures AllTidy(Run(NewApplication(), events))
  {
    assert NewApplication() == Run(NewApplication(), []);
    TidyThroughoutIffNothingStaleSaved(NewApplication(), events);
  }

  /* ---------- the cookie of a running session ---------- */

  predicate CookieLasts(w: World, i: nat, c: nat, bound: Time) {
    i < |w.interviews| && c < |w.interviews[i].credentials| && bound <= w.interviews[i].credentials[c].expiresAt
  }

  predicate CookieLastsAfter(w: World, events: seq<Event>, i: nat, c: nat, bound: Time) {
    CookieLasts(Run(w, events), i, c, bound)
  }

  /** A lobby visit read the cookie with an expiry before `bound` and has not saved it yet. */
  predicate ReadShort(t: Ticket, i: nat, c: nat, bound: Time) {
    t.Lobby? && !t.saved && t.interview == i && t.credential == c && t.expiresAt < bound
  }

  lemma CookieStep(w: World, e: Event, i: nat, c: nat, bound: Time)
    requires CookieLasts(w, i, c, bound)
    requires e.SaveReadEv? && e.ticket < |w.tickets| ==> !ReadShort(w.tickets[e.ticket], i, c, bound)
    ensures CookieLasts(Step(w, e), i, c, bound)
  {
  }

  lemma TicketsStep(w: World, e: Event, i: nat, c: nat, bound: Time)
    requires CookieLasts(w, i, c, bound) && forall t :: 0 <= t < |w.tickets| ==> !ReadShort(w.tickets[t], i, c, bound)
    ensures forall t :: 0 <= t < |Step(w, e).tickets| ==> !ReadShort(Step(w, e).tickets[t], i, c, bound)
  {
  }

  lemma {:induction false} CookieRun(w: World, events: seq<Event>, i: nat, c: nat, bound: Time)
    requires CookieLasts(w, i, c, bound) && forall t :: 0 <= t < |w.tickets| ==> !ReadShort(w.tickets[t], i, c, bound)
    ensures CookieLasts(Run(w, events), i, c, bound)
    decreases |events|
  {
    if events != [] {
      CookieStep(w, events[0], i, c, bound);
      TicketsStep(w, events[0], i, c, bound);
      CookieRun(Step(w, events[0]), events[1..], i, c, bound);
    }
  }

  /**
   * The cookie a session was started with outlives its deadline by half an hour through every
   * later run if and only if no lobby visit that read it before it was extended has yet to save it.
   */
  lemma CookieLastsIffNoLobbyOutstanding(w: World, i: nat, c: nat, now: Time)
    requires Reachable(w) && i < |w.interviews| && w.interviews[i].session.None? && c < |w.interviews[i].credentials|
    requires StartInterview(w, i, c, now).Ok?
    ensures var bound := now + w.interviews[i].durationMinutes * MINUTE + 30 * MINUTE;
      (forall events :: CookieLastsAfter(Step(w, StartEv(i, c, now)), events, i, c, bound))
      <==> (forall t :: 0 <= t < |w.tickets| ==> !ReadShort(w.tickets[t], i, c, bound))
  {
    var bound := now + w.interviews[i].durationMinutes * MINUTE + 30 * MINUTE;
    var started := Step(w, StartEv(i, c, now));
    assert CookieLasts(started, i, c, bound);
    if t :| 0 <= t < |w.tickets| && ReadShort(w.tickets[t], i, c, bound) {
      assert Run(started, [SaveReadEv(t)]) == Run(Step(started, SaveReadEv(t)), []);
      assert !CookieLastsAfter(started, [SaveReadEv(t)], i, c, bound);
    } else {
      forall events
        ensures CookieLastsAfter(started, events, i, c, bound)
      {
        CookieRun(started, events, i, c, bound);
      }
    }
  }

  /** The request is not a lobby visit with this cookie that has yet to save it. */
  predicate Answered(t: Ticket, i: nat, c: nat) {
    t.Lobby? && t.interview == i && t.credential == c ==> t.saved
  }

  /** In particular it lasts when every lobby visit with this cookie has been answered before the start. */
  lemma CookieLastsAfterAnsweredVisits(w: World, i: nat, c: nat, now: Time, events: seq<Event>)
    requires Reachable(w) && i < |w.interviews| && w.interviews[i].session.None? && c < |w.interviews[i].credentials|
    requires StartInterview(w, i, c, now).Ok?
    requires forall t :: 0 <= t < |w.tickets| ==> Answered(w.tickets[t], i, c)
    ensures CookieLastsAfter(Step(w, StartEv(i, c, now)), events, i, c,
                             now + w.interviews[i].durationMinutes * MINUTE + 30 * MINUTE)
  {
    CookieLastsIffNoLobbyOutstanding(w, i, c, now);
  }

  /* ---------- concrete runs ---------- */

  function OneQuestion(expiresAt: Time): CreateInput {
    CreateInput(expiresAt, 30, 2, Some(JobRow(true, 1)), true, Some(SetRow(true, true, 0, 1, 1)),
                Some(ProfileRow(true, 1)), [S.Question("Why?", false, 0)], 0, S.Config(1, 1, 1))
  }

  /** An application with one CV and one interview, whose candidate has begun an exchange. */
  function Invite(): seq<Event> {
    [UploadCvEv(false), CreateEv(OneQuestion(DAY), 0), ReadExchangeEv(0, 0, 1)]
  }

  function AfterInvite(): World {
    World(Interviewing, 3, [NewInterview(OneQuestion(DAY))], [], [Exchange(0, 0, DAY, HasRead)], [false], Some(0))
  }

  lemma InviteRuns(events: seq<Event>)
    ensures Run(NewApplication(), Invite() + events) == Run(AfterInvite(), events)
  {
    var all := Invite() + events;
    assert all[3..] == events;
    var w2 := Step(Step(NewApplication(), all[0]), all[1]);
    assert w2 == AfterInvite().(tickets := []);
    assert Step(w2, all[2]) == AfterInvite();
    RunThree(NewApplication(), all);
  }

  /** HR revokes between the two halves of the exchange. */
  function RacingExchange(): seq<Event> {
    Invite() + [RevokeEv(0, 1, 2), WriteCredentialEv(0), SaveReadEv(0)]
  }

  lemma RevokedMeanwhile(w1: World, w2: World, w3: World)
    requires w1 == Step(AfterInvite(), RevokeEv(0, 1, 2)) && w2 == Step(w1, WriteCredentialEv(0)) && w3 == Step(w2, SaveReadEv(0))
    ensures |w3.interviews| == 1 && w3.interviews[0].status == Cancelled
    ensures InvitationLive(w3.interviews[0], 0) && w3.interviews[0].credentials == [Credential(0, DAY, None)]
  {
    assert w1.interviews == [CancelInterview(NewInterview(OneQuestion(DAY)), 2)];
    assert w1.interviews[0].credentials == [];
    assert w2.interviews[0].credentials == [Credential(0, DAY, None)] && |w2.interviews[0].invitations| == 1;
    assert w2.tickets == [Exchange(0, 0, DAY, HasWritten)];
    assert w3.interviews[0].invitations[0].revokedAt == None;
  }

  /** A cancelled interview ends up with a live invitation and a live credential. */
  lemma RacingExchangeRevives()
    ensures var w := Run(NewApplication(), RacingExchange());
      && |w.interviews| == 1 && w.interviews[0].status == Cancelled
      && InvitationLive(w.interviews[0], 0)
      && w.interviews[0].credentials == [Credential(0, DAY, None)]
      && !AllTidy(w)
  {
    var events := [RevokeEv(0, 1, 2), WriteCredentialEv(0), SaveReadEv(0)];
    InviteRuns(events);
    var w1 := Step(AfterInvite(), events[0]);
    var w2 := Step(w1, events[1]);
    var w3 := Step(w2, events[2]);
    RevokedMeanwhile(w1, w2, w3);
    RunThree(AfterInvite(), events);
    assert events[3..] == [];
    assert !Tidy(w3.interviews[0]);
  }

  /** A lobby visit is answered late: it read the cookie before the start and saves it afterwards. */
  function LateLobby(): seq<Event> {
    Invite() + [WriteCredentialEv(0), ReadLobbyEv(0, 0, 2), StartEv(0, 0, DAY), SaveReadEv(1)]
  }

  /** The candidate is then shut out of a session that still has half an hour to run. */
  lemma LateLobbyShutsOut()
    ensures var w := Run(NewApplication(), LateLobby());
      && |w.interviews| == 1 && w.interviews[0].session.Some?
      && var session := w.interviews[0].session.value.db.session;
         && session.status == S.InProgress && session.deadlineAt == DAY + 30 * MINUTE
         && !Accepts(w.interviews[0], 0, DAY + 1)
         && ReadForExchange(w, 0, 0, DAY + 1).Err?
  {
    var events := [WriteCredentialEv(0), ReadLobbyEv(0, 0, 2), StartEv(0, 0, DAY), SaveReadEv(1)];
    InviteRuns(events);
    var w1 := Step(AfterInvite(), events[0]);
    var w2 := Step(w1, events[1]);
    var w3 := Step(w2, events[2]);
    var w4 := Step(w3, events[3]);
    assert w1.interviews[0].credentials == [Credential(0, DAY, None)];
    assert w2.tickets == [Exchange(0, 0, DAY, HasWritten), Lobby(0, 0, 0, DAY, false)];
    assert S.Begin(w2.interviews[0].setup, 30 * MINUTE, DAY).Some?;
    assert w4.interviews[0].credentials == [Credential(0, DAY, None)];
    RunThree(AfterInvite(), events);
    assert events[3..] == [SaveReadEv(1)];
    assert Run(w3, [SaveReadEv(1)]) == Run(w4, []);
  }

  /** The same visit answered before the start. */
  function AnsweredLobby(): seq<Event> {
    Invite() + [WriteCredentialEv(0), ReadLobbyEv(0, 0, 2), SaveReadEv(1), StartEv(0, 0, DAY)]
  }

  function BeforeStart(): seq<Event> {
    [WriteCredentialEv(0), ReadLobbyEv(0, 0, 2), SaveReadEv(1)]
  }

  lemma LobbyAnswered()
    ensures var w := Run(AfterInvite(), BeforeStart());
      && Reachable(w) && |w.interviews| == 1
      && w.tickets == [Exchange(0, 0, DAY, HasWritten), Lobby(0, 0, 0, DAY, true)]
      && w.interviews[0] == NewInterview(OneQuestion(DAY)).(credentials := [Credential(0, DAY, None)])
  {
    var events := BeforeStart();
    InviteRuns(events);
    var w1 := Step(AfterInvite(), events[0]);
    var w2 := Step(w1, events[1]);
    var w3 := Step(w2, events[2]);
    assert w1.interviews[0].credentials == [Credential(0, DAY, None)];
    assert w3.tickets == [Exchange(0, 0, DAY, HasWritten), Lobby(0, 0, 0, DAY, true)];
    assert w3.interviews[0].credentials == [Credential(0, DAY, None)];
    RunThree(AfterInvite(), events);
    assert events[3..] == [];
  }

  /** The cookie then outlives the session's deadline by half an hour, whatever happens later. */
  lemma AnsweredLobbyKeepsCookie(events: seq<Event>)
    ensures CookieLasts(Run(Run(NewApplication(), AnsweredLobby()), events), 0, 0, DAY + 60 * MINUTE)
  {
    var start := StartEv(0, 0, DAY);
    assert AnsweredLobby() == Invite() + (BeforeStart() + [start]);
    InviteRuns(BeforeStart() + [start]);
    RunAppend(AfterInvite(), BeforeStart(), start);
    LobbyAnswered();
    var w := Run(AfterInvite(), BeforeStart());
    assert S.Begin(w.interviews[0].setup, 30 * MINUTE, DAY).Some?;
    CookieLastsAfterAnsweredVisits(w, 0, 0, DAY, events);
  }
}
