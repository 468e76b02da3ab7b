/** What dispatching and reporting leave in a notification, written out, and by what report it was accepted. */
module NotificationOutcomes {
  import opened Base
  import opened Notifications

  /** The payload's expiry is fixed when the notification is created. */
  ghost predicate HasExpiry(s: System) {
    s.n.payloadExpiresAt.Some? && (s.n.status == Sending ==> s.n.lastAttemptAt.Some?)
  }

  lemma {:induction false} ExpiryStays(staleMs: int, s: System, events: seq<Event>)
    requires HasExpiry(s)
    ensures HasExpiry(Run(staleMs, s, events)) && Run(staleMs, s, events).n.payloadExpiresAt == s.n.payloadExpiresAt
    decreases |events|
  {
    if events != [] {
      ExpiryStays(staleMs, Step(staleMs, s, events[0]), events[1..]);
    }
  }

  lemma ReachableExpiry(staleMs: int, s: System)
    requires Reachable(staleMs, s)
    ensures HasExpiry(s)
  {
    var payload, expires, events :| s == Run(staleMs, System(Created(payload, expires), []), events);
    ExpiryStays(staleMs, System(Created(payload, expires), []), events);
  }

  /**
   * A claim: refused for an accepted notification and while an attempt is under way that is not
   * stale; given up when the payload has expired or cannot be read, without using up an attempt; and
   * otherwise the next attempt.
   */
  lemma ClaimOutcome(staleMs: int, s: System, now: Time)
    requires Reachable(staleMs, s)
    ensures s.n.payloadExpiresAt.Some? && (s.n.status == Sending ==> s.n.lastAttemptAt.Some?)
    ensures s.n.status != Accepted ==> s.n.payload.Some?
    ensures Claim(s.n, staleMs, now) ==
      if s.n.status == Accepted then (s.n, Terminal)
      else if s.n.status == Sending && now <= s.n.lastAttemptAt.value + staleMs then (s.n, ConcurrentLocked)
      else if s.n.payloadExpiresAt.value < now then
        (s.n.(status := Failed, errorCode := Some("NOTIFICATION_SECRET_UNAVAILABLE")), PayloadExpired)
      else if !s.n.payload.value.readable then
        (s.n.(status := Failed, errorCode := Some("DECRYPTION_FAILED")), Reply.DecryptionFailed)
      else
        (s.n.(status := Sending, attempts := s.n.attempts + 1, lastAttemptAt := Some(now)), Claimed(s.n.attempts + 1))
  {
    ReachableInv(staleMs, s);
    ReachableExpiry(staleMs, s);
  }

  /** A dispatch leaves what its claim leaves, and one attempt more exactly when it was let through. */
  lemma DispatchOutcome(staleMs: int, s: System, now: Time)
    ensures var after, claim := Step(staleMs, s, DispatchEv(now)), Claim(s.n, staleMs, now);
      && after.n == claim.0
      && after.attempts == s.attempts + if claim.1.Claimed? then [Attempt(s.n.attempts + 1, false)] else []
  {
  }

  lemma CreationOutcome(payload: Payload, expires: Time)
    ensures Created(payload, expires) == Notification(Pending, 0, None, Some(payload), Some(expires), None, None, None)
  {
  }

  /** The latest attempt reports for the first time. */
  predicate Counts(s: System, k: nat) {
    k + 1 == |s.attempts| && !s.attempts[k].reported
  }

  /** The row after the report of the latest attempt. */
  function Reported(n: Notification, result: SendResult, now: Time): Notification {
    match result
    case Sent(messageId, acceptedAt) =>
      n.(status := Accepted, messageId := messageId, errorCode := None, payload := None,
         acceptedAt := Some(match acceptedAt
                            case Some(t) => t
                            case None => now))
    case NotRendered(code) => n.(status := Failed, errorCode := Some(code))
    case NotSent(isUnknown, errorCode) =>
      if isUnknown || errorCode == Some("TIMEOUT") then n.(status := Unknown, errorCode := Some("TIMEOUT"))
      else n.(status := Failed, errorCode := Some(match errorCode
                                                  case Some(code) => code
                                                  case None => "EMAIL_SEND_FAILED"))
  }

  /** Only the latest attempt's report counts, and it counts in full: a success, a timeout, or a failure with its code. */
  lemma ReportOutcome(staleMs: int, s: System, e: Event)
    requires Reachable(staleMs, s) && e.ReportEv?
    ensures Step(staleMs, s, e).n == if Counts(s, e.attempt) then Reported(s.n, e.result, e.now) else s.n
    ensures Step(staleMs, s, e).attempts ==
      if e.attempt < |s.attempts| then s.attempts[e.attempt := Attempt(e.attempt + 1, true)] else s.attempts
  {
    ReachableInv(staleMs, s);
  }

  /** The message id and the time of acceptance the event brings, if it brings acceptance. */
  function AcceptedBy(s: System, e: Event): Option<(Option<string>, Time)> {
    match e
    case ReportEv(k, Sent(messageId, acceptedAt), now) =>
      if Counts(s, k) then Some((messageId, match acceptedAt case Some(t) => t case None => now)) else None
    case _ => None
  }

  function Acceptance(staleMs: int, s: System, events: seq<Event>): Option<(Option<string>, Time)>
    decreases |events|
  {
    if events == [] then None
    else if AcceptedBy(s, events[0]).Some? then AcceptedBy(s, events[0])
    else Acceptance(staleMs, Step(staleMs, s, events[0]), events[1..])
  }

  lemma ReachableNext(staleMs: int, s: System, e: Event)
    requires Reachable(staleMs, s)
    ensures Reachable(staleMs, Step(staleMs, s, e))
  {
    var payload, expires, events :| s == Run(staleMs, System(Created(payload, expires), []), events);
    RunAppend(staleMs, System(Created(payload, expires), []), events, e);
  }

  lemma {:induction false} RunAppend(staleMs: int, s: System, events: seq<Event>, e: Event)
    ensures Run(staleMs, s, events + [e]) == Step(staleMs, Run(staleMs, s, events), e)
    decreases |events|
  {
    if events == [] {
      assert events + [e] == [e];
      assert Run(staleMs, s, [e]) == Run(staleMs, Step(staleMs, s, e), []);
    } else {
      assert (events + [e])[1..] == events[1..] + [e];
      RunAppend(staleMs, Step(staleMs, s, events[0]), events[1..], e);
    }
  }

  lemma AcceptanceStep(staleMs: int, s: System, e: Event)
    requires Reachable(staleMs, s) && s.n.status != Accepted
    ensures var n := Step(staleMs, s, e).n;
      match AcceptedBy(s, e)
      case Some((messageId, time)) => n.status == Accepted && n.messageId == messageId && n.acceptedAt == Some(time)
      case None => n.status != Accepted
  {
    match e
    case DispatchEv(now) => ClaimOutcome(staleMs, s, now);
    case ReportEv(_, _, _) => ReportOutcome(staleMs, s, e);
  }

  /**
   * Over any run a notification is accepted exactly when its then latest attempt reported a success,
   * and it keeps the message id and the time of the first such report.
   */
  lemma {:induction false} AcceptedByLatestSuccess(staleMs: int, s: System, events: seq<Event>)
    requires Reachable(staleMs, s) && s.n.status != Accepted
    ensures var n := Run(staleMs, s, events).n;
      match Acceptance(staleMs, s, events)
      case Some((messageId, time)) => n.status == Accepted && n.messageId == messageId && n.acceptedAt == Some(time)
      case None => n.status != Accepted
    decreases |events|
  {
    if events != [] {
      var next := Step(staleMs, s, events[0]);
      AcceptanceStep(staleMs, s, events[0]);
      ReachableNext(staleMs, s, events[0]);
      if AcceptedBy(s, events[0]).Some? {
        ReachableInv(staleMs, next);
        AcceptedIsAbsorbing(staleMs, next, events[1..]);
      } else {
        AcceptedByLatestSuccess(staleMs, next, events[1..]);
      }
    }
  }
}
