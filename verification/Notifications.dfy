/**
 * Dispatch of one notification: a claim by attempt number, the provider call outside any
 * transaction, and a result that is dropped once a later attempt was claimed
 * (nestjs-auth/src/modules/notifications/notification-dispatch.service.ts).
 */
module Notifications {
  import opened Base

  datatype Status = Pending | Sending | Accepted | Delivered | Suppressed | Failed | Unknown

  /** An encrypted payload; whether the key at hand still opens it is not known before trying. */
  datatype Payload = Payload(readable: bool, content: string)

  datatype Notification = Notification(status: Status, attempts: nat, lastAttemptAt: Option<Time>,
                                       payload: Option<Payload>, payloadExpiresAt: Option<Time>,
                                       acceptedAt: Option<Time>, messageId: Option<string>, errorCode: Option<string>)

  datatype Reply = Terminal | ConcurrentLocked | PayloadUnavailable | PayloadExpired | DecryptionFailed | Claimed(attempt: nat)

  /** What the provider, or the rendering before it, reports. */
  datatype SendResult =
    | Sent(messageId: Option<string>, acceptedAt: Option<Time>)
    | NotSent(isUnknown: bool, errorCode: Option<string>)
    | NotRendered(code: string)

  const TIMEOUT := "TIMEOUT"
  const SECRET_UNAVAILABLE := "NOTIFICATION_SECRET_UNAVAILABLE"
  const DECRYPTION_FAILED := "DECRYPTION_FAILED"
  const EMAIL_SEND_FAILED := "EMAIL_SEND_FAILED"

  function Created(payload: Payload, payloadExpiresAt: Time): Notification {
    Notification(Pending, 0, None, Some(payload), Some(payloadExpiresAt), None, None, None)
  }

  predicate IsTerminal(n: Notification) {
    n.status == Accepted || n.status == Delivered || n.status == Suppressed
  }

  predicate IsBusy(n: Notification, staleMs: int, now: Time) {
    n.status == Sending && !(now - (if n.lastAttemptAt.Some? then n.lastAttemptAt.value else 0) > staleMs)
  }

  function GiveUp(n: Notification, code: string): Notification {
    n.(status := Failed, errorCode := Some(code))
  }

  /** The claim transaction: a lost payload fails the notification without using up an attempt. */
  function Claim(n: Notification, staleMs: int, now: Time): (Notification, Reply) {
    if IsTerminal(n) then (n, Terminal)
    else if IsBusy(n, staleMs, now) then (n, ConcurrentLocked)
    else if n.payload.None? then (GiveUp(n, SECRET_UNAVAILABLE), PayloadUnavailable)
    else if n.payloadExpiresAt.Some? && now > n.payloadExpiresAt.value then (GiveUp(n, SECRET_UNAVAILABLE), PayloadExpired)
    else if !n.payload.value.readable then (GiveUp(n, DECRYPTION_FAILED), Reply.DecryptionFailed)
    else (n.(status := Sending, attempts := n.attempts + 1, lastAttemptAt := Some(now)), Claimed(n.attempts + 1))
  }

  function Finalize(n: Notification, claimedAttempt: nat, result: SendResult, now: Time): Notification {
    if n.attempts > claimedAttempt then n
    else match result
      case Sent(messageId, acceptedAt) =>
        n.(status := Accepted, acceptedAt := Some(if acceptedAt.Some? then acceptedAt.value else now),
           messageId := messageId, errorCode := None, payload := None)
      case NotSent(isUnknown, errorCode) =>
        if isUnknown || errorCode == Some(TIMEOUT) then n.(status := Unknown, errorCode := Some(TIMEOUT))
        else GiveUp(n, if errorCode.Some? then errorCode.value else EMAIL_SEND_FAILED)
      case NotRendered(code) => GiveUp(n, code)
  }

  /* ---------- a notification as a system ---------- */

  /** An attempt reports once, at any time, or never. */
  datatype Attempt = Attempt(number: nat, reported: bool)

  datatype System = System(n: Notification, attempts: seq<Attempt>)

  datatype Event = DispatchEv(now: Time) | ReportEv(attempt: nat, result: SendResult, now: Time)

  function Step(staleMs: int, s: System, e: Event): System {
    match e
    case DispatchEv(now) =>
      var (n, reply) := Claim(s.n, staleMs, now);
      System(n, if reply.Claimed? then s.attempts + [Attempt(reply.attempt, false)] else s.attempts)
    case ReportEv(k, result, now) =>
      if k < |s.attempts| && !s.attempts[k].reported
      then System(Finalize(s.n, s.attempts[k].number, result, now), s.attempts[k := s.attempts[k].(reported := true)])
      else s
  }

  function Run(staleMs: int, s: System, events: seq<Event>): System
    decreases |events|
  {
    if events == [] then s else Run(staleMs, Step(staleMs, s, events[0]), events[1..])
  }

  /** The k-th attempt has number k + 1; an accepted notification was accepted by its latest attempt. */
  ghost predicate Inv(s: System) {
    && (forall k :: 0 <= k < |s.attempts| ==> s.attempts[k].number == k + 1)
    && s.n.attempts == |s.attempts|
    && (s.n.status == Accepted <==> s.n.payload.None?)
    && (s.n.status == Accepted <==> s.n.acceptedAt.Some?)
    && (s.n.status == Accepted ==> s.attempts != [] && s.attempts[|s.attempts| - 1].reported)
    && s.n.status != Delivered && s.n.status != Suppressed
    && (s.n.status == Accepted ==> s.n.errorCode.None?)
    && (s.n.status == Failed || s.n.status == Unknown ==> s.n.errorCode.Some?)
    && (s.n.messageId.Some? ==> s.n.status == Accepted)
    && (s.n.attempts > 0 <==> s.n.lastAttemptAt.Some?)
    && (s.n.status == Sending ==> s.attempts != [] && !s.attempts[|s.attempts| - 1].reported)
  }

  lemma StepOk(staleMs: int, s: System, e: Event)
    requires Inv(s)
    ensures Inv(Step(staleMs, s, e))
  {
  }

  lemma {:induction false} RunOk(staleMs: int, s: System, events: seq<Event>)
    requires Inv(s)
    ensures Inv(Run(staleMs, s, events))
    decreases |events|
  {
    if events != [] {
      StepOk(staleMs, s, events[0]);
      RunOk(staleMs, Step(staleMs, s, events[0]), events[1..]);
    }
  }

  ghost predicate Reachable(staleMs: int, s: System) {
    exists payload: Payload, expires: Time, events: seq<Event> ::
      s == Run(staleMs, System(Created(payload, expires), []), events)
  }

  lemma ReachableInv(staleMs: int, s: System)
    requires Reachable(staleMs, s)
    ensures Inv(s)
  {
    var payload, expires, events :| s == Run(staleMs, System(Created(payload, expires), []), events);
    RunOk(staleMs, System(Created(payload, expires), []), events);
  }

  /* ---------- the main results ---------- */

  /** Over whole runs: once accepted, nothing about the notification ever changes. */
  lemma {:induction false} AcceptedIsAbsorbing(staleMs: int, s: System, events: seq<Event>)
    requires Inv(s) && s.n.status == Accepted
    ensures Run(staleMs, s, events).n == s.n
    decreases |events|
  {
    if events != [] {
      StepOk(staleMs, s, events[0]);
      AcceptedIsAbsorbing(staleMs, Step(staleMs, s, events[0]), events[1..]);
    }
  }

  /** The payload is wiped exactly when the notification is accepted, so the claim never misses it. */
  lemma PayloadKeptUntilAccepted(staleMs: int, s: System, now: Time)
    requires Reachable(staleMs, s)
    ensures s.n.payload.None? <==> s.n.status == Accepted
    ensures Claim(s.n, staleMs, now).1 != PayloadUnavailable
  {
    ReachableInv(staleMs, s);
  }

  /** What the other columns say of a notification. */
  lemma ColumnsAgree(staleMs: int, s: System)
    requires Reachable(staleMs, s)
    ensures s.n.status == Accepted <==> s.n.acceptedAt.Some?
    ensures s.n.status == Accepted ==> s.n.errorCode.None?
    ensures s.n.status == Failed || s.n.status == Unknown ==> s.n.errorCode.Some?
    ensures s.n.messageId.Some? ==> s.n.status == Accepted
    ensures s.n.attempts > 0 <==> s.n.lastAttemptAt.Some?
    ensures s.n.status != Delivered && s.n.status != Suppressed
  {
    ReachableInv(staleMs, s);
  }

  lemma AttemptsGrow(staleMs: int, s: System, e: Event)
    ensures s.n.attempts <= Step(staleMs, s, e).n.attempts
  {
  }

  lemma {:induction false} AttemptsOnlyGrow(staleMs: int, s: System, events: seq<Event>)
    ensures s.n.attempts <= Run(staleMs, s, events).n.attempts
    decreases |events|
  {
    if events != [] {
      AttemptsGrow(staleMs, s, events[0]);
      AttemptsOnlyGrow(staleMs, Step(staleMs, s, events[0]), events[1..]);
    }
  }

  /** A result for attempt k has no effect once attempt k + 1 was claimed: not then, and not ever after. */
  lemma OvertakenResultIgnored(staleMs: int, s: System, k: nat, events: seq<Event>, result: SendResult, now: Time)
    requires Reachable(staleMs, s) && k + 1 < |s.attempts|
    ensures var later := Run(staleMs, s, events);
      Step(staleMs, later, ReportEv(k, result, now)).n == later.n
  {
    ReachableInv(staleMs, s);
    RunOk(staleMs, s, events);
    AttemptsOnlyGrow(staleMs, s, events);
  }

  /** No attempt number is handed out twice. */
  lemma AttemptClaimedOnce(staleMs: int, s: System, i: nat, j: nat)
    requires Reachable(staleMs, s) && i < j < |s.attempts|
    ensures s.attempts[i].number < s.attempts[j].number <= s.n.attempts
  {
    ReachableInv(staleMs, s);
  }

  /** The step as the guard alone allows it: attempt numbers are compared, and an attempt may report again. */
  function StepAgain(staleMs: int, s: System, e: Event): System {
    if e.ReportEv? && e.attempt < |s.attempts| then
      System(Finalize(s.n, s.attempts[e.attempt].number, e.result, e.now),
             s.attempts[e.attempt := s.attempts[e.attempt].(reported := true)])
    else Step(staleMs, s, e)
  }

  predicate AcceptedThroughout(staleMs: int, s: System, events: seq<Event>)
    decreases |events|
  {
    s.n.status == Accepted && (events != [] ==> AcceptedThroughout(staleMs, StepAgain(staleMs, s, events[0]), events[1..]))
  }

  /** The latest attempt reports something other than a success. */
  predicate Retracts(s: System, e: Event) {
    e.ReportEv? && e.attempt + 1 == |s.attempts| && !e.result.Sent?
  }

  lemma AgainStep(staleMs: int, s: System, e: Event)
    requires Inv(s) && s.n.status == Accepted
    ensures StepAgain(staleMs, s, e).n.status == Accepted <==> !Retracts(s, e)
    ensures !Retracts(s, e) ==> Inv(StepAgain(staleMs, s, e)) && |StepAgain(staleMs, s, e).attempts| == |s.attempts|
  {
  }

  /**
   * Acceptance is final because an attempt reports once. Were attempts to report again, an accepted
   * notification would stay accepted through a run exactly when no report in it is a failure of its
   * latest attempt, whatever the others report and however often it is dispatched.
   */
  lemma {:induction false} AcceptanceRestsOnOneReport(staleMs: int, s: System, events: seq<Event>)
    requires Inv(s) && s.n.status == Accepted
    ensures AcceptedThroughout(staleMs, s, events) <==> forall i :: 0 <= i < |events| ==> !Retracts(s, events[i])
    decreases |events|
  {
    if events != [] {
      AgainStep(staleMs, s, events[0]);
      if !Retracts(s, events[0]) {
        var next := StepAgain(staleMs, s, events[0]);
        AcceptanceRestsOnOneReport(staleMs, next, events[1..]);
        assert forall i :: 0 < i < |events| ==> Retracts(s, events[i]) == Retracts(next, events[1..][i - 1]);
        if k :| 0 <= k < |events[1..]| && Retracts(next, events[1..][k]) {
          assert Retracts(s, events[k + 1]);
        }
      }
    }
  }

  /**
   * A notification given up while an attempt was out is still accepted when that attempt, as the
   * latest one, reports success afterwards.
   */
  lemma LatestAttemptStillCounts(staleMs: int, s: System, messageId: Option<string>, now: Time)
    requires Reachable(staleMs, s) && s.attempts != [] && !s.attempts[|s.attempts| - 1].reported
    ensures Step(staleMs, s, ReportEv(|s.attempts| - 1, Sent(messageId, None), now)).n.status == Accepted
  {
    ReachableInv(staleMs, s);
  }
}

/** The dispatch service on the row in place. */
module NotificationDispatch {
  import opened Base
  import opened Notifications

  class NotificationRow {
    var status: Status
    var attempts: nat
    var lastAttemptAt: Option<Time>
    var payload: Option<Payload>
    var payloadExpiresAt: Option<Time>
    var acceptedAt: Option<Time>
    var messageId: Option<string>
    var errorCode: Option<string>

    ghost function Row(): Notification
      reads this
    {
      Notification(status, attempts, lastAttemptAt, payload, payloadExpiresAt, acceptedAt, messageId, errorCode)
    }

    constructor (encrypted: Payload, expiresAt: Time)
      ensures Row() == Created(encrypted, expiresAt)
    {
      status, attempts, lastAttemptAt, payload, payloadExpiresAt := Pending, 0, None, Some(encrypted), Some(expiresAt);
      acceptedAt, messageId, errorCode := None, None, None;
    }

    method ClaimForDispatch(staleMs: int, now: Time) returns (reply: Reply)
      modifies this
      ensures (Row(), reply) == Claim(old(Row()), staleMs, now)
    {
      if status == Accepted || status == Delivered || status == Suppressed { return Terminal; }
      if status == Sending {
        var lastAttempt := if lastAttemptAt.Some? then lastAttemptAt.value else 0;
        var isStale := now - lastAttempt > staleMs;
        if !isStale { return ConcurrentLocked; }
      }
      if payload.None? {
        status, errorCode := Failed, Some(SECRET_UNAVAILABLE);
        return PayloadUnavailable;
      }
      if payloadExpiresAt.Some? && now > payloadExpiresAt.value {
        status, errorCode := Failed, Some(SECRET_UNAVAILABLE);
        return PayloadExpired;
      }
      if !payload.value.readable {
        status, errorCode := Failed, Some(DECRYPTION_FAILED);
        return Reply.DecryptionFailed;
      }
      status := Sending;
      attempts := attempts + 1;
      lastAttemptAt := Some(now);
      return Claimed(attempts);
    }

    method FinalizeDispatchResult(claimedAttempt: nat, result: SendResult, now: Time) returns (canRetry: bool)
      requires !result.NotRendered?
      modifies this
      ensures Row() == Finalize(old(Row()), claimedAttempt, result, now)
      ensures canRetry <==> status == Failed || status == Unknown
    {
      if attempts <= claimedAttempt {
        match result
        case Sent(id, at) =>
          status := Accepted;
          acceptedAt := Some(if at.Some? then at.value else now);
          messageId := id;
          errorCode := None;
          payload := None;
        case NotSent(isUnknown, code) =>
          if isUnknown || code == Some(TIMEOUT) {
            status := Unknown;
            errorCode := Some(TIMEOUT);
          } else {
            status := Failed;
            errorCode := Some(if code.Some? then code.value else EMAIL_SEND_FAILED);
          }
      }
      return status == Failed || status == Unknown;
    }

    /** Rendering failed, or the type is unknown. */
    method FinalizeFailed(claimedAttempt: nat, code: string, now: Time)
      modifies this
      ensures Row() == Finalize(old(Row()), claimedAttempt, NotRendered(code), now)
    {
      if attempts > claimedAttempt { return; }
      status := Failed;
      errorCode := Some(code);
    }
  }
}
