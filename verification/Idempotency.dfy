/**
 * Idempotent execution under one (scope, route, key), statement by statement
 * (nestjs-auth/src/platform/idempotency/idempotency.service.ts). Any number of requests run
 * concurrently; only the single database statements are atomic, and time passes between them.
 */
module Idempotency {
  import opened Base

  /** Digests and response bodies are compared, never inspected. */
  type Hash = nat
  type Response = nat

  datatype RowState = Processing | Completed(response: Response)
  datatype Row = Row(id: nat, hash: Hash, expiresAt: Time, state: RowState)

  datatype Outcome = Replayed(response: Response, of: nat) | Performed(response: Response) | KeyReused
                   | RequestInProgress | ActionFailed | SaveFailed

  /** Where a request stands between two statements. */
  datatype Phase =
    | Finding
    | Deleting(expired: nat)
    | Inserting
    | Acting(id: nat)
    | Acted(id: nat, response: Response)
    | CleaningUp(id: nat, outcome: Outcome)
    | Done(outcome: Outcome)

  /** `now` is read once, on arrival. */
  datatype Request = Request(hash: Hash, now: Time, ttl: nat, phase: Phase)

  /** A record ever inserted: who inserted it, under which hash, and what its action returned. */
  datatype Birth = Birth(owner: nat, hash: Hash, expiresAt: Time, returned: Option<Response>)

  /** The key's row, the clock, the requests, and the history of records; a record's id is its index there. */
  datatype World = World(clock: Time, row: Option<Row>, requests: seq<Request>, births: seq<Birth>)

  datatype Event =
    | Tick(elapsed: nat)
    | Arrive(hash: Hash, ttl: nat)
    | Find(r: nat)
    | DeleteExpired(r: nat)
    | Insert(r: nat)
    | ActionReturns(r: nat, response: Response)
    | ActionThrows(r: nat)
    | Save(r: nat)
    | SaveThrows(r: nat, stored: bool)
    | Cleanup(r: nat)
    | CleanupThrows(r: nat)

  /* ---------- the statements ---------- */

  function AfterFind(row: Option<Row>, hash: Hash, now: Time): Phase {
    if row.None? then Inserting
    else if row.value.expiresAt <= now then Deleting(row.value.id)
    else if row.value.hash != hash then Done(KeyReused)
    else match row.value.state
      case Processing => Done(RequestInProgress)
      case Completed(response) => Done(Replayed(response, row.value.id))
  }

  function DeleteById(row: Option<Row>, id: nat): Option<Row> {
    if row.Some? && row.value.id == id then None else row
  }

  /** Saving the completed record updates its row, or inserts it again when the row has gone. */
  function SaveById(row: Option<Row>, completed: Row): Option<Row> {
    if row.None? || row.value.id == completed.id then Some(completed) else row
  }

  function Move(w: World, r: nat, phase: Phase): World
    requires r < |w.requests|
  {
    w.(requests := w.requests[r := w.requests[r].(phase := phase)])
  }

  function CompletedRow(w: World, id: nat, response: Response): Row
    requires id < |w.births|
  {
    Row(id, w.births[id].hash, w.births[id].expiresAt, Completed(response))
  }

  /** A statement whose request is not at that point does nothing. */
  function Step(w: World, e: Event): World {
    match e
    case Tick(elapsed) => w.(clock := w.clock + elapsed)
    case Arrive(hash, ttl) => w.(requests := w.requests + [Request(hash, w.clock, ttl, Finding)])
    case _ =>
      if e.r >= |w.requests| then w else StatementStep(w, e, w.requests[e.r])
  }

  function StatementStep(w: World, e: Event, q: Request): World
    requires !e.Tick? && !e.Arrive? && e.r < |w.requests| && q == w.requests[e.r]
  {
    match (e, q.phase)
    case (Find(r), Finding) => Move(w, r, AfterFind(w.row, q.hash, q.now))
    case (DeleteExpired(r), Deleting(expired)) => Move(w, r, Inserting).(row := DeleteById(w.row, expired))
    case (Insert(r), Inserting) =>
      if w.row.Some? then Move(w, r, Done(RequestInProgress))
      else Move(w, r, Acting(|w.births|)).(
             row := Some(Row(|w.births|, q.hash, q.now + q.ttl, Processing)),
             births := w.births + [Birth(r, q.hash, q.now + q.ttl, None)])
    case (ActionReturns(r, response), Acting(id)) =>
      Move(w, r, Acted(id, response)).(
        births := if id < |w.births| then w.births[id := w.births[id].(returned := Some(response))] else w.births)
    case (ActionThrows(r), Acting(id)) => Move(w, r, CleaningUp(id, ActionFailed))
    case (Save(r), Acted(id, response)) =>
      if id >= |w.births| then w
      else if w.row.Some? && w.row.value.id != id then Move(w, r, CleaningUp(id, SaveFailed))
      else Move(w, r, Done(Performed(response))).(row := SaveById(w.row, CompletedRow(w, id, response)))
    case (SaveThrows(r, stored), Acted(id, response)) =>
      if id >= |w.births| then w
      else Move(w, r, CleaningUp(id, SaveFailed)).(
             row := if stored then SaveById(w.row, CompletedRow(w, id, response)) else w.row)
    case (Cleanup(r), CleaningUp(id, outcome)) => Move(w, r, Done(outcome)).(row := DeleteById(w.row, id))
    case (CleanupThrows(r), CleaningUp(id, outcome)) => Move(w, r, Done(outcome))
    case _ => w
  }

  function Run(w: World, events: seq<Event>): World
    decreases |events|
  {
    if events == [] then w else Run(Step(w, events[0]), events[1..])
  }

  function Initial(clock: Time): World {
    World(clock, None, [], [])
  }

  /* ---------- the invariant ---------- */

  predicate IsExpired(w: World, id: nat)
    requires id < |w.births|
  {
    w.births[id].expiresAt <= w.clock
  }

  /** The request is inside `action`, or its result has been stored: its record must keep others out. */
  predicate Holds(q: Request) {
    q.phase.Acting? || q.phase.Acted? || (q.phase.Done? && q.phase.outcome.Performed?)
  }

  ghost predicate RowOk(w: World) {
    w.row.Some? ==>
      && w.row.value.id < |w.births|
      && var b := w.births[w.row.value.id];
         && w.row.value.hash == b.hash && w.row.value.expiresAt == b.expiresAt
         && (w.row.value.state.Completed? ==> b.returned == Some(w.row.value.state.response))
  }

  /** What a request's phase says about the records. */
  ghost predicate RequestOk(w: World, r: nat)
    requires r < |w.requests|
  {
    var q := w.requests[r];
    && q.now <= w.clock
    && match q.phase
       case Deleting(id) => id < |w.births| && w.births[id].expiresAt <= q.now
       case Acting(id) => id < |w.births| && w.births[id].owner == r
       case Acted(id, response) => id < |w.births| && w.births[id].owner == r && w.births[id].returned == Some(response)
       case CleaningUp(id, outcome) =>
         id < |w.births| && w.births[id].owner == r && (outcome == ActionFailed || outcome == SaveFailed)
       case Done(Replayed(response, of)) =>
         && of < |w.births| && w.births[of].returned == Some(response) && w.births[of].hash == q.hash
         && q.now < w.births[of].expiresAt
       case _ => true
  }

  /** While a record is held and has not expired, it is the key's row. */
  ghost predicate BirthOk(w: World, id: nat)
    requires id < |w.births|
  {
    var b := w.births[id];
    && b.owner < |w.requests|
    && w.requests[b.owner].hash == b.hash
    && b.expiresAt == w.requests[b.owner].now + w.requests[b.owner].ttl
    && match w.requests[b.owner].phase
       case Acting(k) => k == id && b.returned.None? && (IsExpired(w, id) || w.row == Some(Row(id, b.hash, b.expiresAt, Processing)))
       case Acted(k, _) => k == id && (IsExpired(w, id) || w.row == Some(Row(id, b.hash, b.expiresAt, Processing)))
       case CleaningUp(k, _) => k == id
       case Done(Performed(response)) =>
         && b.returned == Some(response)
         && (IsExpired(w, id) || w.row == Some(Row(id, b.hash, b.expiresAt, Completed(response))))
       case Done(outcome) => outcome == ActionFailed || outcome == SaveFailed
       case _ => false
  }

  ghost predicate Inv(w: World) {
    && RowOk(w)
    && (forall r :: 0 <= r < |w.requests| ==> RequestOk(w, r))
    && (forall id :: 0 <= id < |w.births| ==> BirthOk(w, id))
  }

  /* ---------- every statement keeps it ---------- */

  /** What the table says about record `id`. */
  function RowFor(row: Option<Row>, id: nat): Option<Row> {
    if row.Some? && row.value.id == id then row else None
  }

  /** Statements that leave the record history alone: what matters is each record's view of the row. */
  lemma StatementOk(w: World, r: nat, phase: Phase, row: Option<Row>)
    requires Inv(w) && r < |w.requests|
    requires RowOk(w.(row := row)) && RequestOk(Move(w, r, phase), r)
    requires forall id :: 0 <= id < |w.births| ==>
      if w.births[id].owner == r then BirthOk(Move(w, r, phase).(row := row), id)
      else RowFor(row, id) == RowFor(w.row, id) || IsExpired(w, id)
    ensures Inv(Move(w, r, phase).(row := row))
  {
    var w' := Move(w, r, phase).(row := row);
    forall k | 0 <= k < |w'.requests|
      ensures RequestOk(w', k)
    {
      assert k != r ==> RequestOk(w, k);
    }
    forall id | 0 <= id < |w'.births|
      ensures BirthOk(w', id)
    {
      assert BirthOk(w, id);
    }
  }

  lemma FindOk(w: World, r: nat)
    requires Inv(w) && r < |w.requests|
    ensures Inv(Step(w, Find(r)))
  {
    if w.requests[r].phase.Finding? {
      NoRecordYet(w, r);
      assert RequestOk(w, r);
      StatementOk(w, r, AfterFind(w.row, w.requests[r].hash, w.requests[r].now), w.row);
    }
  }

  lemma NoRecordYet(w: World, r: nat)
    requires Inv(w) && r < |w.requests|
    requires var p := w.requests[r].phase; p.Finding? || p.Deleting? || p.Inserting?
    ensures forall id :: 0 <= id < |w.births| ==> w.births[id].owner != r
  {
    forall id | 0 <= id < |w.births|
      ensures w.births[id].owner != r
    {
      assert BirthOk(w, id);
    }
  }

  lemma DeleteExpiredOk(w: World, r: nat)
    requires Inv(w) && r < |w.requests|
    ensures Inv(Step(w, DeleteExpired(r)))
  {
    if w.requests[r].phase.Deleting? {
      NoRecordYet(w, r);
      assert RequestOk(w, r);
      StatementOk(w, r, Inserting, DeleteById(w.row, w.requests[r].phase.expired));
    }
  }

  lemma InsertOk(w: World, r: nat)
    requires Inv(w) && r < |w.requests|
    ensures Inv(Step(w, Insert(r)))
  {
    if w.requests[r].phase.Inserting? {
      NoRecordYet(w, r);
      assert RequestOk(w, r);
      if w.row.Some? {
        StatementOk(w, r, Done(RequestInProgress), w.row);
      } else {
        var w' := Step(w, Insert(r));
        forall k | 0 <= k < |w'.requests|
          ensures RequestOk(w', k)
        {
          assert RequestOk(w, k);
        }
        forall id | 0 <= id < |w'.births|
          ensures BirthOk(w', id)
        {
          if id < |w.births| { assert BirthOk(w, id) && w.births[id].owner != r; }
        }
      }
    }
  }

  lemma ActionReturnsOk(w: World, r: nat, response: Response)
    requires Inv(w) && r < |w.requests|
    ensures Inv(Step(w, ActionReturns(r, response)))
  {
    if w.requests[r].phase.Acting? {
      var own := w.requests[r].phase.id;
      assert RequestOk(w, r) && BirthOk(w, own);
      var w' := Step(w, ActionReturns(r, response));
      forall k | 0 <= k < |w'.requests|
        ensures RequestOk(w', k)
      {
        assert RequestOk(w, k);
      }
      forall id | 0 <= id < |w'.births|
        ensures BirthOk(w', id)
      {
        assert BirthOk(w, id);
      }
    }
  }

  lemma ActionThrowsOk(w: World, r: nat)
    requires Inv(w) && r < |w.requests|
    ensures Inv(Step(w, ActionThrows(r)))
  {
    if w.requests[r].phase.Acting? {
      assert RequestOk(w, r);
      OwnRecord(w, r, w.requests[r].phase.id);
      StatementOk(w, r, CleaningUp(w.requests[r].phase.id, ActionFailed), w.row);
    }
  }

  /** A request inserts once, so the record it works on is its only one. */
  lemma OwnRecord(w: World, r: nat, own: nat)
    requires Inv(w) && r < |w.requests|
    requires var p := w.requests[r].phase;
      p == Acting(own) || (p.Acted? && p.id == own) || (p.CleaningUp? && p.id == own)
    ensures own < |w.births| && BirthOk(w, own) && w.births[own].owner == r
    ensures forall id :: 0 <= id < |w.births| && w.births[id].owner == r ==> id == own
  {
    assert RequestOk(w, r);
    forall id | 0 <= id < |w.births| && w.births[id].owner == r
      ensures id == own
    {
      assert BirthOk(w, id);
    }
  }

  lemma SaveOk(w: World, r: nat)
    requires Inv(w) && r < |w.requests|
    ensures Inv(Step(w, Save(r)))
  {
    if w.requests[r].phase.Acted? {
      var own, response := w.requests[r].phase.id, w.requests[r].phase.response;
      assert RequestOk(w, r);
      OwnRecord(w, r, own);
      if w.row.Some? && w.row.value.id != own {
        StatementOk(w, r, CleaningUp(own, SaveFailed), w.row);
      } else {
        StatementOk(w, r, Done(Performed(response)), SaveById(w.row, CompletedRow(w, own, response)));
      }
    }
  }

  lemma SaveThrowsOk(w: World, r: nat, stored: bool)
    requires Inv(w) && r < |w.requests|
    ensures Inv(Step(w, SaveThrows(r, stored)))
  {
    if w.requests[r].phase.Acted? {
      var own, response := w.requests[r].phase.id, w.requests[r].phase.response;
      assert RequestOk(w, r);
      OwnRecord(w, r, own);
      StatementOk(w, r, CleaningUp(own, SaveFailed),
                  if stored then SaveById(w.row, CompletedRow(w, own, response)) else w.row);
    }
  }

  lemma CleanupOk(w: World, r: nat, deleted: bool)
    requires Inv(w) && r < |w.requests|
    ensures Inv(Step(w, if deleted then Cleanup(r) else CleanupThrows(r)))
  {
    if w.requests[r].phase.CleaningUp? {
      assert RequestOk(w, r);
      var own := w.requests[r].phase.id;
      OwnRecord(w, r, own);
      StatementOk(w, r, Done(w.requests[r].phase.outcome), if deleted then DeleteById(w.row, own) else w.row);
    }
  }

  lemma ArrivalOk(w: World, e: Event)
    requires Inv(w) && (e.Tick? || e.Arrive?)
    ensures Inv(Step(w, e))
  {
    var w' := Step(w, e);
    forall k | 0 <= k < |w'.requests|
      ensures RequestOk(w', k)
    {
      assert k < |w.requests| ==> RequestOk(w, k);
    }
    forall id | 0 <= id < |w'.births|
      ensures BirthOk(w', id)
    {
      assert BirthOk(w, id);
    }
  }

  lemma StepOk(w: World, e: Event)
    requires Inv(w)
    ensures Inv(Step(w, e))
  {
    if e.Tick? || e.Arrive? {
      ArrivalOk(w, e);
    } else if e.r < |w.requests| {
      match e
      case Find(r) => FindOk(w, r);
      case DeleteExpired(r) => DeleteExpiredOk(w, r);
      case Insert(r) => InsertOk(w, r);
      case ActionReturns(r, response) => ActionReturnsOk(w, r, response);
      case ActionThrows(r) => ActionThrowsOk(w, r);
      case Save(r) => SaveOk(w, r);
      case SaveThrows(r, stored) => SaveThrowsOk(w, r, stored);
      case Cleanup(r) => CleanupOk(w, r, true);
      case CleanupThrows(r) => CleanupOk(w, r, false);
    }
  }

  lemma {:induction false} RunOk(w: World, events: seq<Event>)
    requires Inv(w)
    ensures Inv(Run(w, events))
    decreases |events|
  {
    if events != [] {
      StepOk(w, events[0]);
      RunOk(Step(w, events[0]), events[1..]);
    }
  }

  ghost predicate Reachable(w: World) {
    exists clock: Time, events: seq<Event> :: w == Run(Initial(clock), events)
  }

  lemma ReachableInv(w: World)
    requires Reachable(w)
    ensures Inv(w)
  {
    var clock, events :| w == Run(Initial(clock), events);
    RunOk(Initial(clock), events);
  }

  /* ---------- the main results ---------- */

  /** Record `id` still keeps others out: its action runs, or has run and been stored, and it has not expired. */
  predicate KeepsOut(w: World, id: nat) {
    && id < |w.births| && w.births[id].owner < |w.requests|
    && Holds(w.requests[w.births[id].owner])
    && !IsExpired(w, id)
  }

  /**
   * Two requests are never inside `action` together, nor is one inside after another's success,
   * unless the record of one of them has expired.
   */
  lemma AtMostOneKeepsOut(w: World, i: nat, j: nat)
    requires Reachable(w) && KeepsOut(w, i) && KeepsOut(w, j)
    ensures i == j
  {
    ReachableInv(w);
    assert BirthOk(w, i) && BirthOk(w, j);
  }

  /** While a record keeps others out no request enters `action`, whatever it has read before. */
  lemma NoEntryWhileKeptOut(w: World, id: nat, e: Event, r: nat)
    requires Reachable(w) && KeepsOut(w, id) && r < |w.requests| && !w.requests[r].phase.Acting?
    ensures r < |Step(w, e).requests| && !Step(w, e).requests[r].phase.Acting?
  {
    ReachableInv(w);
    assert BirthOk(w, id);
  }

  /** Over whole runs: after a success was stored, no action starts before its record expires. */
  lemma {:induction false} SuccessIsFinalUntilExpiry(w: World, id: nat, events: seq<Event>, r: nat)
    requires Reachable(w) && KeepsOut(w, id) && w.requests[w.births[id].owner].phase.Done?
    requires id < |Run(w, events).births| && !IsExpired(Run(w, events), id)
    requires r < |Run(w, events).requests| && (r < |w.requests| ==> !w.requests[r].phase.Acting?)
    ensures !Run(w, events).requests[r].phase.Acting?
    ensures Run(w, events).row == w.row
    decreases |events|
  {
    ReachableInv(w);
    assert BirthOk(w, id);
    if events != [] {
      var next := Step(w, events[0]);
      ReachableStep(w, events[0]);
      RunGrows(next, events[1..]);
      StoredStays(w, id, events[0]);
      if r < |w.requests| { NoEntryWhileKeptOut(w, id, events[0], r); }
      SuccessIsFinalUntilExpiry(next, id, events[1..], r);
    }
  }

  lemma StoredStays(w: World, id: nat, e: Event)
    requires Inv(w) && KeepsOut(w, id) && w.requests[w.births[id].owner].phase.Done?
    requires id < |Step(w, e).births| && !IsExpired(Step(w, e), id)
    ensures KeepsOut(Step(w, e), id) && Step(w, e).requests[Step(w, e).births[id].owner].phase.Done?
    ensures Step(w, e).row == w.row
  {
    assert BirthOk(w, id);
    if !e.Tick? && !e.Arrive? && e.r < |w.requests| {
      assert RequestOk(w, e.r);
      if !w.requests[e.r].phase.Done? { NotTheOwner(w, id, e.r); }
    }
  }

  /** A request still on its way works on another record. */
  lemma NotTheOwner(w: World, id: nat, r: nat)
    requires Inv(w) && id < |w.births| && r < |w.requests| && w.births[id].owner < |w.requests|
    requires w.requests[w.births[id].owner].phase.Done? && !w.requests[r].phase.Done?
    ensures w.births[id].owner != r
    ensures var p := w.requests[r].phase; p.Acting? || p.Acted? || p.CleaningUp? ==> p.id != id
  {
    assert RequestOk(w, r) && BirthOk(w, id);
  }

  lemma ReachableStep(w: World, e: Event)
    requires Reachable(w)
    ensures Reachable(Step(w, e))
  {
    var clock, events :| w == Run(Initial(clock), events);
    RunAppend(Initial(clock), events, e);
    assert Step(w, e) == Run(Initial(clock), events + [e]);
  }

  lemma {:induction false} RunAppend(w: World, events: seq<Event>, e: Event)
    ensures Run(w, events + [e]) == Step(Run(w, events), e)
    decreases |events|
  {
    if events == [] {
      assert events + [e] == [e];
      assert Run(w, [e]) == Run(Step(w, e), []);
    } else {
      assert (events + [e])[1..] == events[1..] + [e];
      RunAppend(Step(w, events[0]), events[1..], e);
    }
  }

  /** Time passes, and requests and records are only added; a record's expiry is fixed. */
  lemma {:induction false} RunGrows(w: World, events: seq<Event>)
    ensures var w' := Run(w, events);
      && w.clock <= w'.clock && |w.requests| <= |w'.requests| && |w.births| <= |w'.births|
      && forall id :: 0 <= id < |w.births| ==> w'.births[id].expiresAt == w.births[id].expiresAt
    decreases |events|
  {
    if events != [] {
      RunGrows(Step(w, events[0]), events[1..]);
    }
  }

  /**
   * A replay answers with what the action of a record returned, a record of the same request
   * hash, not expired when the replaying request arrived.
   */
  lemma ReplayIsFaithful(w: World, r: nat)
    requires Reachable(w) && r < |w.requests|
    requires w.requests[r].phase.Done? && w.requests[r].phase.outcome.Replayed?
    ensures var q := w.requests[r]; var of := q.phase.outcome.of;
      && of < |w.births|
      && w.births[of].returned == Some(q.phase.outcome.response)
      && w.births[of].hash == q.hash
      && q.now < w.births[of].expiresAt
  {
    ReachableInv(w);
    assert RequestOk(w, r);
  }

  /** While a stored success keeps others out, the same request is answered with it and any other is refused. */
  lemma StoredSuccessAnswers(w: World, id: nat, r: nat)
    requires Reachable(w) && KeepsOut(w, id) && w.requests[w.births[id].owner].phase.Done?
    requires r < |w.requests| && w.requests[r].phase == Finding
    ensures Step(w, Find(r)).requests[r].phase ==
      if w.requests[r].hash == w.births[id].hash
      then Done(Replayed(w.requests[w.births[id].owner].phase.outcome.response, id)) else Done(KeyReused)
  {
    ReachableInv(w);
    assert BirthOk(w, id) && RequestOk(w, r);
  }

  /** How a request that is past its action can end. */
  datatype Ending = Stored | Unstored(written: bool, deleted: bool)

  function End(w: World, r: nat, ending: Ending): World {
    match ending
    case Stored => Step(w, Save(r))
    case Unstored(written, deleted) =>
      Step(Step(w, SaveThrows(r, written)), if deleted then Cleanup(r) else CleanupThrows(r))
  }

  /** The very next insert after the ending enters exactly when saving failed and the clean-up succeeded. */
  lemma NextInsertIffResultLost(w: World, r: nat, waiting: nat, ending: Ending)
    requires Reachable(w) && r < |w.requests| && w.requests[r].phase.Acted?
    requires w.requests[r].phase.id < |w.births| && !IsExpired(w, w.requests[r].phase.id)
    requires waiting < |w.requests| && w.requests[waiting].phase == Inserting
    ensures Step(End(w, r, ending), Insert(waiting)).requests[waiting].phase.Acting?
        <==> ending.Unstored? && ending.deleted
  {
    ReachableInv(w);
    OwnRecord(w, r, w.requests[r].phase.id);
  }

  /** One request's result is lost, the next acts again. */
  function LostResult(): seq<Event> {
    [Arrive(7, 100), Find(0), Insert(0), ActionReturns(0, 200), SaveThrows(0, false), Cleanup(0),
     Arrive(7, 100), Find(1), Insert(1), ActionReturns(1, 201)]
  }

  /** The double execution as a concrete run. */
  lemma LostResultRepeatsAction()
    ensures var w := Run(Initial(0), LostResult());
      && |w.births| == 2 && w.births[0].returned == Some(200) && w.births[1].returned == Some(201)
      && w.clock < w.births[0].expiresAt
  {
    var once := Birth(0, 7, 100, Some(200));
    var w3 := World(0, Some(Row(0, 7, 100, Processing)), [Request(7, 0, 100, Acting(0))], [Birth(0, 7, 100, None)]);
    var w6 := World(0, None, [Request(7, 0, 100, Done(SaveFailed))], [once]);
    var w9 := World(0, Some(Row(1, 7, 100, Processing)),
                    [Request(7, 0, 100, Done(SaveFailed)), Request(7, 0, 100, Acting(1))], [once, Birth(1, 7, 100, None)]);
    var events := LostResult();
    assert Step(Step(Step(Initial(0), events[0]), events[1]), events[2]) == w3;
    assert Step(Step(Step(w3, events[3]), events[4]), events[5]) == w6;
    assert Step(Step(Step(w6, events[6]), events[7]), events[8]) == w9;
    RunThree(Initial(0), events);
    RunThree(w3, events[3..]);
    RunThree(w6, events[6..]);
    assert events[3..][3..] == events[6..] && events[6..][3..] == events[9..] && events[9..][1..] == [];
    assert Run(w9, events[9..]) == Run(Step(w9, events[9]), []);
  }

  lemma RunThree(w: World, events: seq<Event>)
    requires |events| >= 3
    ensures Run(w, events) == Run(Step(Step(Step(w, events[0]), events[1]), events[2]), events[3..])
  {
    var a := Step(w, events[0]);
    var b := Step(a, events[1]);
    assert events[1..][1..] == events[2..] && events[2..][1..] == events[3..];
    assert Run(a, events[1..]) == Run(b, events[2..]);
    assert Run(b, events[2..]) == Run(Step(b, events[2]), events[3..]);
  }

  /** A failed action frees the key exactly when the clean-up's delete goes through. */
  lemma FailureFreesKey(w: World, r: nat, deleted: bool)
    requires Reachable(w) && r < |w.requests| && w.requests[r].phase.Acting?
    requires w.requests[r].phase.id < |w.births| && !IsExpired(w, w.requests[r].phase.id)
    ensures var w' := Step(Step(w, ActionThrows(r)), if deleted then Cleanup(r) else CleanupThrows(r));
      && w'.requests[r].phase == Done(ActionFailed)
      && (w'.row.None? <==> deleted)
  {
    ReachableInv(w);
    OwnRecord(w, r, w.requests[r].phase.id);
  }

  /* ---------- after a success, until the record expires ---------- */

  /** The owner's clean-up, which deletes its record. */
  predicate CleansUp(w: World, e: Event, r: nat) {
    e == Cleanup(r) && r < |w.requests| && w.requests[r].phase.CleaningUp?
  }

  /** Somewhere in the run request `r` deletes its record. */
  predicate DeletedIn(w: World, r: nat, events: seq<Event>)
    decreases |events|
  {
    events != [] && (CleansUp(w, events[0], r) || DeletedIn(Step(w, events[0]), r, events[1..]))
  }

  /** The key's row is the record `id`. */
  predicate RowIs(w: World, id: nat) {
    w.row.Some? && w.row.value.id == id
  }

  /** An unexpired row leaves only by its owner's clean-up; while it is there nobody enters. */
  lemma RowHeld(w: World, id: nat, e: Event)
    requires Inv(w) && id < |w.births| && RowIs(w, id) && !CleansUp(w, e, w.births[id].owner)
    requires id < |Step(w, e).births| && !IsExpired(Step(w, e), id)
    ensures RowIs(Step(w, e), id) && |Step(w, e).births| == |w.births|
    ensures Step(w, e).births[id].owner == w.births[id].owner
  {
    if !e.Tick? && !e.Arrive? && e.r < |w.requests| {
      assert RequestOk(w, e.r);
      if w.requests[e.r].phase.CleaningUp? { OwnRecord(w, e.r, w.requests[e.r].phase.id); }
    }
  }

  lemma {:induction false} RowHeldRun(w: World, id: nat, events: seq<Event>)
    requires Inv(w) && id < |w.births| && RowIs(w, id) && !DeletedIn(w, w.births[id].owner, events)
    requires id < |Run(w, events).births| && !IsExpired(Run(w, events), id)
    ensures RowIs(Run(w, events), id) && |Run(w, events).births| == |w.births|
    decreases |events|
  {
    if events != [] {
      var next := Step(w, events[0]);
      StepOk(w, events[0]);
      RunGrows(w, [events[0]]);
      assert Run(w, [events[0]]) == Run(next, []);
      RunGrows(next, events[1..]);
      RowHeld(w, id, events[0]);
      RowHeldRun(next, id, events[1..]);
    }
  }

  /** A row that appears without a new record is an expired one. */
  ghost predicate FreeOrBlocked(w: World, id: nat, records: nat) {
    w.row.None? || w.row.value.id == id || records <= w.row.value.id
    || (w.row.value.id < |w.births| && IsExpired(w, w.row.value.id))
  }

  lemma FreeStep(w: World, id: nat, records: nat, e: Event)
    requires Inv(w) && FreeOrBlocked(w, id, records) && records <= |w.births|
    ensures FreeOrBlocked(Step(w, e), id, records)
  {
    if !e.Tick? && !e.Arrive? && e.r < |w.requests| && w.requests[e.r].phase.Acted? {
      OwnRecord(w, e.r, w.requests[e.r].phase.id);
    }
  }

  lemma {:induction false} FreeRun(w: World, id: nat, records: nat, events: seq<Event>)
    requires Inv(w) && FreeOrBlocked(w, id, records) && records <= |w.births|
    ensures FreeOrBlocked(Run(w, events), id, records)
    decreases |events|
  {
    if events != [] {
      StepOk(w, events[0]);
      FreeStep(w, id, records, events[0]);
      RunGrows(w, [events[0]]);
      assert Run(w, [events[0]]) == Run(Step(w, events[0]), []);
      FreeRun(Step(w, events[0]), id, records, events[1..]);
    }
  }

  /** Where request `r` may stand on its way out of a successful action. */
  ghost predicate AfterSuccess(w: World, r: nat, id: nat) {
    r < |w.requests|
    && match w.requests[r].phase
       case Acted(k, _) => k == id
       case CleaningUp(k, outcome) => k == id && outcome == SaveFailed
       case Done(outcome) => outcome.Performed? || outcome == SaveFailed
       case _ => false
  }

  lemma AfterSuccessStep(w: World, r: nat, id: nat, e: Event)
    requires AfterSuccess(w, r, id)
    ensures AfterSuccess(Step(w, e), r, id)
    ensures w.requests[r].phase.Done? ==> Step(w, e).requests[r] == w.requests[r]
    ensures CleansUp(w, e, r) ==> Step(w, e).requests[r].phase == Done(SaveFailed) && !RowIs(Step(w, e), id)
  {
  }

  /** Once the record was deleted the request is over, and its record never becomes the row again. */
  lemma {:induction false} DeletedForGood(w: World, r: nat, id: nat, events: seq<Event>)
    requires Inv(w) && AfterSuccess(w, r, id) && id < |w.births| && w.births[id].owner == r
    requires DeletedIn(w, r, events) || (w.requests[r].phase == Done(SaveFailed) && !RowIs(w, id))
    ensures r < |Run(w, events).requests|
    ensures Run(w, events).requests[r].phase == Done(SaveFailed) && !RowIs(Run(w, events), id)
    decreases |events|
  {
    if events != [] {
      var next := Step(w, events[0]);
      StepOk(w, events[0]);
      AfterSuccessStep(w, r, id, events[0]);
      if w.requests[r].phase == Done(SaveFailed) && !RowIs(w, id) {
        NotRowAgain(w, r, id, events[0]);
        DoneDeletesNothing(next, r, events[1..]);
      }
      DeletedForGood(next, r, id, events[1..]);
    }
  }

  lemma NotRowAgain(w: World, r: nat, id: nat, e: Event)
    requires Inv(w) && r < |w.requests| && w.requests[r].phase.Done? && id < |w.births| && w.births[id].owner == r
    requires !RowIs(w, id)
    ensures !RowIs(Step(w, e), id) && id < |Step(w, e).births| && Step(w, e).births[id].owner == r
  {
    if !e.Tick? && !e.Arrive? && e.r < |w.requests| && w.requests[e.r].phase.Acted? {
      assert RequestOk(w, e.r);
    }
  }

  lemma {:induction false} DoneDeletesNothing(w: World, r: nat, events: seq<Event>)
    requires r < |w.requests| && w.requests[r].phase.Done?
    ensures !DeletedIn(w, r, events)
    decreases |events|
  {
    if events != [] {
      DoneDeletesNothing(Step(w, events[0]), r, events[1..]);
    }
  }

  lemma {:induction false} RunConcat(w: World, xs: seq<Event>, ys: seq<Event>)
    ensures Run(w, xs + ys) == Run(Run(w, xs), ys)
    decreases |xs|
  {
    if xs == [] {
      assert xs + ys == ys;
    } else {
      assert (xs + ys)[1..] == xs[1..] + ys;
      RunConcat(Step(w, xs[0]), xs[1..], ys);
    }
  }

  lemma {:induction false} DeletedInConcat(w: World, r: nat, xs: seq<Event>, ys: seq<Event>)
    ensures DeletedIn(w, r, xs + ys) <==> DeletedIn(w, r, xs) || DeletedIn(Run(w, xs), r, ys)
    decreases |xs|
  {
    if xs == [] {
      assert xs + ys == ys;
    } else {
      assert (xs + ys)[1..] == xs[1..] + ys;
      DeletedInConcat(Step(w, xs[0]), r, xs[1..], ys);
    }
  }

  /** More records than before were inserted while `id` has not expired: somebody entered the action. */
  predicate EnteredBeforeExpiry(w: World, id: nat, records: nat) {
    id < |w.births| && !IsExpired(w, id) && records < |w.births|
  }

  predicate EntersIn(w: World, more: seq<Event>, id: nat, records: nat) {
    EnteredBeforeExpiry(Run(w, more), id, records)
  }

  /** Some continuation lets a request in. */
  ghost predicate CanReenter(w: World, id: nat, records: nat) {
    exists more: seq<Event> :: EntersIn(w, more, id, records)
  }

  /** A request that arrives now and is not interfered with enters, unless an unexpired row stands in its way. */
  lemma NextEnters(w: World)
    requires w.row.None? || w.row.value.expiresAt <= w.clock
    ensures var r := |w.requests|;
      var w' := Run(w, [Arrive(0, 1), Find(r), DeleteExpired(r), Insert(r)]);
      |w'.births| == |w.births| + 1 && w'.clock == w.clock
      && forall id :: 0 <= id < |w.births| ==> w'.births[id] == w.births[id]
  {
    var r := |w.requests|;
    var events := [Arrive(0, 1), Find(r), DeleteExpired(r), Insert(r)];
    RunThree(w, events);
    AloneFinds(w, 0, 1);
    var w3 := Step(Step(Step(w, events[0]), events[1]), events[2]);
    assert events[3..] == [Insert(r)] && Run(w3, [Insert(r)]) == Run(Step(w3, Insert(r)), []);
  }

  /** In no run does anybody enter before expiry unless the record has been deleted. */
  lemma NobodyEntersUnlessDeleted(w: World, r: nat, events: seq<Event>)
    requires Reachable(w) && r < |w.requests| && w.requests[r].phase.Acted?
    requires w.requests[r].phase.id < |w.births| && !DeletedIn(w, r, events)
    ensures !EnteredBeforeExpiry(Run(w, events), w.requests[r].phase.id, |w.births|)
  {
    var id := w.requests[r].phase.id;
    ReachableInv(w);
    OwnRecord(w, r, id);
    RunGrows(w, events);
    if !IsExpired(Run(w, events), id) {
      RowHeldRun(w, id, events);
    }
  }

  /** After the deletion somebody can, whatever else happened. */
  lemma SomebodyCanEnterOnceDeleted(w: World, r: nat, events: seq<Event>) returns (more: seq<Event>)
    requires Reachable(w) && r < |w.requests| && w.requests[r].phase.Acted? && w.requests[r].phase.id < |w.births|
    requires DeletedIn(w, r, events) && w.requests[r].phase.id < |Run(w, events).births|
    requires !IsExpired(Run(w, events), w.requests[r].phase.id)
    ensures EntersIn(Run(w, events), more, w.requests[r].phase.id, |w.births|)
  {
    var id, w' := w.requests[r].phase.id, Run(w, events);
    ReachableInv(w);
    OwnRecord(w, r, id);
    RunGrows(w, events);
    RunOk(w, events);
    DeletedForGood(w, r, id, events);
    if |w.births| < |w'.births| {
      more := [];
    } else {
      assert FreeOrBlocked(w, id, |w.births|);
      FreeRun(w, id, |w.births|, events);
      NextEnters(w');
      more := [Arrive(0, 1), Find(|w'.requests|), DeleteExpired(|w'.requests|), Insert(|w'.requests|)];
    }
  }

  /**
   * From the return of a successful action to the expiry of its record, over every run in which its
   * request comes to an end: some request enters the action a second time, then or in some
   * continuation, if and only if the result was lost and the record deleted.
   */
  lemma SecondActionIffResultLost(w: World, r: nat, events: seq<Event>)
    requires Reachable(w) && r < |w.requests| && w.requests[r].phase.Acted? && w.requests[r].phase.id < |w.births|
    requires w.requests[r].phase.id < |Run(w, events).births| && !IsExpired(Run(w, events), w.requests[r].phase.id)
    requires r < |Run(w, events).requests| && Run(w, events).requests[r].phase.Done?
    ensures CanReenter(Run(w, events), w.requests[r].phase.id, |w.births|) <==> DeletedIn(w, r, events)
    ensures DeletedIn(w, r, events) ==> Run(w, events).requests[r].phase == Done(SaveFailed)
  {
    var id := w.requests[r].phase.id;
    ReachableInv(w);
    OwnRecord(w, r, id);
    if DeletedIn(w, r, events) {
      DeletedForGood(w, r, id, events);
      var more := SomebodyCanEnterOnceDeleted(w, r, events);
      assert EntersIn(Run(w, events), more, id, |w.births|);
    } else {
      forall more: seq<Event>
        ensures !EntersIn(Run(w, events), more, id, |w.births|)
      {
        RunConcat(w, events, more);
        DeletedInConcat(w, r, events, more);
        DoneDeletesNothing(Run(w, events), r, more);
        NobodyEntersUnlessDeleted(w, r, events + more);
      }
    }
  }

  /* ---------- one request on its own ---------- */

  /** Whether saving the result goes through, whether it is written all the same, and whether deleting goes through. */
  datatype Storage = Storage(saves: bool, written: bool, deletes: bool)

  /** The row and the answer after an execution nobody interferes with; `id` is the next record's. */
  function Alone(row: Option<Row>, id: nat, hash: Hash, now: Time, ttl: nat, result: Option<Response>, storage: Storage)
    : (Option<Row>, Outcome)
  {
    if row.Some? && now < row.value.expiresAt then
      (row, if row.value.hash != hash then KeyReused
            else match row.value.state
              case Processing => RequestInProgress
              case Completed(response) => Replayed(response, row.value.id))
    else
      var processing := Row(id, hash, now + ttl, Processing);
      match result
      case None => (if storage.deletes then None else Some(processing), ActionFailed)
      case Some(response) =>
        var completed := processing.(state := Completed(response));
        if storage.saves then (Some(completed), Performed(response))
        else (if storage.deletes then None else Some(if storage.written then completed else processing), SaveFailed)
  }

  /** The statements of one request in order; those it does not come to do nothing. */
  function Statements(r: nat, hash: Hash, ttl: nat, result: Option<Response>, storage: Storage): seq<Event> {
    [Arrive(hash, ttl), Find(r), DeleteExpired(r)] + Inside(r, result, storage)
  }

  function Inside(r: nat, result: Option<Response>, storage: Storage): seq<Event> {
    [Insert(r), if result.Some? then ActionReturns(r, result.value) else ActionThrows(r),
     if storage.saves then Save(r) else SaveThrows(r, storage.written),
     if storage.deletes then Cleanup(r) else CleanupThrows(r)]
  }

  /** Arriving, finding and clearing away: the request is answered from the row, or finds none. */
  lemma AloneFinds(w: World, hash: Hash, ttl: nat)
    ensures var r := |w.requests|; var w' := Step(Step(Step(w, Arrive(hash, ttl)), Find(r)), DeleteExpired(r));
      && |w'.requests| == r + 1 && w'.births == w.births && w'.clock == w.clock
      && if w.row.Some? && w.clock < w.row.value.expiresAt
         then w'.requests[r] == Request(hash, w.clock, ttl, AfterFind(w.row, hash, w.clock)) && w'.row == w.row
         else w'.requests[r] == Request(hash, w.clock, ttl, Inserting) && w'.row == None
  {
  }

  /** The two statements after the action. */
  lemma AloneEnds(w: World, r: nat, id: nat, result: Option<Response>, storage: Storage)
    requires r < |w.requests| && id < |w.births|
    requires w.row == Some(Row(id, w.births[id].hash, w.births[id].expiresAt, Processing))
    requires w.requests[r].phase == if result.Some? then Acted(id, result.value) else CleaningUp(id, ActionFailed)
    ensures var w' := Step(Step(w, if storage.saves then Save(r) else SaveThrows(r, storage.written)),
                           if storage.deletes then Cleanup(r) else CleanupThrows(r));
      && |w'.requests| == |w.requests| && w'.requests[r].phase.Done?
      && (w'.row, w'.requests[r].phase.outcome)
         == Alone(None, id, w.births[id].hash, w.births[id].expiresAt, 0, result, storage)
  {
    var w1 := Step(w, if storage.saves then Save(r) else SaveThrows(r, storage.written));
    if result.None? {
      assert w1 == w;
    } else if storage.saves {
      assert w1.requests[r].phase == Done(Performed(result.value));
    } else {
      assert w1.requests[r].phase == CleaningUp(id, SaveFailed);
    }
  }

  lemma AloneActs(w: World, r: nat, result: Option<Response>, storage: Storage)
    requires r < |w.requests| && w.requests[r].phase == Inserting && w.row == None
    ensures var q := w.requests[r]; var w' := Run(w, Inside(r, result, storage));
      && |w'.requests| == |w.requests| && w'.requests[r].phase.Done?
      && (w'.row, w'.requests[r].phase.outcome) == Alone(None, |w.births|, q.hash, q.now, q.ttl, result, storage)
  {
    var events := Inside(r, result, storage);
    var w2 := Step(Step(w, events[0]), events[1]);
    AloneInside(w, r, result);
    AloneEnds(w2, r, |w.births|, result, storage);
    RunThree(w, events);
    assert events[3..] == [events[3]] && Run(Step(w2, events[2]), events[3..]) == Run(Step(Step(w2, events[2]), events[3]), []);
  }

  lemma AloneInside(w: World, r: nat, result: Option<Response>)
    requires r < |w.requests| && w.requests[r].phase == Inserting && w.row == None
    ensures var q := w.requests[r]; var id := |w.births|;
      var w2 := Step(Step(w, Insert(r)), if result.Some? then ActionReturns(r, result.value) else ActionThrows(r));
      && |w2.requests| == |w.requests| && |w2.births| == id + 1
      && w2.births[id].hash == q.hash && w2.births[id].expiresAt == q.now + q.ttl
      && w2.row == Some(Row(id, q.hash, q.now + q.ttl, Processing))
      && w2.requests[r].phase == if result.Some? then Acted(id, result.value) else CleaningUp(id, ActionFailed)
  {
    var w1 := Step(w, Insert(r));
    assert w1.requests[r].phase == Acting(|w.births|);
  }

  /** A request that has its answer takes no further part. */
  lemma {:induction false} DoneStays(w: World, r: nat, events: seq<Event>)
    requires r < |w.requests| && w.requests[r].phase.Done?
    requires forall i :: 0 <= i < |events| ==> !events[i].Tick? && !events[i].Arrive? && events[i].r == r
    ensures Run(w, events) == w
    decreases |events|
  {
    if events != [] {
      assert Step(w, events[0]) == w;
      DoneStays(w, r, events[1..]);
    }
  }

  /** An uninterrupted request of the concurrent protocol does what `Alone` says. */
  lemma AloneIsUninterrupted(w: World, hash: Hash, ttl: nat, result: Option<Response>, storage: Storage)
    ensures var r := |w.requests|; var w' := Run(w, Statements(r, hash, ttl, result, storage));
      && |w'.requests| == r + 1 && w'.requests[r].phase.Done?
      && (w'.row, w'.requests[r].phase.outcome) == Alone(w.row, |w.births|, hash, w.clock, ttl, result, storage)
  {
    var r := |w.requests|;
    var events := Statements(r, hash, ttl, result, storage);
    var w3 := Step(Step(Step(w, events[0]), events[1]), events[2]);
    RunThree(w, events);
    assert events[3..] == Inside(r, result, storage);
    AloneFinds(w, hash, ttl);
    if w3.requests[r].phase == Inserting {
      AloneActs(w3, r, result, storage);
    } else {
      DoneStays(w3, r, Inside(r, result, storage));
    }
  }
}

/** The service itself: statements on the key's row, one after the other. */
module IdempotencyService {
  import opened Base
  import opened Idempotency

  class KeyTable {
    var row: Option<Row>
    var nextId: nat

    constructor ()
      ensures row == None && nextId == 0
    {
      row, nextId := None, 0;
    }

    /**
     * `result` is what the action will do, `None` when it throws; `storage` is how the database
     * takes the writes after it. Without a key the action simply runs.
     */
    method Execute(hasKey: bool, hash: Hash, now: Time, ttl: nat, result: Option<Response>, storage: Storage)
      returns (outcome: Outcome)
      modifies this
      ensures hasKey ==> (row, outcome) == Alone(old(row), old(nextId), hash, now, ttl, result, storage)
      ensures !hasKey ==> row == old(row) && outcome == if result.Some? then Performed(result.value) else ActionFailed
    {
      if !hasKey {
        return if result.Some? then Performed(result.value) else ActionFailed;
      }
      var existing := row;
      if existing.Some? {
        var isExpired := existing.value.expiresAt <= now;
        if !isExpired {
          if existing.value.hash != hash {
            return KeyReused;
          }
          if existing.value.state == Processing {
            return RequestInProgress;
          }
          return Replayed(existing.value.state.response, existing.value.id);
        }
        row := DeleteById(row, existing.value.id);
      }
      var expiresAt := now + ttl;
      var record := Row(nextId, hash, expiresAt, Processing);
      nextId := nextId + 1;
      row := Some(record);
      outcome := ActionFailed;
      if result.Some? {
        record := record.(state := Completed(result.value));
        if storage.saves || storage.written {
          row := SaveById(row, record);
        }
        if storage.saves {
          return Performed(result.value);
        }
        outcome := SaveFailed;
      }
      if storage.deletes {
        row := DeleteById(row, record.id);
      }
    }
  }
}
