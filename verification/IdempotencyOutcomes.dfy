/** What a request is answered, told from what has happened to its key before. */
module IdempotencyOutcomes {
  import opened Base
  import opened Idempotency

  /* ---------- one request after another ---------- */

  /** A request on a key that nobody else uses or whose record has expired. */
  predicate IsFree(row: Option<Row>, now: Time) {
    row.Some? ==> row.value.expiresAt <= now
  }

  /**
   * A stored success answers every equal request until it expires, `ttl` after the first one came, and
   * refuses every other one; from then on the next request acts for itself.
   */
  lemma RepeatAfterSuccess(row: Option<Row>, id: nat, hash: Hash, now: Time, ttl: nat, response: Response, storage: Storage,
                           nextId: nat, hash': Hash, now': Time, ttl': nat, result': Option<Response>, storage': Storage)
    requires IsFree(row, now) && storage.saves
    ensures var first := Alone(row, id, hash, now, ttl, Some(response), storage);
      var second := Alone(first.0, nextId, hash', now', ttl', result', storage');
      && first.1 == Performed(response)
      && (now' < now + ttl && hash' == hash ==> second == (first.0, Replayed(response, id)))
      && (now' < now + ttl && hash' != hash ==> second == (first.0, KeyReused))
      && (now + ttl <= now' ==> second == Alone(None, nextId, hash', now', ttl', result', storage'))
  {
  }

  /** A failure whose record is deleted leaves the key to the next request; one whose record stays keeps it busy until it expires. */
  lemma RepeatAfterFailure(row: Option<Row>, id: nat, hash: Hash, now: Time, ttl: nat, storage: Storage,
                           nextId: nat, hash': Hash, now': Time, ttl': nat, result': Option<Response>, storage': Storage)
    requires IsFree(row, now)
    ensures var first := Alone(row, id, hash, now, ttl, None, storage);
      var second := Alone(first.0, nextId, hash', now', ttl', result', storage');
      && first.1 == ActionFailed
      && (storage.deletes || now + ttl <= now' ==> second == Alone(None, nextId, hash', now', ttl', result', storage'))
      && (!storage.deletes && now' < now + ttl ==> second == (first.0, if hash' == hash then RequestInProgress else KeyReused))
  {
  }

  /** A lost result: the answer is an error, and what the next request meets depends on what the database took. */
  lemma RepeatAfterLostResult(row: Option<Row>, id: nat, hash: Hash, now: Time, ttl: nat, response: Response, storage: Storage,
                              nextId: nat, hash': Hash, now': Time, ttl': nat, result': Option<Response>, storage': Storage)
    requires IsFree(row, now) && !storage.saves
    ensures var first := Alone(row, id, hash, now, ttl, Some(response), storage);
      var second := Alone(first.0, nextId, hash', now', ttl', result', storage');
      && first.1 == SaveFailed
      && (storage.deletes || now + ttl <= now' ==> second == Alone(None, nextId, hash', now', ttl', result', storage'))
      && (!storage.deletes && now' < now + ttl && hash' != hash ==> second == (first.0, KeyReused))
      && (!storage.deletes && now' < now + ttl && hash' == hash ==>
            second == (first.0, if storage.written then Replayed(response, id) else RequestInProgress))
  {
  }

  /* ---------- requests at the same time ---------- */

  /** While another request's action is running or not yet stored, an equal request is told so and any other is refused. */
  lemma RunningActionAnswers(w: World, id: nat, r: nat)
    requires Reachable(w) && KeepsOut(w, id) && !w.requests[w.births[id].owner].phase.Done?
    requires r < |w.requests| && w.requests[r].phase == Finding
    ensures Step(w, Find(r)).requests[r].phase
         == Done(if w.requests[r].hash == w.births[id].hash then RequestInProgress else KeyReused)
    ensures Step(w, Find(r)).row == w.row
  {
    ReachableInv(w);
    assert BirthOk(w, id) && RequestOk(w, r);
  }

  /** An expired record is cleared away, and only that record; a request that finds nothing goes on to insert. */
  lemma ExpiredRecordIsCleared(w: World, r: nat)
    requires r < |w.requests| && w.requests[r].phase == Finding
    requires w.row.Some? ==> w.row.value.expiresAt <= w.requests[r].now
    ensures var w' := Step(Step(w, Find(r)), DeleteExpired(r)); w'.requests[r].phase == Inserting && w'.row == None
  {
  }

  lemma OtherRecordsStay(w: World, r: nat)
    requires r < |w.requests| && w.requests[r].phase.Deleting?
    requires w.row.Some? && w.row.value.id != w.requests[r].phase.expired
    ensures Step(w, DeleteExpired(r)).row == w.row && Step(w, DeleteExpired(r)).requests[r].phase == Inserting
  {
  }

  /** Of several requests that found nothing the first to insert acts; the others meet its record. */
  lemma InsertOutcome(w: World, r: nat)
    requires r < |w.requests| && w.requests[r].phase == Inserting
    ensures var w' := Step(w, Insert(r)); var q := w.requests[r];
      if w.row.Some? then w'.requests[r].phase == Done(RequestInProgress) && w'.row == w.row && w'.births == w.births
      else
        && w'.requests[r].phase == Acting(|w.births|)
        && w'.row == Some(Row(|w.births|, q.hash, q.now + q.ttl, Processing))
        && w'.births == w.births + [Birth(r, q.hash, q.now + q.ttl, None)]
  {
  }

  /** A result is stored under its own record, unless another record has the key by now. */
  lemma SaveOutcome(w: World, r: nat, stored: bool)
    requires Reachable(w) && r < |w.requests| && w.requests[r].phase.Acted?
    ensures w.requests[r].phase.id < |w.births|
    ensures var id, response := w.requests[r].phase.id, w.requests[r].phase.response;
      var b := w.births[id];
      var completed := Some(Row(id, b.hash, b.expiresAt, Completed(response)));
      var taken := w.row.Some? && w.row.value.id != id;
      var saved, lost := Step(w, Save(r)), Step(w, SaveThrows(r, stored));
      && saved.requests[r].phase == (if taken then CleaningUp(id, SaveFailed) else Done(Performed(response)))
      && saved.row == (if taken then w.row else completed)
      && lost.requests[r].phase == CleaningUp(id, SaveFailed)
      && lost.row == (if stored && !taken then completed else w.row)
  {
    ReachableInv(w);
    assert RequestOk(w, r);
  }

  /** Cleaning up answers with the error and deletes the request's own record, and no other. */
  lemma CleanupOutcome(w: World, r: nat)
    requires r < |w.requests| && w.requests[r].phase.CleaningUp?
    ensures var cleaned, thrown := Step(w, Cleanup(r)), Step(w, CleanupThrows(r));
      && cleaned.requests[r].phase == Done(w.requests[r].phase.outcome)
      && thrown.requests[r].phase == Done(w.requests[r].phase.outcome)
      && thrown.row == w.row
      && cleaned.row == if w.row.Some? && w.row.value.id == w.requests[r].phase.id then None else w.row
  {
  }

  /** A thrown action ends as that, a returned one goes on to be stored. */
  lemma ActionOutcome(w: World, r: nat, response: Response)
    requires Reachable(w) && r < |w.requests| && w.requests[r].phase.Acting?
    ensures var id := w.requests[r].phase.id;
      var returned, thrown := Step(w, ActionReturns(r, response)), Step(w, ActionThrows(r));
      && returned.requests[r].phase == Acted(id, response) && returned.row == w.row
      && id < |w.births| && returned.births == w.births[id := w.births[id].(returned := Some(response))]
      && thrown.requests[r].phase == CleaningUp(id, ActionFailed) && thrown.row == w.row && thrown.births == w.births
  {
    ReachableInv(w);
    assert RequestOk(w, r);
  }

  /* ---------- what an answer rests on ---------- */

  /** The request's own action returned this. */
  ghost predicate OwnActionReturned(w: World, r: nat, response: Response) {
    exists id :: 0 <= id < |w.births| && w.births[id].owner == r && w.births[id].returned == Some(response)
  }

  ghost predicate AnswersAreOwn(w: World) {
    forall r :: 0 <= r < |w.requests| && w.requests[r].phase.Done? && w.requests[r].phase.outcome.Performed? ==>
      OwnActionReturned(w, r, w.requests[r].phase.outcome.response)
  }

  /** Nothing that was returned is ever replaced while its request is answered. */
  lemma OwnStays(w: World, e: Event, r: nat, response: Response)
    requires Inv(w) && OwnActionReturned(w, r, response) && r < |w.requests| && w.requests[r].phase.Done?
    ensures OwnActionReturned(Step(w, e), r, response)
  {
    var id :| 0 <= id < |w.births| && w.births[id].owner == r && w.births[id].returned == Some(response);
    if !e.Tick? && !e.Arrive? && e.r < |w.requests| {
      assert RequestOk(w, e.r) && BirthOk(w, id);
    }
    assert Step(w, e).births[id] == w.births[id];
  }

  lemma AnswersStep(w: World, e: Event)
    requires Inv(w) && AnswersAreOwn(w)
    ensures AnswersAreOwn(Step(w, e))
  {
    var w' := Step(w, e);
    forall r | 0 <= r < |w'.requests| && w'.requests[r].phase.Done? && w'.requests[r].phase.outcome.Performed?
      ensures OwnActionReturned(w', r, w'.requests[r].phase.outcome.response)
    {
      if r < |w.requests| {
        if w.requests[r].phase.Done? {
          assert w'.requests[r] == w.requests[r];
          OwnStays(w, e, r, w.requests[r].phase.outcome.response);
        } else {
          assert RequestOk(w, r);
          assert w.requests[r].phase.Acted? && w'.births == w.births;
          assert w'.births[w.requests[r].phase.id].owner == r;
        }
      }
    }
  }

  lemma {:induction false} AnswersRun(w: World, events: seq<Event>)
    requires Inv(w) && AnswersAreOwn(w)
    ensures AnswersAreOwn(Run(w, events))
    decreases |events|
  {
    if events != [] {
      AnswersStep(w, events[0]);
      StepOk(w, events[0]);
      AnswersRun(Step(w, events[0]), events[1..]);
    }
  }

  /** In every reachable state whoever was answered with a result got what its own action returned. */
  lemma PerformedIsReturned(w: World, r: nat)
    requires Reachable(w) && r < |w.requests|
    requires w.requests[r].phase.Done? && w.requests[r].phase.outcome.Performed?
    ensures OwnActionReturned(w, r, w.requests[r].phase.outcome.response)
  {
    var clock, events :| w == Run(Initial(clock), events);
    AnswersRun(Initial(clock), events);
  }
}
