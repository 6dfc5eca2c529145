/** One request, one effect (apps/api/src/idempotency.ts): the key row, the guarded work
    and the stored response are one transaction; a duplicate blocks on the unique index and
    then replays. Every interleaving of attempts, failures, lost answers and pruning. */
module Idempotency {
  import opened Lists
  import opened CanonicalJson
  import opened JsText

  datatype KeyId = KeyId(companyId: string, key: string)

  /** `status` is what the route answers on a real execution. */
  datatype Request = Request(id: KeyId, endpoint: string, body: Json, status: int)

  /** The hash of the body stands for its canonical text: collisions are outside the model. */
  function RequestHash(r: Request): Text {
    Stringify(r.body)
  }

  datatype KeyRow = KeyRow(endpoint: string, requestHash: Text, statusCode: int, response: string, createdAt: int)

  datatype Phase =
    | InTransaction(claimedAt: int, value: Option<string>, stored: bool)
    | LookingUp
    | Answered(response: string, statusCode: int, replayed: bool)
    | AnswerLost
    | Conflict
    | Failed

  datatype Attempt = Attempt(request: Request, phase: Phase)

  /** A committed execution of the guarded work. */
  datatype Effect = Effect(attempt: nat, id: KeyId, endpoint: string, requestHash: Text, statusCode: int,
      response: string)

  datatype State = State(keys: map<KeyId, KeyRow>, attempts: map<nat, Attempt>, effects: seq<Effect>,
      pruned: multiset<KeyId>)

  datatype WorkOutcome =
    | Value(response: string)
    | UniqueViolation   // raised by the work itself, not by the key claim
    | Error

  datatype Action =
    | Claim(attempt: nat, request: Request, now: int)
    | Work(attempt: nat, outcome: WorkOutcome)
    | Store(attempt: nat)
    | Settle(attempt: nat, answerLost: bool)
    | Abort(attempt: nat)
    | Lookup(attempt: nat)
    | Prune(now: int)

  const KEY_RETENTION_DAYS := 30

  const RETENTION_MS := KEY_RETENTION_DAYS * 24 * 60 * 60 * 1000

  predicate InFlight(s: State, a: nat) {
    a in s.attempts && s.attempts[a].phase.InTransaction?
  }

  predicate HeldByAnother(s: State, a: nat, id: KeyId) {
    exists b :: b in s.attempts && b != a && InFlight(s, b) && s.attempts[b].request.id == id
  }

  function Moved(s: State, a: nat, phase: Phase): State
    requires a in s.attempts
  {
    s.(attempts := s.attempts[a := s.attempts[a].(phase := phase)])
  }

  /** What a caller is told from the stored row. */
  function Replay(row: KeyRow, request: Request): Phase {
    if row.endpoint != request.endpoint || row.requestHash != RequestHash(request) then Conflict
    else Answered(row.response, row.statusCode, true)
  }

  function Expired(keys: map<KeyId, KeyRow>, now: int): set<KeyId> {
    set id | id in keys && keys[id].createdAt < now - RETENTION_MS
  }

  function Step(s: State, action: Action): State {
    match action
    case Claim(a, request, now) =>
      if a in s.attempts || HeldByAnother(s, a, request.id) then s
      else
        var phase := if request.id in s.keys then LookingUp else InTransaction(now, None, false);
        s.(attempts := s.attempts[a := Attempt(request, phase)])
    case Work(a, outcome) =>
      if !InFlight(s, a) || s.attempts[a].phase.value.Some? then s
      else
        (match outcome
         case Value(response) => Moved(s, a, s.attempts[a].phase.(value := Some(response)))
         case UniqueViolation => Moved(s, a, LookingUp)
         case Error => Moved(s, a, Failed))
    case Store(a) =>
      if !InFlight(s, a) || s.attempts[a].phase.value.None? then s
      else Moved(s, a, s.attempts[a].phase.(stored := true))
    case Settle(a, answerLost) =>
      if !InFlight(s, a) || !s.attempts[a].phase.stored || s.attempts[a].phase.value.None? then s
      else
        var request, response := s.attempts[a].request, s.attempts[a].phase.value.value;
        var row := KeyRow(request.endpoint, RequestHash(request), request.status, response,
                          s.attempts[a].phase.claimedAt);
        var phase := if answerLost then AnswerLost else Answered(response, request.status, false);
        Moved(s, a, phase).(
          keys := s.keys[request.id := row],
          effects := s.effects + [Effect(a, request.id, request.endpoint, RequestHash(request),
                                         request.status, response)])
    case Abort(a) =>
      if !InFlight(s, a) then s else Moved(s, a, Failed)
    case Lookup(a) =>
      if a !in s.attempts || s.attempts[a].phase != LookingUp then s
      else if s.attempts[a].request.id in s.keys then
        Moved(s, a, Replay(s.keys[s.attempts[a].request.id], s.attempts[a].request))
      else Moved(s, a, Failed)
    case Prune(now) =>
      var gone := Expired(s.keys, now);
      s.(keys := s.keys - gone, pruned := s.pruned + multiset(gone))
  }

  const EMPTY := State(map[], map[], [], multiset{})

  function Run(s: State, actions: seq<Action>): State
    decreases |actions|
  {
    if actions == [] then s else Run(Step(s, actions[0]), actions[1..])
  }

  /** A run is its steps, one after another. */
  lemma {:induction false} RunIsItsSteps(s: State, actions: seq<Action>, action: Action)
    ensures Run(s, []) == s && Run(s, actions + [action]) == Step(Run(s, actions), action)
    decreases |actions|
  {
    hide Step;
    if actions == [] {
      assert [] + [action] == [action] && [action][1..] == [];
    } else {
      assert (actions + [action])[0] == actions[0] && (actions + [action])[1..] == actions[1..] + [action];
      RunIsItsSteps(Step(s, actions[0]), actions[1..], action);
    }
  }

  // ------------------------------------------------------------- invariant

  function EffectsOf(effects: seq<Effect>, id: KeyId): nat {
    if effects == [] then 0 else (if effects[0].id == id then 1 else 0) + EffectsOf(effects[1..], id)
  }

  /** Work committed under a key: once for the row that is there, once for every row pruned. */
  ghost predicate CountsAgree(s: State) {
    forall id :: EffectsOf(s.effects, id) == s.pruned[id] + (if id in s.keys then 1 else 0)
  }

  /** Every key row is the record of a committed execution. */
  ghost predicate RowsRecordEffects(s: State) {
    forall id :: id in s.keys ==> exists e :: e in s.effects && e.id == id && Records(s.keys[id], e)
  }

  predicate Records(row: KeyRow, e: Effect) {
    && row.endpoint == e.endpoint && row.requestHash == e.requestHash
    && row.statusCode == e.statusCode && row.response == e.response
  }

  predicate Answers(a: nat, attempt: Attempt, e: Effect) {
    && attempt.phase.Answered? && (!attempt.phase.replayed ==> e.attempt == a)
    && e.id == attempt.request.id && e.endpoint == attempt.request.endpoint
    && e.requestHash == RequestHash(attempt.request)
    && e.statusCode == attempt.phase.statusCode && e.response == attempt.phase.response
  }

  /** Nobody is told anything but what a committed execution of the same request produced. */
  ghost predicate AnswersAreEffects(s: State) {
    forall a :: a in s.attempts && s.attempts[a].phase.Answered? ==>
      exists e :: e in s.effects && Answers(a, s.attempts[a], e)
  }

  /** One claim at a time on a key, and none on a key already taken. */
  ghost predicate ClaimsExclusive(s: State) {
    && (forall a :: InFlight(s, a) ==> s.attempts[a].request.id !in s.keys)
    && (forall a, b ::
      InFlight(s, a) && InFlight(s, b) && a != b ==> s.attempts[a].request.id != s.attempts[b].request.id)
  }

  /** An attempt has an effect only by being the one that executed. */
  predicate Executed(phase: Phase) {
    phase.AnswerLost? || (phase.Answered? && !phase.replayed)
  }

  /** This execution did what this request asked. */
  predicate Did(e: Effect, request: Request) {
    && e.id == request.id && e.endpoint == request.endpoint && e.requestHash == RequestHash(request)
    && e.statusCode == request.status
  }

  const Author: Effect -> nat := (e: Effect) => e.attempt

  ghost predicate EffectsHaveAuthors(s: State) {
    && (forall e :: e in s.effects ==>
          && e.attempt in s.attempts && Executed(s.attempts[e.attempt].phase)
          && Did(e, s.attempts[e.attempt].request))
    && Distinct(s.effects, Author)
  }

  ghost predicate Inv(s: State) {
    CountsAgree(s) && RowsRecordEffects(s) && AnswersAreEffects(s) && ClaimsExclusive(s) && EffectsHaveAuthors(s)
  }

  lemma {:induction false} EffectsOfAppend(effects: seq<Effect>, e: Effect, id: KeyId)
    ensures EffectsOf(effects + [e], id) == EffectsOf(effects, id) + (if e.id == id then 1 else 0)
  {
    if effects != [] {
      assert (effects + [e])[1..] == effects[1..] + [e];
      EffectsOfAppend(effects[1..], e, id);
    }
  }

  lemma {:induction false} AuthorsAppend(effects: seq<Effect>, e: Effect)
    requires Distinct(effects, Author) && forall x :: x in effects ==> x.attempt != e.attempt
    ensures Distinct(effects + [e], Author)
  {
    if effects != [] {
      assert (effects + [e])[1..] == effects[1..] + [e];
      AuthorsAppend(effects[1..], e);
    }
  }

  /** A step inside one transaction, or out of it without committing, changes no book. */
  lemma MovedKeepsInv(s: State, a: nat, phase: Phase)
    requires Inv(s) && a in s.attempts && !Executed(s.attempts[a].phase)
    requires phase.InTransaction? ==> InFlight(s, a)
    requires phase.Answered? ==>
      phase.replayed && exists e :: e in s.effects && Answers(a, s.attempts[a].(phase := phase), e)
    ensures Inv(Moved(s, a, phase))
  {
    MovedKeepsBooks(s, a, phase);
    MovedKeepsAnswers(s, a, phase);
    MovedKeepsClaims(s, a, phase);
    hide CountsAgree, RowsRecordEffects, AnswersAreEffects, EffectsHaveAuthors, ClaimsExclusive;
  }

  lemma MovedKeepsClaims(s: State, a: nat, phase: Phase)
    requires ClaimsExclusive(s) && a in s.attempts && (phase.InTransaction? ==> InFlight(s, a))
    ensures ClaimsExclusive(Moved(s, a, phase))
  {
  }

  lemma MovedKeepsBooks(s: State, a: nat, phase: Phase)
    requires CountsAgree(s) && RowsRecordEffects(s) && EffectsHaveAuthors(s)
    requires a in s.attempts && !Executed(s.attempts[a].phase)
    ensures
      var next := Moved(s, a, phase);
      CountsAgree(next) && RowsRecordEffects(next) && EffectsHaveAuthors(next)
  {
    hide EffectsOf, Records, Distinct;
  }

  lemma MovedKeepsAnswers(s: State, a: nat, phase: Phase)
    requires AnswersAreEffects(s) && a in s.attempts
    requires phase.Answered? ==> exists e :: e in s.effects && Answers(a, s.attempts[a].(phase := phase), e)
    ensures AnswersAreEffects(Moved(s, a, phase))
  {
    hide Answers;
  }

  lemma ClaimKeepsInv(s: State, a: nat, request: Request, now: int)
    requires Inv(s)
    ensures Inv(Step(s, Claim(a, request, now)))
  {
    var s' := Step(s, Claim(a, request, now));
    if s' != s {
      forall x, y | InFlight(s', x) && InFlight(s', y) && x != y
        ensures s'.attempts[x].request.id != s'.attempts[y].request.id
      {
        assert x != a ==> InFlight(s, x);
        assert y != a ==> InFlight(s, y);
      }
    }
  }

  lemma SettleKeepsInv(s: State, a: nat, answerLost: bool)
    requires Inv(s) && InFlight(s, a) && s.attempts[a].phase.stored && s.attempts[a].phase.value.Some?
    ensures Inv(Step(s, Settle(a, answerLost)))
  {
    hide CountsAgree, RowsRecordEffects, AnswersAreEffects, ClaimsExclusive, EffectsHaveAuthors, RequestHash;
    var s' := Step(s, Settle(a, answerLost));
    var request, response := s.attempts[a].request, s.attempts[a].phase.value.value;
    var e := Effect(a, request.id, request.endpoint, RequestHash(request), request.status, response);
    assert s'.effects == s.effects + [e];
    CountsStillAgree(s, s', a, e);
    RowsStillRecorded(s, s', e);
    AnswersStillEffects(s, s', a, e);
    ClaimsStillExclusive(s, s', a);
    AuthorsStillHold(s, s', a, e);
  }

  lemma CountsStillAgree(s: State, s': State, a: nat, e: Effect)
    requires CountsAgree(s) && ClaimsExclusive(s) && InFlight(s, a) && e.id == s.attempts[a].request.id
    requires s'.effects == s.effects + [e] && s'.keys.Keys == s.keys.Keys + {e.id} && s'.pruned == s.pruned
    ensures CountsAgree(s')
  {
    forall id
      ensures EffectsOf(s'.effects, id) == s'.pruned[id] + (if id in s'.keys then 1 else 0)
    {
      EffectsOfAppend(s.effects, e, id);
      assert EffectsOf(s.effects, id) == s.pruned[id] + (if id in s.keys then 1 else 0);
    }
  }

  lemma ClaimsStillExclusive(s: State, s': State, a: nat)
    requires ClaimsExclusive(s) && InFlight(s, a) && !InFlight(s', a)
    requires s'.attempts.Keys == s.attempts.Keys && s'.keys.Keys == s.keys.Keys + {s.attempts[a].request.id}
    requires forall b :: b in s.attempts && b != a ==> s'.attempts[b] == s.attempts[b]
    ensures ClaimsExclusive(s')
  {
    assert forall b :: InFlight(s', b) ==> InFlight(s, b);
  }

  lemma AuthorsStillHold(s: State, s': State, a: nat, e: Effect)
    requires EffectsHaveAuthors(s) && InFlight(s, a) && e.attempt == a && s'.effects == s.effects + [e]
    requires s'.attempts.Keys == s.attempts.Keys && Executed(s'.attempts[a].phase)
    requires Did(e, s'.attempts[a].request)
    requires forall b :: b in s.attempts && b != a ==> s'.attempts[b] == s.attempts[b]
    ensures EffectsHaveAuthors(s')
  {
    AuthorsAppend(s.effects, e);
  }

  lemma RowsStillRecorded(s: State, s': State, e: Effect)
    requires RowsRecordEffects(s) && s'.effects == s.effects + [e]
    requires s'.keys.Keys == s.keys.Keys + {e.id} && Records(s'.keys[e.id], e)
    requires forall id :: id in s.keys && id != e.id ==> s'.keys[id] == s.keys[id]
    ensures RowsRecordEffects(s')
  {
    forall id | id in s'.keys
      ensures exists x :: x in s'.effects && x.id == id && Records(s'.keys[id], x)
    {
      if id == e.id {
        assert e in s'.effects;
      } else {
        var x :| x in s.effects && x.id == id && Records(s.keys[id], x);
        assert x in s'.effects;
      }
    }
  }

  lemma AnswersStillEffects(s: State, s': State, a: nat, e: Effect)
    requires AnswersAreEffects(s) && s'.effects == s.effects + [e]
    requires s'.attempts.Keys == s.attempts.Keys && a in s'.attempts
    requires forall b :: b in s.attempts && b != a ==> s'.attempts[b] == s.attempts[b]
    requires s'.attempts[a].phase.Answered? ==> Answers(a, s'.attempts[a], e)
    ensures AnswersAreEffects(s')
  {
    forall b | b in s'.attempts && s'.attempts[b].phase.Answered?
      ensures exists x :: x in s'.effects && Answers(b, s'.attempts[b], x)
    {
      if b == a {
        assert e in s'.effects;
      } else {
        var x :| x in s.effects && Answers(b, s.attempts[b], x);
        assert x in s'.effects;
      }
    }
  }

  lemma PruneKeepsInv(s: State, now: int)
    requires Inv(s)
    ensures Inv(Step(s, Prune(now)))
  {
    var s' := Step(s, Prune(now));
    forall id
      ensures EffectsOf(s'.effects, id) == s'.pruned[id] + (if id in s'.keys then 1 else 0)
    {
      assert EffectsOf(s.effects, id) == s.pruned[id] + (if id in s.keys then 1 else 0);
    }
    assert forall a :: InFlight(s', a) <==> InFlight(s, a);
  }

  lemma LookupKeepsInv(s: State, a: nat)
    requires Inv(s) && a in s.attempts && s.attempts[a].phase == LookingUp
    ensures Inv(Step(s, Lookup(a)))
  {
    var request := s.attempts[a].request;
    if request.id in s.keys {
      var e :| e in s.effects && e.id == request.id && Records(s.keys[request.id], e);
      var phase := Replay(s.keys[request.id], request);
      if phase.Answered? {
        assert Answers(a, s.attempts[a].(phase := phase), e);
      }
      MovedKeepsInv(s, a, phase);
    } else {
      MovedKeepsInv(s, a, Failed);
    }
  }

  lemma StepKeepsInv(s: State, action: Action)
    requires Inv(s)
    ensures Inv(Step(s, action))
  {
    match action
    case Claim(a, request, now) => ClaimKeepsInv(s, a, request, now);
    case Work(a, outcome) =>
      if InFlight(s, a) && s.attempts[a].phase.value.None? {
        match outcome {
          case Value(response) => MovedKeepsInv(s, a, s.attempts[a].phase.(value := Some(response)));
          case UniqueViolation => MovedKeepsInv(s, a, LookingUp);
          case Error => MovedKeepsInv(s, a, Failed);
        }
      }
    case Store(a) =>
      if InFlight(s, a) && s.attempts[a].phase.value.Some? {
        MovedKeepsInv(s, a, s.attempts[a].phase.(stored := true));
      }
    case Settle(a, answerLost) =>
      if InFlight(s, a) && s.attempts[a].phase.stored && s.attempts[a].phase.value.Some? {
        SettleKeepsInv(s, a, answerLost);
      }
    case Abort(a) =>
      if InFlight(s, a) {
        MovedKeepsInv(s, a, Failed);
      }
    case Lookup(a) =>
      if a in s.attempts && s.attempts[a].phase == LookingUp {
        LookupKeepsInv(s, a);
      }
    case Prune(now) => PruneKeepsInv(s, now);
  }

  lemma {:induction false} RunKeepsInv(s: State, actions: seq<Action>)
    requires Inv(s)
    ensures Inv(Run(s, actions))
    decreases |actions|
  {
    if actions != [] {
      StepKeepsInv(s, actions[0]);
      RunKeepsInv(Step(s, actions[0]), actions[1..]);
    }
  }

  // -------------------------------------------------------------- promises

  lemma {:induction false} OneEffectOnly(effects: seq<Effect>, x: Effect, y: Effect)
    requires x in effects && y in effects && x.id == y.id && EffectsOf(effects, x.id) <= 1
    ensures x == y
  {
    if x == effects[0] || y == effects[0] {
      var other := if x == effects[0] then y else x;
      if other in effects[1..] {
        EffectCounted(effects[1..], other);
      }
    } else {
      OneEffectOnly(effects[1..], x, y);
    }
  }

  lemma {:induction false} EffectCounted(effects: seq<Effect>, e: Effect)
    requires e in effects
    ensures EffectsOf(effects, e.id) >= 1
  {
    if e != effects[0] {
      EffectCounted(effects[1..], e);
    }
  }

  /** However attempts under one key interleave, fail and lose their answers: while the key is
      not pruned the work commits at most once, and the key row is there exactly when it did. */
  lemma CommitsAtMostOnce(actions: seq<Action>, id: KeyId)
    ensures
      var s := Run(EMPTY, actions);
      && EffectsOf(s.effects, id) == s.pruned[id] + (if id in s.keys then 1 else 0)
      && (s.pruned[id] == 0 ==> EffectsOf(s.effects, id) <= 1 && (id in s.keys <==> EffectsOf(s.effects, id) == 1))
  {
    RunKeepsInv(EMPTY, actions);
  }

  /** Two callers answered under one unpruned key asked for the same thing, down to the meaning
      of the body, and were told the same thing: a reused key never replays another request. */
  lemma SameKeySameAnswer(actions: seq<Action>, a: nat, b: nat)
    requires
      var s := Run(EMPTY, actions);
      && a in s.attempts && b in s.attempts
      && s.attempts[a].phase.Answered? && s.attempts[b].phase.Answered?
      && s.attempts[a].request.id == s.attempts[b].request.id
      && s.pruned[s.attempts[a].request.id] == 0
      && WellFormed(s.attempts[a].request.body) && WellFormed(s.attempts[b].request.body)
    ensures
      var s := Run(EMPTY, actions);
      var x, y := s.attempts[a], s.attempts[b];
      && x.request.endpoint == y.request.endpoint && Same(x.request.body, y.request.body)
      && x.phase.response == y.phase.response && x.phase.statusCode == y.phase.statusCode
      && (a != b ==> x.phase.replayed || y.phase.replayed)
  {
    hide Run, WellFormed, Same, Stringify;
    var s := Run(EMPTY, actions);
    RunKeepsInv(EMPTY, actions);
    var e :| e in s.effects && Answers(a, s.attempts[a], e);
    var f :| f in s.effects && Answers(b, s.attempts[b], f);
    var id := s.attempts[a].request.id;
    assert EffectsOf(s.effects, id) == s.pruned[id] + (if id in s.keys then 1 else 0);
    OneEffectOnly(s.effects, e, f);
    CanonicalText(s.attempts[a].request.body, s.attempts[b].request.body);
  }

  /** An attempt that ends in a conflict, an error or a replay has done nothing. */
  lemma OnlyExecutionsHaveEffects(actions: seq<Action>, e: Effect)
    requires e in Run(EMPTY, actions).effects
    ensures
      var s := Run(EMPTY, actions);
      e.attempt in s.attempts && Executed(s.attempts[e.attempt].phase) && s.attempts[e.attempt].request.id == e.id
  {
    RunKeepsInv(EMPTY, actions);
  }

  /** Who is told what: a caller whose key is taken gets the committed answer, replayed, exactly when it
      asked the same route for the same thing as the caller that executed, and a conflict otherwise. */
  lemma LookupTells(actions: seq<Action>, a: nat, e: Effect)
    requires
      var s := Run(EMPTY, actions);
      && a in s.attempts && s.attempts[a].phase == LookingUp
      && e in s.effects && e.id == s.attempts[a].request.id && s.pruned[e.id] == 0
      && e.attempt in s.attempts
      && WellFormed(s.attempts[a].request.body) && WellFormed(s.attempts[e.attempt].request.body)
    ensures
      var s := Run(EMPTY, actions);
      var asked, executed := s.attempts[a].request, s.attempts[e.attempt].request;
      var told := Step(s, Lookup(a)).attempts[a].phase;
      var sameRequest := asked.endpoint == executed.endpoint && Same(asked.body, executed.body);
      && (told == Answered(e.response, executed.status, true) <==> sameRequest)
      && (told == Conflict <==> !sameRequest)
      && Step(s, Lookup(a)).effects == s.effects && Step(s, Lookup(a)).keys == s.keys
  {
    hide Run, WellFormed, Same, Stringify;
    var s := Run(EMPTY, actions);
    RunKeepsInv(EMPTY, actions);
    var id := e.id;
    EffectCounted(s.effects, e);
    assert EffectsOf(s.effects, id) == s.pruned[id] + (if id in s.keys then 1 else 0);
    var recorded :| recorded in s.effects && recorded.id == id && Records(s.keys[id], recorded);
    OneEffectOnly(s.effects, e, recorded);
    CanonicalText(s.attempts[a].request.body, s.attempts[e.attempt].request.body);
  }

  /** With no committed work left under the key there is nothing to replay, and the error stands. */
  lemma NothingToReplay(actions: seq<Action>, a: nat)
    requires
      var s := Run(EMPTY, actions);
      && a in s.attempts && s.attempts[a].phase == LookingUp
      && EffectsOf(s.effects, s.attempts[a].request.id) == s.pruned[s.attempts[a].request.id]
    ensures Step(Run(EMPTY, actions), Lookup(a)).attempts[a].phase == Failed
  {
    hide Run;
    var s := Run(EMPTY, actions);
    RunKeepsInv(EMPTY, actions);
    var id := s.attempts[a].request.id;
    assert EffectsOf(s.effects, id) == s.pruned[id] + (if id in s.keys then 1 else 0);
  }

  // ------------------------------------------------------------ safe pruning

  /** Every action happens inside one retention period starting at `start`. */
  predicate WithinRetention(actions: seq<Action>, start: int) {
    forall action :: action in actions ==>
      (action.Claim? ==> action.now >= start) && (action.Prune? ==> action.now <= start + RETENTION_MS)
  }

  ghost predicate Young(s: State, start: int) {
    && s.pruned == multiset{}
    && (forall id :: id in s.keys ==> s.keys[id].createdAt >= start)
    && (forall a :: InFlight(s, a) ==> s.attempts[a].phase.claimedAt >= start)
  }

  lemma {:induction false} NothingPruned(s: State, actions: seq<Action>, start: int)
    requires WithinRetention(actions, start) && Young(s, start)
    ensures Young(Run(s, actions), start)
    decreases |actions|
  {
    if actions != [] {
      assert actions[0] in actions && forall x :: x in actions[1..] ==> x in actions;
      var next := Step(s, actions[0]);
      if actions[0].Prune? {
        assert Expired(s.keys, actions[0].now) == {};
      }
      forall a | InFlight(next, a)
        ensures next.attempts[a].phase.claimedAt >= start
      {
        assert InFlight(s, a) || actions[0].Claim?;
      }
      NothingPruned(next, actions[1..], start);
    }
  }

  /** A month of retries is safe: within one retention period no pruning can make a key
      execute twice. */
  lemma RetriesWithinRetention(actions: seq<Action>, start: int, id: KeyId)
    requires WithinRetention(actions, start)
    ensures EffectsOf(Run(EMPTY, actions).effects, id) <= 1
  {
    NothingPruned(EMPTY, actions, start);
    CommitsAtMostOnce(actions, id);
  }

  /** An attempt followed from its claim to the end of its transaction. */
  function Followed(s: State, a: nat, request: Request, now: int, response: string): State {
    Step(Step(Step(Step(s, Claim(a, request, now)), Work(a, Value(response))), Store(a)), Settle(a, false))
  }

  /** Nobody is inside a transaction that has claimed this key. */
  ghost predicate NobodyHolds(s: State, id: KeyId) {
    forall b :: b in s.attempts && s.attempts[b].phase.InTransaction? ==> s.attempts[b].request.id != id
  }

  /** On a free key the work is done once and its caller answered. */
  lemma FreeKeyExecutes(s: State, a: nat, request: Request, now: int, response: string)
    requires a !in s.attempts && request.id !in s.keys && NobodyHolds(s, request.id)
    ensures
      var done := Followed(s, a, request, now, response);
      && done.effects == s.effects
           + [Effect(a, request.id, request.endpoint, RequestHash(request), request.status, response)]
      && done.attempts == s.attempts[a := Attempt(request, Answered(response, request.status, false))]
      && done.keys ==
           s.keys[request.id := KeyRow(request.endpoint, RequestHash(request), request.status, response, now)]
  {
    var claimed := Step(s, Claim(a, request, now));
    assert claimed.attempts == s.attempts[a := Attempt(request, InTransaction(now, None, false))];
    var worked := Step(claimed, Work(a, Value(response)));
    assert worked.attempts == s.attempts[a := Attempt(request, InTransaction(now, Some(response), false))];
    var stored := Step(worked, Store(a));
    assert stored.attempts == s.attempts[a := Attempt(request, InTransaction(now, Some(response), true))];
  }

  /** On a taken key nothing is done, and the caller is left to look the answer up. */
  lemma TakenKeyDoesNotExecute(s: State, a: nat, request: Request, now: int, response: string)
    requires a !in s.attempts && request.id in s.keys && NobodyHolds(s, request.id)
    ensures Followed(s, a, request, now, response) == s.(attempts := s.attempts[a := Attempt(request, LookingUp)])
  {
    var claimed := Step(s, Claim(a, request, now));
    assert claimed.attempts[a] == Attempt(request, LookingUp);
    assert Step(claimed, Work(a, Value(response))) == claimed;
  }

  /** What fails leaves nothing behind: an error or a dropped transaction ends the attempt, a unique row that
      was in the way sends it to look the answer up. A lost answer is an answer all the same, for everybody
      but the caller. */
  lemma FailuresLeaveNothing(s: State, a: nat)
    requires InFlight(s, a)
    ensures Step(s, Abort(a)) == Ended(s, a, Failed)
    ensures s.attempts[a].phase.value.None? ==>
      && Step(s, Work(a, Error)) == Ended(s, a, Failed)
      && Step(s, Work(a, UniqueViolation)) == Ended(s, a, LookingUp)
    ensures s.attempts[a].phase.value.Some? && s.attempts[a].phase.stored ==>
      var told, lost := Step(s, Settle(a, false)), Step(s, Settle(a, true));
      lost.keys == told.keys && lost.effects == told.effects && lost.attempts == Ended(s, a, AnswerLost).attempts
  {
  }

  /** Nothing has changed but how far this attempt has come. */
  function Ended(s: State, a: nat, phase: Phase): State
    requires a in s.attempts
  {
    State(s.keys, s.attempts[a := Attempt(s.attempts[a].request, phase)], s.effects, s.pruned)
  }

  /** While another transaction holds the key, a claim waits. */
  lemma HeldKeyWaits(s: State, a: nat, request: Request, now: int)
    requires a !in s.attempts && !NobodyHolds(s, request.id)
    ensures Step(s, Claim(a, request, now)) == s
  {
  }

  /** A request that was executed, asked again under its key: the same thing gets the same answer
      without being done again, anything else a conflict. */
  lemma RetryIsAnswered(s: State, a: nat, b: nat, request: Request, retry: Request, now: int, later: int,
                        response: string, other: string)
    requires a !in s.attempts && b !in s.attempts && a != b && retry.id == request.id
    requires request.id !in s.keys && NobodyHolds(s, request.id)
    requires WellFormed(request.body) && WellFormed(retry.body)
    ensures
      var done := Followed(s, a, request, now, response);
      var again := Step(Followed(done, b, retry, later, other), Lookup(b));
      && again.effects == done.effects && b in again.attempts
      && again.attempts[b].phase ==
           if retry.endpoint == request.endpoint && Same(retry.body, request.body)
           then Answered(response, request.status, true) else Conflict
  {
    hide Followed, WellFormed, Same, Stringify, Step;
    FreeKeyExecutes(s, a, request, now, response);
    var done := Followed(s, a, request, now, response);
    TakenKeyDoesNotExecute(done, b, retry, later, other);
    LookedUp(Followed(done, b, retry, later, other), b, retry);
    CanonicalText(retry.body, request.body);
  }

  lemma LookedUp(s: State, b: nat, retry: Request)
    requires b in s.attempts && s.attempts[b] == Attempt(retry, LookingUp) && retry.id in s.keys
    ensures
      var row := s.keys[retry.id];
      && Step(s, Lookup(b)).effects == s.effects && b in Step(s, Lookup(b)).attempts
      && Step(s, Lookup(b)).attempts[b].phase ==
           if retry.endpoint == row.endpoint && RequestHash(retry) == row.requestHash
           then Answered(row.response, row.statusCode, true) else Conflict
  {
  }

  /** The guarantee ends exactly with retention: after a pruning pass, a retry of a committed
      request executes a second time if and only if its row was old enough to be pruned. */
  lemma RetryExecutesAgainIffExpired(s: State, a: nat, request: Request, now: int, response: string)
    requires ClaimsExclusive(s) && a !in s.attempts && request.id in s.keys
    ensures EffectsOf(Followed(Step(s, Prune(now)), a, request, now, response).effects, request.id) ==
      EffectsOf(s.effects, request.id)
        + (if s.keys[request.id].createdAt < now - 30 * 24 * 60 * 60 * 1000 then 1 else 0)
  {
    var pruned := Step(s, Prune(now));
    assert forall b :: InFlight(pruned, b) ==> InFlight(s, b);
    if s.keys[request.id].createdAt < now - RETENTION_MS {
      FreeKeyExecutes(pruned, a, request, now, response);
      EffectsOfAppend(s.effects,
                      Effect(a, request.id, request.endpoint, RequestHash(request), request.status, response),
                      request.id);
    } else {
      TakenKeyDoesNotExecute(pruned, a, request, now, response);
    }
  }
}
