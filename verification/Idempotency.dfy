/** The idempotency protocol: requests racing through the middleware over a shared key table, with
    crashes, failing handlers and failing completions between any two statements.

    Each SQL statement is one atomic step. A scope is the (key, user, method, path) of a request; the
    request hash is compared as a value. Clocks are read anew by every step and need not agree. */
module IdempotencyProtocol {
  import opened Options

  datatype Scope = Scope(key: string, user: nat, verb: string, path: string)

  datatype Response = Response(status: int, body: seq<int>)

  /** What a handler writes: a status, or a piece of the body. */
  datatype Output = SetStatus(code: int) | WriteBody(bytes: seq<int>)

  datatype Row = Row(id: nat, hash: string, response: Option<Response>, lockedUntil: int, expiresAt: int)

  datatype Reply =
    | FromHandler(response: Response)
    | Replay(response: Response)
    | KeyConflict | KeyReused | OutcomeUnknown | InProgress
    | CompletionUnknown | CompletionFailed | CheckFailed

  datatype Stage =
    | Arrived | Purged | Conflicted | Executing
    | Handled(response: Response)
    | Responded(reply: Reply)

  datatype Request = Request(scope: Scope, hash: string, createdAt: int, stage: Stage)

  /** What an observer of the table and the handlers sees. */
  datatype Observation =
    | Started(scope: Scope, id: nat, hash: string)
    | Completed(scope: Scope, id: nat, response: Response)
    | Expired(scope: Scope, id: nat, expiresAt: int, now: int)
    | Replayed(scope: Scope, hash: string, response: Response)

  /** `requests[i]` is request i, also the id of the row it inserts. */
  datatype System = System(table: map<Scope, Row>, requests: seq<Request>, log: seq<Observation>)

  const RETENTION: int := 86_400
  const LOCK_TIME: int := 30

  predicate IsExpired(row: Row, now: int) {
    row.response.Some? && row.expiresAt <= now
  }

  function Purge(table: map<Scope, Row>, now: int): map<Scope, Row> {
    map s | s in table && !IsExpired(table[s], now) :: table[s]
  }

  function NewRow(id: nat, r: Request): Row {
    Row(id, r.hash, None, r.createdAt + LOCK_TIME, r.createdAt + RETENTION)
  }

  function Look(table: map<Scope, Row>, r: Request, now: int, clock: int): Reply {
    if r.scope !in table || table[r.scope].expiresAt <= now then KeyConflict
    else
      var row := table[r.scope];
      if row.hash != r.hash then KeyReused
      else if row.response.Some? then Replay(row.response.value)
      else if clock < row.lockedUntil then InProgress
      else OutcomeUnknown
  }

  predicate IsOpen(table: map<Scope, Row>, scope: Scope, id: nat) {
    scope in table && table[scope].id == id && table[scope].response.None?
  }

  function CompletionError(response: Response): Reply {
    if 200 <= response.status < 300 then CompletionUnknown else CompletionFailed
  }

  datatype Action =
    | Arrive(scope: Scope, hash: string, now: int)
    | PurgeExpired(request: nat, now: int)
    | InsertPending(request: nat)
    | Get(request: nat, now: int, clock: int)
    | Handle(request: nat, outputs: seq<Output>)
    | Complete(request: nat)
    | CompleteUnacknowledged(request: nat)
    | CompleteRefused(request: nat)
    | StoreFails(request: nat)
    | Crash(request: nat)

  // ---- What a handler's writes amount to

  /** The status the first write decides: itself, or 200 if it is a piece of the body; 0 if nothing does. */
  function FirstStatus(outputs: seq<Output>): int {
    if outputs == [] then 0
    else match outputs[0]
      case SetStatus(code) => if code != 0 then code else FirstStatus(outputs[1..])
      case WriteBody(_) => 200
  }

  function BodyOf(outputs: seq<Output>): seq<int> {
    if outputs == [] then []
    else (if outputs[0].WriteBody? then outputs[0].bytes else []) + BodyOf(outputs[1..])
  }

  function ResponseTo(outputs: seq<Output>): Response {
    Response(if FirstStatus(outputs) == 0 then 200 else FirstStatus(outputs), BodyOf(outputs))
  }

  // ---- Steps

  function At(s: System, i: nat): Stage
    requires i < |s.requests|
  {
    s.requests[i].stage
  }

  function Move(s: System, i: nat, stage: Stage): System
    requires i < |s.requests|
  {
    s.(requests := s.requests[i := s.requests[i].(stage := stage)])
  }

  function ExpiredScopes(table: map<Scope, Row>, now: int): set<Scope> {
    set s | s in table && IsExpired(table[s], now)
  }

  /** The observations of a purge, in some order. */
  ghost function Expiries(table: map<Scope, Row>, scopes: set<Scope>, now: int): seq<Observation>
    requires scopes <= table.Keys
    decreases scopes
  {
    if scopes == {} then []
    else
      var s :| s in scopes;
      Expiries(table, scopes - {s}, now) + [Expired(s, table[s].id, table[s].expiresAt, now)]
  }

  function Completing(s: System, i: nat): System
    requires i < |s.requests| && IsOpen(s.table, s.requests[i].scope, i) && At(s, i).Handled?
  {
    var r := s.requests[i];
    s.(table := s.table[r.scope := s.table[r.scope].(response := Some(r.stage.response))],
       log := s.log + [Completed(r.scope, i, r.stage.response)])
  }

  /** One atomic step; an action that does not fit its request's stage does nothing. */
  ghost function Apply(s: System, a: Action): System {
    if a.Arrive? then s.(requests := s.requests + [Request(a.scope, a.hash, a.now, Arrived)])
    else if a.request >= |s.requests| then s
    else
      var i := a.request;
      var r := s.requests[i];
      match a
      case PurgeExpired(_, now) =>
        if r.stage.Arrived?
        then Move(s, i, Purged).(table := Purge(s.table, now),
          log := s.log + Expiries(s.table, ExpiredScopes(s.table, now), now))
        else s
      case InsertPending(_) =>
        if !r.stage.Purged? then s
        else if r.scope in s.table then Move(s, i, Conflicted)
        else Move(s, i, Executing).(table := s.table[r.scope := NewRow(i, r)],
          log := s.log + [Started(r.scope, i, r.hash)])
      case Get(_, now, clock) =>
        if !r.stage.Conflicted? then s
        else
          var reply := Look(s.table, r, now, clock);
          var s' := Move(s, i, Responded(reply));
          if reply.Replay? then s'.(log := s.log + [Replayed(r.scope, r.hash, reply.response)]) else s'
      case Handle(_, outputs) =>
        var response := ResponseTo(outputs);
        if !r.stage.Executing? then s
        else if response.status >= 500 then Move(s, i, Responded(FromHandler(response)))
        else Move(s, i, Handled(response))
      case Complete(_) =>
        if !r.stage.Handled? then s
        else if IsOpen(s.table, r.scope, i) then Move(Completing(s, i), i, Responded(FromHandler(r.stage.response)))
        else Move(s, i, Responded(CompletionError(r.stage.response)))
      case CompleteUnacknowledged(_) =>
        if r.stage.Handled? && IsOpen(s.table, r.scope, i)
        then Move(Completing(s, i), i, Responded(CompletionError(r.stage.response))) else s
      case CompleteRefused(_) =>
        if r.stage.Handled? then Move(s, i, Responded(CompletionError(r.stage.response))) else s
      case StoreFails(_) =>
        if r.stage.Arrived? || r.stage.Purged? || r.stage.Conflicted? then Move(s, i, Responded(CheckFailed)) else s
      case Crash(_) => if r.stage.Responded? then s else Move(s, i, Responded(CheckFailed))
  }

  const START := System(map[], [], [])

  ghost function Play(actions: seq<Action>): System {
    if actions == [] then START else Apply(Play(actions[..|actions| - 1]), actions[|actions| - 1])
  }

  // ---- What may be observed of one scope

  /** The life of a scope: free, executing once, completed, and free again after expiry. */
  datatype Phase =
    | Free
    | Running(id: nat, hash: string)
    | Done(id: nat, hash: string, response: Response)
    | Broken

  function Watch(phase: Phase, o: Observation): Phase {
    match o
    case Started(_, id, hash) => if phase.Free? then Running(id, hash) else Broken
    case Completed(_, id, response) =>
      if phase.Running? && phase.id == id && response.status < 500 then Done(id, phase.hash, response) else Broken
    case Expired(_, id, expiresAt, now) => if phase.Done? && phase.id == id && expiresAt <= now then Free else Broken
    case Replayed(_, hash, response) =>
      if phase.Done? && phase.hash == hash && phase.response == response then phase else Broken
  }

  function PhaseOf(log: seq<Observation>, scope: Scope): Phase {
    if log == [] then Free
    else
      var before := PhaseOf(log[..|log| - 1], scope);
      if log[|log| - 1].scope == scope then Watch(before, log[|log| - 1]) else before
  }

  /** The phase the table shows for a scope. */
  function Shown(table: map<Scope, Row>, scope: Scope): Phase {
    if scope !in table then Free
    else
      var row := table[scope];
      if row.response.Some? then Done(row.id, row.hash, row.response.value) else Running(row.id, row.hash)
  }

  // ---- The invariant

  ghost predicate TableFollowsLog(s: System) {
    forall scope :: PhaseOf(s.log, scope) == Shown(s.table, scope)
  }

  /** A request past its insert and not yet answered owns an open row; handled responses are final. */
  ghost predicate ExecutorsOwnRows(s: System) {
    forall i :: 0 <= i < |s.requests| && (At(s, i).Executing? || At(s, i).Handled?) ==>
      && IsOpen(s.table, s.requests[i].scope, i) && s.table[s.requests[i].scope].hash == s.requests[i].hash
      && (At(s, i).Handled? ==> At(s, i).response.status < 500)
  }

  ghost predicate Kept(s: System) {
    TableFollowsLog(s) && ExecutorsOwnRows(s)
  }

  lemma PhaseSnoc(log: seq<Observation>, o: Observation, scope: Scope)
    ensures PhaseOf(log + [o], scope) == if o.scope == scope then Watch(PhaseOf(log, scope), o) else PhaseOf(log, scope)
  {
    assert (log + [o])[..|log|] == log;
  }

  /** A purge frees exactly the expired scopes. */
  lemma {:induction false} PhaseAfterPurge(log: seq<Observation>, table: map<Scope, Row>, scopes: set<Scope>,
      now: int, scope: Scope)
    requires scopes <= table.Keys && forall s :: s in scopes ==> IsExpired(table[s], now)
    requires PhaseOf(log, scope) == Shown(table, scope)
    ensures PhaseOf(log + Expiries(table, scopes, now), scope) == if scope in scopes then Free else Shown(table, scope)
    decreases scopes
  {
    if scopes == {} {
      assert log + [] == log;
    } else {
      var s :| s in scopes && Expiries(table, scopes, now) ==
        Expiries(table, scopes - {s}, now) + [Expired(s, table[s].id, table[s].expiresAt, now)];
      PhaseAfterPurge(log, table, scopes - {s}, now, scope);
      var rest, last := Expiries(table, scopes - {s}, now), Expired(s, table[s].id, table[s].expiresAt, now);
      assert log + (rest + [last]) == (log + rest) + [last];
      PhaseSnoc(log + rest, last, scope);
    }
  }

  lemma PurgeKeeps(s: System, i: nat, now: int)
    requires Kept(s) && i < |s.requests|
    ensures Kept(Apply(s, PurgeExpired(i, now)))
  {
    var s' := Apply(s, PurgeExpired(i, now));
    if At(s, i).Arrived? {
      forall scope ensures PhaseOf(s'.log, scope) == Shown(s'.table, scope) {
        PhaseAfterPurge(s.log, s.table, ExpiredScopes(s.table, now), now, scope);
      }
    }
  }

  lemma LogKeeps(s: System, s': System, o: Observation)
    requires TableFollowsLog(s) && s'.log == s.log + [o]
    requires forall scope :: scope != o.scope ==> Shown(s'.table, scope) == Shown(s.table, scope)
    requires Watch(Shown(s.table, o.scope), o) == Shown(s'.table, o.scope)
    ensures TableFollowsLog(s')
  {
    forall scope ensures PhaseOf(s'.log, scope) == Shown(s'.table, scope) {
      PhaseSnoc(s.log, o, scope);
    }
  }

  lemma InsertKeeps(s: System, i: nat)
    requires Kept(s) && i < |s.requests|
    ensures Kept(Apply(s, InsertPending(i)))
  {
    hide PhaseOf;
    var r, s' := s.requests[i], Apply(s, InsertPending(i));
    if r.stage.Purged? && r.scope !in s.table {
      LogKeeps(s, s', Started(r.scope, i, r.hash));
    }
  }

  lemma GetKeeps(s: System, i: nat, now: int, clock: int)
    requires Kept(s) && i < |s.requests|
    ensures Kept(Apply(s, Get(i, now, clock)))
  {
    hide PhaseOf;
    var r, s' := s.requests[i], Apply(s, Get(i, now, clock));
    if r.stage.Conflicted? && Look(s.table, r, now, clock).Replay? {
      LogKeeps(s, s', Replayed(r.scope, r.hash, Look(s.table, r, now, clock).response));
    }
  }

  lemma CompletingKeeps(s: System, i: nat, reply: Reply)
    requires Kept(s) && i < |s.requests| && IsOpen(s.table, s.requests[i].scope, i) && At(s, i).Handled?
    ensures Kept(Move(Completing(s, i), i, Responded(reply)))
  {
    hide PhaseOf;
    var r, s' := s.requests[i], Move(Completing(s, i), i, Responded(reply));
    LogKeeps(s, s', Completed(r.scope, i, r.stage.response));
  }

  lemma StepKeeps(s: System, a: Action)
    requires Kept(s)
    ensures Kept(Apply(s, a))
  {
    hide PhaseOf, Expiries;
    if !a.Arrive? && a.request < |s.requests| {
      match a
      case PurgeExpired(i, now) => PurgeKeeps(s, i, now);
      case InsertPending(i) => InsertKeeps(s, i);
      case Get(i, now, clock) => GetKeeps(s, i, now, clock);
      case Complete(i) =>
        if At(s, i).Handled? { CompletingKeeps(s, i, FromHandler(At(s, i).response)); }
      case CompleteUnacknowledged(i) =>
        if At(s, i).Handled? { CompletingKeeps(s, i, CompletionError(At(s, i).response)); }
      case _ =>
    }
  }

  /** In every interleaving, with crashes and failures anywhere, each scope is only ever observed to
      start once, complete once, replay what was completed, and start again after expiry; and the
      table shows exactly that phase. */
  lemma {:induction false} EveryRunKeeps(actions: seq<Action>)
    ensures Kept(Play(actions))
  {
    hide Kept, Apply;
    if actions == [] {
      StartIsKept();
    } else {
      EveryRunKeeps(actions[..|actions| - 1]);
      StepKeeps(Play(actions[..|actions| - 1]), actions[|actions| - 1]);
    }
  }

  lemma StartIsKept()
    ensures Kept(START)
  {
  }

  // ---- What it means for callers

  /** Two requests never execute the same scope at once. */
  lemma OneExecutor(actions: seq<Action>, i: nat, j: nat)
    requires var s := Play(actions);
             && i < |s.requests| && j < |s.requests| && s.requests[i].scope == s.requests[j].scope
             && (At(s, i).Executing? || At(s, i).Handled?) && (At(s, j).Executing? || At(s, j).Handled?)
    ensures i == j
  {
    hide Play;
    EveryRunKeeps(actions);
  }

  /** A log that is sound now was sound at every moment before. */
  lemma {:induction false} SoundBefore(log: seq<Observation>, scope: Scope, k: nat)
    requires k <= |log| && PhaseOf(log, scope) != Broken
    ensures PhaseOf(log[..k], scope) != Broken
    decreases |log|
  {
    if k < |log| {
      var shorter := log[..|log| - 1];
      SoundBefore(shorter, scope, k);
      assert shorter[..k] == log[..k];
    } else {
      assert log[..k] == log;
    }
  }

  lemma NextPhase(log: seq<Observation>, scope: Scope, k: nat)
    requires k < |log|
    ensures PhaseOf(log[..k + 1], scope) ==
            if log[k].scope == scope then Watch(PhaseOf(log[..k], scope), log[k]) else PhaseOf(log[..k], scope)
  {
    assert log[..k + 1] == log[..k] + [log[k]];
    PhaseSnoc(log[..k], log[k], scope);
  }

  /** From an execution to a free scope there is no way but its completion. */
  lemma FindCompletion(log: seq<Observation>, scope: Scope, p: nat, q: nat) returns (k: nat)
    requires p <= q <= |log| && PhaseOf(log, scope) != Broken
    requires PhaseOf(log[..p], scope).Running? && PhaseOf(log[..q], scope).Free?
    ensures var id := PhaseOf(log[..p], scope).id;
            && p <= k < q && log[k].Completed? && log[k].scope == scope && log[k].id == id
            && PhaseOf(log[..k + 1], scope).Done? && PhaseOf(log[..k + 1], scope).id == id
    decreases q - p
  {
    hide PhaseOf;
    SoundBefore(log, scope, p + 1);
    NextPhase(log, scope, p);
    if log[p].scope == scope {
      k := p;
    } else {
      k := FindCompletion(log, scope, p + 1, q);
    }
  }

  /** And from a completion no way but its expiry. */
  lemma FindExpiry(log: seq<Observation>, scope: Scope, p: nat, q: nat) returns (k: nat)
    requires p <= q <= |log| && PhaseOf(log, scope) != Broken
    requires PhaseOf(log[..p], scope).Done? && PhaseOf(log[..q], scope).Free?
    ensures p <= k < q && log[k].Expired? && log[k].scope == scope && log[k].id == PhaseOf(log[..p], scope).id
    ensures log[k].expiresAt <= log[k].now
    decreases q - p
  {
    hide PhaseOf;
    SoundBefore(log, scope, p + 1);
    NextPhase(log, scope, p);
    if log[p].scope == scope && log[p].Expired? {
      k := p;
    } else {
      k := FindExpiry(log, scope, p + 1, q);
    }
  }

  /** Two executions of one scope are separated by the recorded completion of the first and its expiry;
      a pending record is therefore never executed again. */
  lemma ExecutionsAreSeparated(actions: seq<Action>, scope: Scope, i: nat, j: nat)
      returns (completion: nat, expiry: nat)
    requires var log := Play(actions).log;
             && i < j < |log| && log[i].Started? && log[i].scope == scope && log[j].Started? && log[j].scope == scope
    ensures var log := Play(actions).log;
            && i < completion < expiry < j
            && log[completion].Completed? && log[completion].scope == scope && log[completion].id == log[i].id
            && log[expiry].Expired? && log[expiry].scope == scope && log[expiry].id == log[i].id
            && log[expiry].expiresAt <= log[expiry].now
  {
    hide Play, PhaseOf;
    EveryRunKeeps(actions);
    var log := Play(actions).log;
    LogIsSound(Play(actions), scope);
    SoundBefore(log, scope, i + 1);
    SoundBefore(log, scope, j + 1);
    NextPhase(log, scope, i);
    NextPhase(log, scope, j);
    completion := FindCompletion(log, scope, i + 1, j);
    expiry := FindExpiry(log, scope, completion + 1, j);
  }

  lemma LogIsSound(s: System, scope: Scope)
    requires Kept(s)
    ensures PhaseOf(s.log, scope) != Broken
  {
    hide PhaseOf;
    assert PhaseOf(s.log, scope) == Shown(s.table, scope);
  }

  lemma FindStart(log: seq<Observation>, scope: Scope, q: nat) returns (i: nat)
    requires q <= |log| && PhaseOf(log[..q], scope).Running?
    ensures var phase := PhaseOf(log[..q], scope); i < q && log[i] == Started(scope, phase.id, phase.hash)
    decreases q
  {
    var before := log[..q][..q - 1];
    assert before == log[..q - 1];
    NextPhase(log, scope, q - 1);
    if log[q - 1].scope == scope {
      i := q - 1;
    } else {
      i := FindStart(log, scope, q - 1);
    }
  }

  lemma FindRecord(log: seq<Observation>, scope: Scope, q: nat) returns (i: nat, k: nat)
    requires q <= |log| && PhaseOf(log[..q], scope).Done?
    ensures var phase := PhaseOf(log[..q], scope);
            i < k < q && log[i] == Started(scope, phase.id, phase.hash)
              && log[k] == Completed(scope, phase.id, phase.response)
    decreases q
  {
    assert log[..q] != [];
    NextPhase(log, scope, q - 1);
    if log[q - 1].scope == scope && log[q - 1].Completed? {
      k := q - 1;
      i := FindStart(log, scope, k);
    } else {
      i, k := FindRecord(log, scope, q - 1);
    }
  }

  /** Every replay returns exactly the recorded response of one earlier execution of its scope, which
      had the same request hash and did not end in a server error. */
  lemma ReplaysAreExact(actions: seq<Action>, j: nat) returns (start: nat, completion: nat)
    requires j < |Play(actions).log| && Play(actions).log[j].Replayed?
    ensures var log := Play(actions).log;
            && start < completion < j && log[start].Started? && log[start].scope == log[j].scope
              && log[start].hash == log[j].hash
            && log[completion] == Completed(log[j].scope, log[start].id, log[j].response)
            && log[j].response.status < 500
  {
    hide Play, PhaseOf;
    EveryRunKeeps(actions);
    var log := Play(actions).log;
    var scope := log[j].scope;
    LogIsSound(Play(actions), scope);
    SoundBefore(log, scope, j + 1);
    NextPhase(log, scope, j);
    start, completion := FindRecord(log, scope, j);
    SoundBefore(log, scope, completion + 1);
    NextPhase(log, scope, completion);
  }

  // ---- What a request is told

  lemma PhaseIsShown(actions: seq<Action>, scope: Scope)
    ensures PhaseOf(Play(actions).log, scope) == Shown(Play(actions).table, scope)
  {
    hide Play, PhaseOf;
    EveryRunKeeps(actions);
  }

  /** In every run a request that found its scope taken is answered by what has been observed of the scope:
      a completed execution is replayed to the same request, at any clock time, and refused to another; a
      running one is in progress until its lock is over and of unknown outcome after that. Only if the
      record has meanwhile been purged, or is past retention, is the key in conflict. */
  lemma TakenScopeIsAnswered(actions: seq<Action>, i: nat, now: int, clock: int)
    requires i < |Play(actions).requests| && At(Play(actions), i).Conflicted?
    ensures var s := Play(actions);
            var r, phase := s.requests[i], PhaseOf(s.log, s.requests[i].scope);
            var stage := Apply(s, Get(i, now, clock)).requests[i].stage;
            if phase.Free? || (r.scope in s.table && s.table[r.scope].expiresAt <= now)
              then stage == Responded(KeyConflict)
            else
              && (phase.Running? || phase.Done?) && r.scope in s.table
              && (phase.hash != r.hash ==> stage == Responded(KeyReused))
              && (phase.hash == r.hash && phase.Done? ==> stage == Responded(Replay(phase.response)))
              && (phase.hash == r.hash && phase.Running? ==>
                    stage == Responded(if clock < s.table[r.scope].lockedUntil then InProgress else OutcomeUnknown))
  {
    hide Play, PhaseOf;
    PhaseIsShown(actions, Play(actions).requests[i].scope);
  }

  /** A completion that fails leaves the scope running, one that is lost on the way back has recorded it; the
      caller is told that the outcome is unknown if the handler had succeeded, and that it failed if not. */
  lemma FailedCompletion(actions: seq<Action>, i: nat)
    requires i < |Play(actions).requests| && At(Play(actions), i).Handled?
    ensures var s, r := Play(actions), Play(actions).requests[i];
            var response := r.stage.response;
            var refused, lost := Apply(s, CompleteRefused(i)), Apply(s, CompleteUnacknowledged(i));
            var told := if 200 <= response.status && response.status <= 299 then CompletionUnknown
              else CompletionFailed;
            && refused.requests[i].stage == Responded(told) && lost.requests[i].stage == Responded(told)
            && PhaseOf(refused.log, r.scope) == Running(i, r.hash)
            && PhaseOf(lost.log, r.scope) == Done(i, r.hash, response)
  {
    hide Play, PhaseOf;
    EveryRunKeeps(actions);
    var s, r := Play(actions), Play(actions).requests[i];
    PhaseIsShown(actions, r.scope);
    PhaseSnoc(s.log, Completed(r.scope, i, r.stage.response), r.scope);
  }

  /** A failing statement or a crash before the answer ends the request and leaves the table as it is. */
  lemma FailuresRecordNothing(s: System, i: nat)
    requires i < |s.requests| && !At(s, i).Responded?
    ensures var crashed, failed := Apply(s, Crash(i)), Apply(s, StoreFails(i));
            && crashed.table == s.table && crashed.log == s.log && crashed.requests[i].stage.Responded?
            && failed.table == s.table && failed.log == s.log
            && (At(s, i).Arrived? || At(s, i).Purged? || At(s, i).Conflicted? ==>
                  failed.requests[i].stage == Responded(CheckFailed))
  {
  }

  /** A request whose scope is free becomes its executor, and keeps the lock time and the retention that
      follow from when it arrived. */
  lemma FreeScopeIsExecuted(actions: seq<Action>, i: nat)
    requires i < |Play(actions).requests| && At(Play(actions), i).Purged?
    requires PhaseOf(Play(actions).log, Play(actions).requests[i].scope).Free?
    ensures var s, r := Play(actions), Play(actions).requests[i];
            var s' := Apply(s, InsertPending(i));
            && At(s', i).Executing? && PhaseOf(s'.log, r.scope) == Running(i, r.hash)
            && r.scope in s'.table
            && s'.table[r.scope].lockedUntil == r.createdAt + 30 && s'.table[r.scope].expiresAt == r.createdAt + 86_400
  {
    hide Play, PhaseOf;
    var s, r := Play(actions), Play(actions).requests[i];
    PhaseIsShown(actions, r.scope);
    PhaseSnoc(s.log, Started(r.scope, i, r.hash), r.scope);
  }

  /** What a handler has written, unless it is a server error, is recorded by its completion and sent; from
      then on it is what the scope has observed, and stays so in the table until it is purged. */
  lemma CompletionIsRecorded(actions: seq<Action>, i: nat, outputs: seq<Output>)
    requires i < |Play(actions).requests| && At(Play(actions), i).Executing? && ResponseTo(outputs).status < 500
    ensures var s, r := Play(actions), Play(actions).requests[i];
            var s' := Apply(Apply(s, Handle(i, outputs)), Complete(i));
            && s'.requests[i].stage == Responded(FromHandler(ResponseTo(outputs)))
            && PhaseOf(s'.log, r.scope) == Done(i, r.hash, ResponseTo(outputs))
  {
    hide Play, PhaseOf, ResponseTo;
    EveryRunKeeps(actions);
    var s, r, response := Play(actions), Play(actions).requests[i], ResponseTo(outputs);
    PhaseIsShown(actions, r.scope);
    var handled := Apply(s, Handle(i, outputs));
    assert handled.table == s.table && handled.log == s.log;
    PhaseSnoc(s.log, Completed(r.scope, i, response), r.scope);
  }

  /** A server error is sent on and records nothing: the scope keeps running. */
  lemma ServerErrorStaysOpen(actions: seq<Action>, i: nat, outputs: seq<Output>)
    requires i < |Play(actions).requests| && At(Play(actions), i).Executing? && ResponseTo(outputs).status >= 500
    ensures var s, r := Play(actions), Play(actions).requests[i];
            var s' := Apply(s, Handle(i, outputs));
            && s'.requests[i].stage == Responded(FromHandler(ResponseTo(outputs)))
            && PhaseOf(s'.log, r.scope) == Running(i, r.hash)
  {
    hide Play, PhaseOf, ResponseTo;
    EveryRunKeeps(actions);
    PhaseIsShown(actions, Play(actions).requests[i].scope);
  }

  /** The purge of an arriving request frees exactly the completed scopes that are past retention. */
  lemma PurgeFreesExpired(actions: seq<Action>, i: nat, now: int, scope: Scope)
    requires i < |Play(actions).requests| && At(Play(actions), i).Arrived?
    ensures var s := Play(actions);
            var before, after := PhaseOf(s.log, scope), PhaseOf(Apply(s, PurgeExpired(i, now)).log, scope);
            after == if before.Done? && scope in s.table && s.table[scope].expiresAt <= now then Free else before
  {
    hide Play, PhaseOf;
    var s := Play(actions);
    PhaseIsShown(actions, scope);
    PhaseAfterPurge(s.log, s.table, ExpiredScopes(s.table, now), now, scope);
  }

  // ---- The key table and the captured response

  /** The key table behind its three statements. */
  class KeyTable {
    var rows: map<Scope, Row>

    constructor ()
      ensures rows == map[]
    {
      rows := map[];
    }

    method DeleteExpired(now: int)
      modifies this
      ensures rows == Purge(old(rows), now)
    {
      var kept: map<Scope, Row> := map[];
      var left := rows.Keys;
      while left != {}
        invariant left <= rows.Keys && unchanged(this)
        invariant kept == map s | s in rows && s !in left && !IsExpired(rows[s], now) :: rows[s]
      {
        var s :| s in left;
        left := left - {s};
        if !IsExpired(rows[s], now) {
          kept := kept[s := rows[s]];
        }
      }
      rows := kept;
    }

    /** Two statements: purge, then insert unless the scope is taken. */
    method CreatePending(id: nat, r: Request, now: int) returns (created: bool)
      modifies this
      ensures created == (r.scope !in Purge(old(rows), now))
      ensures rows == if created then Purge(old(rows), now)[r.scope := NewRow(id, r)] else Purge(old(rows), now)
    {
      DeleteExpired(now);
      created := r.scope !in rows;
      if created {
        rows := rows[r.scope := NewRow(id, r)];
      }
    }

    /** What a request is told that found its scope taken. */
    method AnswerTaken(r: Request, now: int, clock: int) returns (reply: Reply)
      ensures reply == Look(rows, r, now, clock)
      ensures reply.Replay? ==>
              r.scope in rows && rows[r.scope].hash == r.hash && rows[r.scope].response == Some(reply.response)
    {
      if r.scope !in rows || rows[r.scope].expiresAt <= now {
        return KeyConflict;
      }
      var row := rows[r.scope];
      if row.hash != r.hash {
        return KeyReused;
      }
      if row.response.None? {
        return if clock >= row.lockedUntil then OutcomeUnknown else InProgress;
      }
      return Replay(row.response.value);
    }

    method Complete(id: nat, scope: Scope, response: Response) returns (found: bool)
      modifies this
      ensures found == IsOpen(old(rows), scope, id)
      ensures rows == if found then old(rows)[scope := old(rows)[scope].(response := Some(response))] else old(rows)
    {
      found := scope in rows && rows[scope].id == id && rows[scope].response.None?;
      if found {
        rows := rows[scope := rows[scope].(response := Some(response))];
      }
    }
  }

  lemma {:induction false} OneMoreOutput(outputs: seq<Output>, o: Output)
    ensures FirstStatus(outputs + [o]) == if FirstStatus(outputs) != 0 then FirstStatus(outputs) else FirstStatus([o])
    ensures BodyOf(outputs + [o]) == BodyOf(outputs) + BodyOf([o])
  {
    if outputs == [] {
      assert outputs + [o] == [o];
    } else {
      assert (outputs + [o])[1..] == outputs[1..] + [o];
      OneMoreOutput(outputs[1..], o);
    }
  }

  /** The response a handler writes, held back until it is recorded. */
  class CapturedResponse {
    var status: int
    var body: seq<int>
    ghost var outputs: seq<Output>

    constructor ()
      ensures Valid() && outputs == []
    {
      status, body, outputs := 0, [], [];
    }

    ghost predicate Valid()
      reads this
    {
      status == FirstStatus(outputs) && body == BodyOf(outputs)
    }

    method WriteHeader(code: int)
      requires Valid()
      modifies this
      ensures Valid() && outputs == old(outputs) + [SetStatus(code)]
    {
      OneMoreOutput(outputs, SetStatus(code));
      outputs := outputs + [SetStatus(code)];
      if status != 0 {
        return;
      }
      status := code;
    }

    method Write(bytes: seq<int>)
      requires Valid()
      modifies this
      ensures Valid() && outputs == old(outputs) + [WriteBody(bytes)]
    {
      OneMoreOutput(outputs, WriteBody(bytes));
      outputs := outputs + [WriteBody(bytes)];
      if status == 0 {
        status := 200;
      }
      body := body + bytes;
    }

    /** What is recorded, and sent on, after any sequence of writes. */
    method Recorded() returns (r: Response)
      requires Valid()
      ensures r == ResponseTo(outputs)
    {
      r := Response(if status == 0 then 200 else status, body);
    }
  }
}
