/** What whole runs of the server do to the database, and to the operations that await the next call. */
module RpcRuns {
  import opened Bytes
  import opened Rpc

  // ----- Records, and handlers that wait for a call -----

  /** What a handler has recorded, alive or deleted; nothing for one that does not exist yet. */
  function Recorded<D, B>(s: Server<D, B>, h: Ref): seq<(B, Code)> {
    if h in s.handlers then s.handlers[h].applied else if h in s.gone then s.gone[h].applied else []
  }

  predicate Awaits<D, B>(s: Server<D, B>, kind: Kind, h: Ref) {
    h in s.handlers && s.requestOps[h] > 0 && s.handlers[h].kind == kind
  }

  lemma ProcessingKeeps<D(!new), B(!new)>(v: Service<D, B>, s: Server<D, B>, h: Ref, incoming: B, g: Ref, kind: Kind)
    requires h in s.handlers
    ensures var s' := Processing(v, s, h, incoming);
      s'.db == s.db && Recorded(s', g) == Recorded(s, g) && Awaits(s', kind, g) == Awaits(s, kind, g)
  {
  }

  /** The step of a completed operation as far as the records of `g` go, and whether it waits for a call. */
  ghost predicate Kept<D(!new), B(!new)>(s: Server<D, B>, s': Server<D, B>, h: Ref, ok: bool, g: Ref, kind: Kind)
    requires h in s.handlers
  {
    && s'.db == s.db && Recorded(s', g) == Recorded(s, g)
    && (!s.down ==>
          Awaits(s', kind, g) ==
          if g == s.next then ok && s.handlers[h].phase == Created && kind == s.handlers[h].kind
          else Awaits(s, kind, g))
  }

  lemma FlowKeeps<D(!new), B(!new)>(v: Service<D, B>, s: Server<D, B>, h: Ref, ok: bool, incoming: B, g: Ref,
                                    kind: Kind)
    requires h in s.handlers && h !in s.gone && s.requestOps[h] == 0
    requires s.next !in s.handlers && s.next !in s.gone
    ensures Kept(s, Flow(v, s, h, ok, incoming), h, ok, g, kind)
  {
    if !s.down && ok {
      match s.handlers[h].phase
      case Created =>
        var s1 := WithNew(s, s.handlers[h].kind);
        assert s1.handlers[h] == s.handlers[h];
        if s.handlers[h].kind == Unary { ProcessingKeeps(v, s1, h, incoming, g, kind); }
      case Read => ProcessingKeeps(v, s, h, incoming, g, kind);
      case Processed =>
    }
  }

  /** What the end of a task adds to the records of its handler. */
  function Report<D(!new), B(!new)>(v: Service<D, B>, s: Server<D, B>, h: Ref, outcome: Outcome<D>): seq<(B, Code)>
    requires h in s.handlers && s.handlers[h].request.Some?
  {
    var batch := s.handlers[h].request.value;
    if outcome.Returned? then [(batch, v.apply(s.db, batch).1)] else []
  }

  lemma ReturnedKeeps<D(!new), B(!new)>(v: Service<D, B>, s: Server<D, B>, h: Ref, g: Ref, kind: Kind)
    requires h in s.handlers && s.handlers[h].request.Some?
    ensures var s' := TaskDone(v, s, h, Returned);
      && Awaits(s', kind, g) == Awaits(s, kind, g)
      && Recorded(s', g) == Recorded(s, g) + if g == h then Report(v, s, h, Returned) else []
  {
    var x := s.handlers[h];
    var (db, code) := v.apply(s.db, x.request.value);
    var s1 := s.(db := db, handlers := s.handlers[h := Answered(x, code)]);
    assert Recorded(s1, g) == Recorded(s, g) + if g == h then Report(v, s, h, Returned) else [];
    assert Awaits(s1, kind, g) == Awaits(s, kind, g);
  }

  lemma ThrewKeeps<D(!new), B(!new)>(v: Service<D, B>, s: Server<D, B>, h: Ref, db: D, g: Ref, kind: Kind)
    requires h in s.handlers && s.handlers[h].request.Some?
    ensures var s' := TaskDone(v, s, h, Threw(db));
      Awaits(s', kind, g) == Awaits(s, kind, g) && Recorded(s', g) == Recorded(s, g)
  {
  }

  // ----- Single steps of a run -----

  /** What `RunsKeepOwnership` says of the handler `h` and of the next one. */
  ghost predicate Finds<D(!new), B(!new)>(s: Server<D, B>, h: Ref, c: Counts) {
    && h in s.handlers && h !in s.gone && HandlerOk(s.handlers[h], c) && CountsOf(s, h) == c
    && s.next !in s.handlers && s.next !in s.gone && CountsOf(s, s.next) == NOTHING
  }

  lemma CompleteFinds<D(!new), B(!new)>(v: Service<D, B>, states: seq<Server<D, B>>, steps: seq<Step<D, B>>, i: nat)
    requires IsRun(v, states, steps) && i < |steps| && steps[i].Complete?
    ensures Finds(states[i], steps[i].h, OneOf(steps[i].op))
    ensures states[i + 1] ==
      Flow(v, Taken(states[i], steps[i].op, steps[i].h), steps[i].h, steps[i].ok, steps[i].incoming)
  {
    RunsKeepOwnership(v, states, steps, i);
    var s, h := states[i], steps[i].h;
    assert CountsOf(s, h) != NOTHING;
    assert HandlerOk(s.handlers[h], CountsOf(s, h));
  }

  lemma EndTaskFinds<D(!new), B(!new)>(v: Service<D, B>, states: seq<Server<D, B>>, steps: seq<Step<D, B>>, i: nat)
    requires IsRun(v, states, steps) && i < |steps| && steps[i].EndTask?
    ensures Finds(states[i], steps[i].h, Counts(0, 0, 0, 1)) && states[i].handlers[steps[i].h].request.Some?
    ensures states[i + 1] ==
      TaskDone(v, states[i].(running := states[i].running - multiset{steps[i].h}), steps[i].h, steps[i].outcome)
  {
    RunsKeepOwnership(v, states, steps, i);
    var s, h := states[i], steps[i].h;
    assert CountsOf(s, h).tasks > 0;
    assert HandlerOk(s.handlers[h], CountsOf(s, h));
  }

  /**
   A batch that comes in waits for the pool behind those before it, unless it is that of
   a unary call and does not pass the check, which is answered at once.
  */
  lemma BatchArrives<D(!new), B(!new)>(v: Service<D, B>, states: seq<Server<D, B>>, steps: seq<Step<D, B>>, i: nat,
                                       op: Op, h: Ref, batch: B)
    requires IsRun(v, states, steps) && i < |steps| && !states[i].down
    requires steps[i] == Complete(op, h, true, batch) && op != FinishOp
    ensures h in states[i].handlers && h in states[i + 1].handlers
    ensures var x, x' := states[i].handlers[h], states[i + 1].handlers[h];
      if x.kind == Stream && op == RequestOp then
        states[i + 1].queued == states[i].queued && x'.received == x.received && states[i + 1].readOps[h] == 1
      else
        && x'.request == Some(batch) && x'.received == x.received + [batch]
        && if x.kind == Stream || v.valid(batch)
           then states[i + 1].queued == states[i].queued + [h] && x'.finished == x.finished
           else states[i + 1].queued == states[i].queued && x'.finished == x.finished + [InvalidArgument]
  {
    CompleteFinds(v, states, steps, i);
    IsCalled(states[i], op, h);
  }

  /** An operation that fails before the end ends the call with an error; for a stream, with its last status. */
  lemma OperationFails<D(!new), B(!new)>(v: Service<D, B>, states: seq<Server<D, B>>, steps: seq<Step<D, B>>, i: nat,
                                         op: Op, h: Ref, batch: B)
    requires IsRun(v, states, steps) && i < |steps| && !states[i].down
    requires steps[i] == Complete(op, h, false, batch) && op != FinishOp
    ensures h in states[i].handlers && h in states[i + 1].handlers
    ensures var x, x' := states[i].handlers[h], states[i + 1].handlers[h];
      && x'.finished == [if x.kind == Stream && x.applied != [] then Ok else Internal]
      && x'.applied == x.applied && states[i + 1].queued == states[i].queued
  {
    CompleteFinds(v, states, steps, i);
    IsCalled(states[i], op, h);
    var x := states[i].handlers[h];
    assert HandlerOk(x, OneOf(op));
    assert x.applied != [] ==> x.applied[|x.applied| - 1].1 == Ok;
  }

  /** A task that hears back from the database stores its batch and records the answer with its own handler. */
  lemma TaskReturned<D(!new), B(!new)>(v: Service<D, B>, states: seq<Server<D, B>>, steps: seq<Step<D, B>>, i: nat,
                                       h: Ref)
    requires IsRun(v, states, steps) && i < |steps| && steps[i] == EndTask(h, Returned)
    ensures h in states[i].handlers && h in states[i + 1].handlers && states[i].handlers[h].request.Some?
    ensures var x, x' := states[i].handlers[h], states[i + 1].handlers[h];
      var (db, code) := v.apply(states[i].db, x.request.value);
      && states[i + 1].db == db
      && x'.applied == x.applied + [(x.request.value, code)] && x'.status == code
      && if x.kind == Stream && code == Ok
         then x'.phase == Read && x'.finished == x.finished && states[i + 1].readOps[h] == states[i].readOps[h] + 1
         else x'.phase == Processed && x'.finished == x.finished + [code]
              && states[i + 1].finishOps[h] == states[i].finishOps[h] + 1
  {
    EndTaskFinds(v, states, steps, i);
  }

  /** An exception reports an error from a unary call; a stream is left with nothing that would wake it. */
  lemma TaskThrew<D(!new), B(!new)>(v: Service<D, B>, states: seq<Server<D, B>>, steps: seq<Step<D, B>>, i: nat, h: Ref,
                                    db: D)
    requires IsRun(v, states, steps) && i < |steps| && steps[i] == EndTask(h, Threw(db))
    ensures h in states[i].handlers && h in states[i + 1].handlers
    ensures var x, x' := states[i].handlers[h], states[i + 1].handlers[h];
      && states[i + 1].db == db && x'.applied == x.applied
      && if x.kind == Stream
         then x'.finished == x.finished && CountsOf(states[i + 1], h) == Counts(0, 0, 0, 0)
         else x'.finished == x.finished + [Internal] && CountsOf(states[i + 1], h) == Counts(0, 0, 1, 0)
  {
    EndTaskFinds(v, states, steps, i);
  }

  /** A call of this kind has come in, or will never come. */
  ghost predicate Arrives<D(!new), B(!new)>(s: Server<D, B>, step: Step<D, B>, kind: Kind) {
    step.Complete? && step.op == RequestOp && step.h in s.handlers && s.handlers[step.h].kind == kind
  }

  /** What a step adds to the records of the handler `g`. */
  function Added<D(!new), B(!new)>(v: Service<D, B>, s: Server<D, B>, step: Step<D, B>, g: Ref): seq<(B, Code)> {
    if step.EndTask? && step.h == g && g in s.handlers && s.handlers[g].request.Some?
    then Report(v, s, g, step.outcome) else []
  }

  /** What a step does to the records of `g`, and to whether it waits for a call. */
  ghost predicate Effect<D(!new), B(!new)>(v: Service<D, B>, s: Server<D, B>, step: Step<D, B>, s': Server<D, B>,
                                           g: Ref, kind: Kind)
  {
    && Recorded(s', g) == Recorded(s, g) + Added(v, s, step, g)
    && (!s.down && !Arrives(s, step, kind) ==> Awaits(s', kind, g) == Awaits(s, kind, g))
    && (!s.down && Arrives(s, step, kind) ==>
          && Awaits(s, kind, step.h) && !Awaits(s, kind, s.next)
          && Awaits(s', kind, g) ==
             if g == step.h then false else if g == s.next then step.ok else Awaits(s, kind, g))
  }

  /** Who waits for a call, seen from a completion for the handler `h`. */
  ghost predicate Called<D(!new), B(!new)>(s: Server<D, B>, op: Op, h: Ref) {
    && h in s.handlers && (op == RequestOp <==> s.handlers[h].phase == Created)
    && s.requestOps[h] == (if op == RequestOp then 1 else 0)
    && s.next !in s.handlers && s.requestOps[s.next] == 0
  }

  lemma IsCalled<D(!new), B(!new)>(s: Server<D, B>, op: Op, h: Ref)
    requires Finds(s, h, OneOf(op))
    ensures Called(s, op, h)
  {
  }

  lemma KeptEffect<D(!new), B(!new)>(v: Service<D, B>, s: Server<D, B>, step: Step<D, B>, s': Server<D, B>, g: Ref,
                                     kind: Kind)
    requires step.Complete? && Called(s, step.op, step.h)
    requires Kept(Taken(s, step.op, step.h), s', step.h, step.ok, g, kind)
    ensures Effect(v, s, step, s', g, kind)
  {
  }

  lemma CompleteKept<D(!new), B(!new)>(v: Service<D, B>, states: seq<Server<D, B>>, steps: seq<Step<D, B>>, i: nat,
                                       g: Ref, kind: Kind)
    requires IsRun(v, states, steps) && i < |steps| && steps[i].Complete?
    ensures var Complete(op, h, ok, _) := steps[i];
      Called(states[i], op, h) && Kept(Taken(states[i], op, h), states[i + 1], h, ok, g, kind)
  {
    CompleteFinds(v, states, steps, i);
    IsCalled(states[i], steps[i].op, steps[i].h);
    FlowKeeps(v, Taken(states[i], steps[i].op, steps[i].h), steps[i].h, steps[i].ok, steps[i].incoming, g, kind);
  }

  lemma CompleteEffect<D(!new), B(!new)>(v: Service<D, B>, states: seq<Server<D, B>>, steps: seq<Step<D, B>>, i: nat,
                                         g: Ref, kind: Kind)
    requires IsRun(v, states, steps) && i < |steps| && steps[i].Complete?
    ensures states[i + 1].db == states[i].db
    ensures Effect(v, states[i], steps[i], states[i + 1], g, kind)
  {
    CompleteKept(v, states, steps, i, g, kind);
    KeptEffect(v, states[i], steps[i], states[i + 1], g, kind);
  }

  lemma EndTaskEffect<D(!new), B(!new)>(v: Service<D, B>, states: seq<Server<D, B>>, steps: seq<Step<D, B>>, i: nat,
                                        g: Ref, kind: Kind)
    requires IsRun(v, states, steps) && i < |steps| && steps[i].EndTask?
    ensures Effect(v, states[i], steps[i], states[i + 1], g, kind)
  {
    EndTaskFinds(v, states, steps, i);
    var h, outcome := steps[i].h, steps[i].outcome;
    var s1 := states[i].(running := states[i].running - multiset{h});
    if outcome.Returned? {
      ReturnedKeeps(v, s1, h, g, kind);
    } else {
      ThrewKeeps(v, s1, h, outcome.db, g, kind);
    }
  }

  lemma StepEffect<D(!new), B(!new)>(v: Service<D, B>, states: seq<Server<D, B>>, steps: seq<Step<D, B>>, i: nat,
                                     g: Ref, kind: Kind)
    requires IsRun(v, states, steps) && i < |steps|
    ensures Effect(v, states[i], steps[i], states[i + 1], g, kind)
  {
    match steps[i]
    case Complete(_, _, _, _) => CompleteEffect(v, states, steps, i, g, kind);
    case EndTask(_, _) => EndTaskEffect(v, states, steps, i, g, kind);
    case _ =>
  }

  /** No other step touches the database. */
  lemma OnlyTasksStore<D(!new), B(!new)>(v: Service<D, B>, states: seq<Server<D, B>>, steps: seq<Step<D, B>>, i: nat)
    requires IsRun(v, states, steps) && i < |steps| && !steps[i].EndTask?
    ensures states[i + 1].db == states[i].db
  {
    if steps[i].Complete? { CompleteEffect(v, states, steps, i, 0, Unary); }
  }

  // ----- The database over a run -----

  /** What changes the database: a batch of handler `h` that it answers with `code`, or an exception on the way. */
  datatype Change<D, B> = Answer(h: Ref, batch: B, code: Code) | Thrown(db: D)

  ghost function ChangesOf<D(!new), B(!new)>(v: Service<D, B>, s: Server<D, B>, step: Step<D, B>): seq<Change<D, B>> {
    match step
    case EndTask(h, Returned) =>
      if h in s.handlers && s.handlers[h].request.Some?
      then [Answer(h, s.handlers[h].request.value, v.apply(s.db, s.handlers[h].request.value).1)] else []
    case EndTask(_, Threw(db)) => [Thrown(db)]
    case _ => []
  }

  /** The changes of the first `i` steps. */
  ghost function Changes<D(!new), B(!new)>(v: Service<D, B>, states: seq<Server<D, B>>, steps: seq<Step<D, B>>,
                                           i: nat): seq<Change<D, B>>
    requires i <= |steps| < |states|
  {
    if i == 0 then [] else Changes(v, states, steps, i - 1) + ChangesOf(v, states[i - 1], steps[i - 1])
  }

  /** `db` after the changes, one after another. */
  ghost function Replayed<D, B>(v: Service<D, B>, db: D, changes: seq<Change<D, B>>): D
    decreases |changes|
  {
    if changes == [] then db
    else
      match changes[|changes| - 1]
      case Answer(_, batch, _) => v.apply(Replayed(v, db, changes[..|changes| - 1]), batch).0
      case Thrown(left) => left
  }

  /** Every answer is the one that the database gives after the changes before it. */
  ghost predicate Truthful<D, B>(v: Service<D, B>, db: D, changes: seq<Change<D, B>>) {
    forall i :: 0 <= i < |changes| && changes[i].Answer? ==>
      changes[i].code == v.apply(Replayed(v, db, changes[..i]), changes[i].batch).1
  }

  lemma ReplayedMore<D(!new), B(!new)>(v: Service<D, B>, db: D, changes: seq<Change<D, B>>, c: Change<D, B>)
    requires Truthful(v, db, changes)
    requires c.Answer? ==> c.code == v.apply(Replayed(v, db, changes), c.batch).1
    ensures Truthful(v, db, changes + [c])
    ensures Replayed(v, db, changes + [c]) ==
      if c.Answer? then v.apply(Replayed(v, db, changes), c.batch).0 else c.db
  {
    assert (changes + [c])[..|changes|] == changes;
    assert forall i :: 0 <= i < |changes| ==> (changes + [c])[..i] == changes[..i];
  }

  /**
   Over all runs: the database is the initial one with every answered batch applied, one
   after another in the order in which the tasks ended, and each batch got the answer
   that belongs to it there.
  */
  lemma {:induction false} DatabaseIsReplayed<D(!new), B(!new)>(v: Service<D, B>, states: seq<Server<D, B>>,
                                                                steps: seq<Step<D, B>>, i: nat)
    requires IsRun(v, states, steps) && i <= |steps|
    ensures states[i].db == Replayed(v, states[0].db, Changes(v, states, steps, i))
    ensures Truthful(v, states[0].db, Changes(v, states, steps, i))
  {
    if i > 0 {
      DatabaseIsReplayed(v, states, steps, i - 1);
      var before, s, step := Changes(v, states, steps, i - 1), states[i - 1], steps[i - 1];
      match step
      case EndTask(h, Returned) =>
        TaskReturned(v, states, steps, i - 1, h);
        ReplayedMore(v, states[0].db, before, ChangesOf(v, s, step)[0]);
      case EndTask(h, Threw(db)) =>
        TaskThrew(v, states, steps, i - 1, h, db);
        ReplayedMore(v, states[0].db, before, Thrown(db));
      case _ =>
        OnlyTasksStore(v, states, steps, i - 1);
        assert before + [] == before;
    }
  }

  // ----- What the handlers report of it -----

  /** The answers to the batches of one handler, in order. */
  function Own<D, B>(changes: seq<Change<D, B>>, h: Ref): seq<(B, Code)>
    decreases |changes|
  {
    if changes == [] then []
    else
      var rest, c := Own(changes[..|changes| - 1], h), changes[|changes| - 1];
      if c.Answer? && c.h == h then rest + [(c.batch, c.code)] else rest
  }

  lemma OwnMore<D(!new), B(!new)>(v: Service<D, B>, changes: seq<Change<D, B>>, s: Server<D, B>, step: Step<D, B>,
                                  g: Ref)
    ensures Own(changes + ChangesOf(v, s, step), g) == Own(changes, g) + Added(v, s, step, g)
  {
    var more := ChangesOf(v, s, step);
    if more == [] {
      assert changes + more == changes;
    } else {
      assert (changes + more)[..|changes|] == changes;
    }
  }

  /**
   Over all runs: the batches that a handler has recorded as given to the database, with
   their answers, are exactly those by which the database has changed on its behalf.
  */
  lemma {:induction false} RecordsAreChanges<D(!new), B(!new)>(v: Service<D, B>, states: seq<Server<D, B>>,
                                                               steps: seq<Step<D, B>>, i: nat, h: Ref)
    requires IsRun(v, states, steps) && i <= |steps|
    ensures Recorded(states[i], h) == Own(Changes(v, states, steps, i), h)
  {
    if i > 0 {
      RecordsAreChanges(v, states, steps, i - 1, h);
      StepEffect(v, states, steps, i - 1, h, Unary);
      OwnMore(v, Changes(v, states, steps, i - 1), states[i - 1], steps[i - 1], h);
    }
  }

  lemma OkMeansAll<B>(x: Handler<B>)
    requires Reported(x) && x.finished == [Ok]
    ensures x.received != [] && |x.applied| == |x.received|
    ensures forall k :: 0 <= k < |x.applied| ==> x.applied[k] == (x.received[k], Ok)
  {
    var n := |x.applied|;
    forall k | 0 <= k < n ensures x.applied[k] == (x.received[k], Ok) {
      assert x.received[k] == Batches(x.applied)[k];
      assert k < n - 1 ==> x.applied[..n - 1][k] == x.applied[k];
    }
  }

  /** A call that has been told `Ok` was sent batches, and the database has taken each of them, in order. */
  lemma AcknowledgedIsStored<D(!new), B(!new)>(v: Service<D, B>, states: seq<Server<D, B>>, steps: seq<Step<D, B>>,
                                               i: nat, h: Ref, x: Handler<B>)
    requires IsRun(v, states, steps) && i <= |steps| && x.finished == [Ok]
    requires (h in states[i].handlers && x == states[i].handlers[h]) || (h in states[i].gone && x == states[i].gone[h])
    ensures var own := Own(Changes(v, states, steps, i), h);
      x.received != [] && |own| == |x.received| && forall k :: 0 <= k < |own| ==> own[k] == (x.received[k], Ok)
  {
    RunsKeepOwnership(v, states, steps, i);
    RecordsAreChanges(v, states, steps, i, h);
    assert h in states[i].handlers ==> HandlerOk(x, CountsOf(states[i], h));
    assert h in states[i].gone ==> Ended(x, states[i].down);
    OkMeansAll(x);
  }

  // ----- The next call -----

  /** The handlers of one kind that wait for a call. */
  ghost function Awaiting<D(!new), B(!new)>(s: Server<D, B>, kind: Kind): set<Ref> {
    set h | h in s.handlers && Awaits(s, kind, h)
  }

  /** How many of the first `i` steps were failed completions for a handler that waited for a call. */
  ghost function FailedRequests<D(!new), B(!new)>(states: seq<Server<D, B>>, steps: seq<Step<D, B>>, i: nat,
                                                  kind: Kind): nat
    requires i <= |steps| < |states|
  {
    if i == 0 then 0
    else
      FailedRequests(states, steps, i - 1, kind)
        + (if Arrives(states[i - 1], steps[i - 1], kind) && !steps[i - 1].ok then 1 else 0)
  }

  lemma AwaitingNext<D(!new), B(!new)>(v: Service<D, B>, states: seq<Server<D, B>>, steps: seq<Step<D, B>>, i: nat,
                                       kind: Kind)
    requires IsRun(v, states, steps) && i < |steps| && !states[i].down
    ensures |Awaiting(states[i + 1], kind)| ==
      |Awaiting(states[i], kind)| - if Arrives(states[i], steps[i], kind) && !steps[i].ok then 1 else 0
  {
    var s, s', step := states[i], states[i + 1], steps[i];
    forall g ensures Effect(v, s, step, s', g, kind) {
      StepEffect(v, states, steps, i, g, kind);
    }
    AwaitingSize(v, s, step, s', kind);
  }

  lemma AwaitingSize<D(!new), B(!new)>(v: Service<D, B>, s: Server<D, B>, step: Step<D, B>, s': Server<D, B>,
                                       kind: Kind)
    requires !s.down && forall g :: Effect(v, s, step, s', g, kind)
    ensures |Awaiting(s', kind)| == |Awaiting(s, kind)| - if Arrives(s, step, kind) && !step.ok then 1 else 0
  {
    assert Effect(v, s, step, s', 0, kind);
    var a, a' := Awaiting(s, kind), Awaiting(s', kind);
    if Arrives(s, step, kind) {
      OneLeaves(a, a', step.h, s.next, step.ok) by {
        forall g ensures g in a' <==> (if g == step.h then false else if g == s.next then step.ok else g in a) {
          assert Effect(v, s, step, s', g, kind);
        }
      }
    } else {
      assert a' == a by {
        forall g ensures g in a' <==> g in a { assert Effect(v, s, step, s', g, kind); }
      }
    }
  }

  lemma OneLeaves(a: set<Ref>, a': set<Ref>, h: Ref, next: Ref, ok: bool)
    requires h in a && next !in a
    requires forall g :: g in a' <==> (if g == h then false else if g == next then ok else g in a)
    ensures |a'| == |a| - if ok then 0 else 1
  {
    assert a' == a - {h} + if ok then {next} else {};
  }

  /**
   Before the shutdown, every kind of call is awaited by as many handlers as at the start,
   less one for each completion that failed.
  */
  lemma {:induction false} CallsAreAwaited<D(!new), B(!new)>(v: Service<D, B>, states: seq<Server<D, B>>,
                                                             steps: seq<Step<D, B>>, i: nat, kind: Kind)
    requires IsRun(v, states, steps) && i <= |steps| && !states[i].down
    ensures |Awaiting(states[i], kind)| + FailedRequests(states, steps, i, kind) == |Awaiting(states[0], kind)|
  {
    if i > 0 {
      if states[i - 1].down { StaysDown(v, states, steps, i - 1); }
      CallsAreAwaited(v, states, steps, i - 1, kind);
      AwaitingNext(v, states, steps, i - 1, kind);
    }
  }

  lemma StaysDown<D(!new), B(!new)>(v: Service<D, B>, states: seq<Server<D, B>>, steps: seq<Step<D, B>>, i: nat)
    requires IsRun(v, states, steps) && i < |steps| && states[i].down
    ensures states[i + 1].down
  {
  }
}
