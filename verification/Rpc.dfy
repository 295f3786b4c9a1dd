/**
 The request handlers of `server.cpp`: small state machines that delete themselves,
 driven by a completion queue and by tasks on the worker pool. A unary handler (upsert)
 and the streaming one, any number of each, in any interleaving.
*/
module Rpc {
  import opened Bytes
  import WorkerPool

  /** A handler's address. */
  type Ref = nat

  datatype Kind = Unary | Stream

  /** `WRITTEN` is reserved in the program and never reached. */
  datatype Phase = Created | Read | Processed

  datatype Code = Ok | Internal | InvalidArgument | Failed(code: nat)

  /**
   `received`, `applied`, `finished` and `lost` record what happened to the handler: the
   batches it was sent, those given to the database with the outcome, the statuses it
   passed to `Finish`, and whether an exception left it with nothing pending.
  */
  datatype Handler<B> = Handler(kind: Kind, phase: Phase, status: Code, request: Option<B>,
                                received: seq<B>, applied: seq<(B, Code)>, finished: seq<Code>, lost: bool)

  /** The database update behind the handlers, and the checks of `upsert_handler::process`. */
  datatype Service<!D, !B> = Service(apply: (D, B) -> (D, Code), valid: B -> bool)

  /**
   Pending operations of the completion queue by kind, queued and running tasks.
   `crashed` records that a handler was used after its deletion.
  */
  datatype Server<D, B> = Server(db: D, handlers: map<Ref, Handler<B>>, gone: map<Ref, Handler<B>>, next: Ref,
                                 requestOps: multiset<Ref>, readOps: multiset<Ref>, finishOps: multiset<Ref>,
                                 queued: seq<Ref>, running: multiset<Ref>, down: bool, crashed: bool)

  // ----- What a handler does -----

  function NewHandler<B>(kind: Kind): Handler<B> {
    Handler(kind, Created, if kind == Stream then Internal else Ok, None, [], [], [], false)
  }

  /** `new derived_t`: the constructor asks for the next call of its kind. */
  function WithNew<D, B>(s: Server<D, B>, kind: Kind): Server<D, B> {
    s.(handlers := s.handlers[s.next := NewHandler(kind)], requestOps := s.requestOps + multiset{s.next},
      next := s.next + 1)
  }

  function Finish<D, B>(s: Server<D, B>, h: Ref, code: Code): Server<D, B>
    requires h in s.handlers
  {
    var x := s.handlers[h];
    s.(handlers := s.handlers[h := x.(phase := Processed, status := code, finished := x.finished + [code])],
       finishOps := s.finishOps + multiset{h})
  }

  /** `handle_unknown_error`: a stream reports its last status. */
  function UnknownError<D, B>(s: Server<D, B>, h: Ref): Server<D, B>
    requires h in s.handlers
  {
    Finish(s, h, if s.handlers[h].kind == Stream then s.handlers[h].status else Internal)
  }

  function Deleted<D, B>(s: Server<D, B>, h: Ref): Server<D, B>
    requires h in s.handlers
  {
    s.(handlers := s.handlers - {h}, gone := s.gone[h := s.handlers[h]])
  }

  /** `stream_upsert_handler::do_read`. */
  function Reading<D, B>(s: Server<D, B>, h: Ref): Server<D, B>
    requires h in s.handlers
  {
    s.(handlers := s.handlers[h := s.handlers[h].(phase := Read)], readOps := s.readOps + multiset{h})
  }

  /** `process`, with the request that the completed operation filled in. */
  function Processing<D, B>(v: Service<D, B>, s: Server<D, B>, h: Ref, incoming: B): Server<D, B>
    requires h in s.handlers
  {
    var x := s.handlers[h].(request := Some(incoming), received := s.handlers[h].received + [incoming]);
    var s1 := s.(handlers := s.handlers[h := x]);
    if x.kind == Unary && !v.valid(incoming) then Finish(s1, h, InvalidArgument)
    else s1.(queued := s1.queued + [h])
  }

  /** `run_flow`, lines 62-95. */
  function Flow<D, B>(v: Service<D, B>, s: Server<D, B>, h: Ref, ok: bool, incoming: B): Server<D, B>
    requires h in s.handlers
  {
    if s.down then Deleted(s, h)
    else if !ok && s.handlers[h].phase != Processed then UnknownError(s, h)
    else match s.handlers[h].phase
      case Created =>
        var s1 := WithNew(s, s.handlers[h].kind);
        if s1.handlers[h].kind == Stream then Reading(s1, h) else Processing(v, s1, h, incoming)
      case Read => Processing(v, s, h, incoming)
      case Processed => Deleted(s, h)
  }

  /** A task either hears back from the database or runs into an exception that leaves the database as `db`. */
  datatype Outcome<D> = Returned | Threw(db: D)

  /** The handler after a batch that the database has answered with `code`. */
  function Answered<B>(x: Handler<B>, code: Code): Handler<B>
    requires x.request.Some?
  {
    x.(applied := x.applied + [(x.request.value, code)])
  }

  /** The task bodies: lines 240-265 and 378-409. */
  function TaskDone<D, B>(v: Service<D, B>, s: Server<D, B>, h: Ref, outcome: Outcome<D>): Server<D, B>
    requires h in s.handlers && s.handlers[h].request.Some?
  {
    var x := s.handlers[h];
    match outcome
    case Returned =>
      var (db, code) := v.apply(s.db, x.request.value);
      var x1 := Answered(x, code);
      var s1 := s.(db := db, handlers := s.handlers[h := x1]);
      if x.kind == Stream && code == Ok then Reading(s1.(handlers := s1.handlers[h := x1.(status := Ok)]), h)
      else Finish(s1, h, code)
    case Threw(db) =>
      if x.kind == Stream then s.(db := db, handlers := s.handlers[h := x.(lost := true)])
      else Finish(s.(db := db), h, Internal)
  }

  // ----- The same, step by step -----

  class Handlers<D(!new), B(!new)> {
    var db: D
    var handlers: map<Ref, Handler<B>>
    var next: Ref
    var requestOps: multiset<Ref>
    var readOps: multiset<Ref>
    var finishOps: multiset<Ref>
    var queued: seq<Ref>
    var running: multiset<Ref>
    var down: bool
    ghost var gone: map<Ref, Handler<B>>

    ghost function State(): Server<D, B>
      reads this
    {
      Server(db, handlers, gone, next, requestOps, readOps, finishOps, queued, running, down, false)
    }

    constructor (db: D)
      ensures Initial(State()) && handlers == map[] && this.db == db
    {
      this.db, handlers, gone, next, down := db, map[], map[], 0, false;
      requestOps, readOps, finishOps, queued, running := multiset{}, multiset{}, multiset{}, [], multiset{};
    }

    /** `new derived_t`, lines 60 and 207-212. */
    method Create(kind: Kind)
      modifies this
      ensures State() == WithNew(old(State()), kind)
    {
      handlers := handlers[next := NewHandler(kind)];
      requestOps := requestOps + multiset{next};
      next := next + 1;
    }

    method FinishWith(h: Ref, code: Code)
      requires h in handlers
      modifies this
      ensures State() == Finish(old(State()), h, code)
    {
      var x := handlers[h];
      handlers := handlers[h := x.(phase := Processed, status := code, finished := x.finished + [code])];
      finishOps := finishOps + multiset{h};
    }

    /** Lines 214-218 and 362-366. */
    method HandleUnknownError(h: Ref)
      requires h in handlers
      modifies this
      ensures State() == UnknownError(old(State()), h)
    {
      if handlers[h].kind == Stream {
        FinishWith(h, handlers[h].status);
      } else {
        FinishWith(h, Internal);
      }
    }

    /** Lines 58 and 368-373. */
    method DoRead(h: Ref) returns (ready: bool)
      requires h in handlers
      modifies this
      ensures ready == (old(handlers[h].kind) == Unary)
      ensures State() == if ready then old(State()) else Reading(old(State()), h)
    {
      if handlers[h].kind == Unary { return true; }
      readOps := readOps + multiset{h};
      handlers := handlers[h := handlers[h].(phase := Read)];
      ready := false;
    }

    method DoDelete(h: Ref)
      requires h in handlers
      modifies this
      ensures State() == Deleted(old(State()), h)
    {
      gone := gone[h := handlers[h]];
      handlers := handlers - {h};
    }

    /** Lines 220-239 and 375-378, up to `submit`. */
    method Process(v: Service<D, B>, h: Ref, incoming: B)
      requires h in handlers
      modifies this
      ensures State() == Processing(v, old(State()), h, incoming)
    {
      var x := handlers[h];
      handlers := handlers[h := x.(request := Some(incoming), received := x.received + [incoming])];
      if x.kind == Unary && !v.valid(incoming) {
        FinishWith(h, InvalidArgument);
        return;
      }
      queued := queued + [h];
    }

    /** Lines 62-95. */
    method RunFlow(v: Service<D, B>, h: Ref, ok: bool, incoming: B)
      requires h in handlers && h < next
      modifies this
      ensures State() == Flow(v, old(State()), h, ok, incoming)
    {
      if down {
        DoDelete(h);
        return;
      }
      if !ok && handlers[h].phase != Processed {
        HandleUnknownError(h);
        return;
      }
      match handlers[h].phase {
        case Created =>
          Create(handlers[h].kind);
          var ready := DoRead(h);
          if ready { Process(v, h, incoming); }
        case Read => Process(v, h, incoming);
        case Processed => DoDelete(h);
      }
    }

    /** The bodies of the tasks: lines 242-264 and 380-408. */
    method RunTask(v: Service<D, B>, h: Ref, outcome: Outcome<D>)
      requires h in handlers && handlers[h].request.Some?
      modifies this
      ensures State() == TaskDone(v, old(State()), h, outcome)
    {
      match outcome {
        case Returned => FinishBatch(v, h);
        case Threw(db') => CatchException(v, h, db');
      }
    }

    method FinishBatch(v: Service<D, B>, h: Ref)
      requires h in handlers && handlers[h].request.Some?
      modifies this
      ensures State() == TaskDone(v, old(State()), h, Returned)
    {
      var x := handlers[h];
      var (db', code) := v.apply(db, x.request.value);
      db := db';
      handlers := handlers[h := Answered(x, code)];
      if x.kind == Stream && code == Ok {
        handlers := handlers[h := handlers[h].(status := Ok)];
        var ready := DoRead(h);
      } else {
        FinishWith(h, code);
      }
    }

    /** A stream only logs the exception, and nothing will wake its handler again. */
    method CatchException(ghost v: Service<D, B>, h: Ref, db': D)
      requires h in handlers && handlers[h].request.Some?
      modifies this
      ensures State() == TaskDone(v, old(State()), h, Threw(db'))
    {
      db := db';
      if handlers[h].kind == Stream {
        handlers := handlers[h := handlers[h].(lost := true)];
      } else {
        FinishWith(h, Internal);
      }
    }
  }

  // ----- Steps of the server -----

  datatype Op = RequestOp | ReadOp | FinishOp

  datatype Step<D, B> =
    | Complete(op: Op, h: Ref, ok: bool, incoming: B)
    | StartTask
    | EndTask(h: Ref, outcome: Outcome<D>)
    | ShutDown

  function Pending<D, B>(s: Server<D, B>, op: Op): multiset<Ref> {
    match op
    case RequestOp => s.requestOps
    case ReadOp => s.readOps
    case FinishOp => s.finishOps
  }

  function Taken<D, B>(s: Server<D, B>, op: Op, h: Ref): Server<D, B> {
    match op
    case RequestOp => s.(requestOps := s.requestOps - multiset{h})
    case ReadOp => s.(readOps := s.readOps - multiset{h})
    case FinishOp => s.(finishOps := s.finishOps - multiset{h})
  }

  /** Only what the program waits for: nothing here says that the handler still exists. The pool is never full. */
  ghost predicate Enabled<D(!new), B(!new)>(s: Server<D, B>, step: Step<D, B>) {
    match step
    case Complete(op, h, _, _) => h in Pending(s, op) && |s.queued| < WorkerPool.MAX_QUEUE_SIZE
    case StartTask => s.queued != []
    case EndTask(h, _) => h in s.running
    case ShutDown => true
  }

  ghost function After<D(!new), B(!new)>(v: Service<D, B>, s: Server<D, B>, step: Step<D, B>): Server<D, B>
    requires Enabled(s, step)
  {
    match step
    case Complete(op, h, ok, incoming) =>
      var s1 := Taken(s, op, h);
      if h in s.handlers then Flow(v, s1, h, ok, incoming) else s1.(crashed := true)
    case StartTask => s.(queued := s.queued[1..], running := s.running + multiset{s.queued[0]})
    case EndTask(h, outcome) =>
      var s1 := s.(running := s.running - multiset{h});
      if h in s.handlers && s.handlers[h].request.Some? then TaskDone(v, s1, h, outcome) else s1.(crashed := true)
    case ShutDown => s.(down := true)
  }

  ghost predicate Initial<D(!new), B(!new)>(s: Server<D, B>) {
    && s.gone == map[] && !s.down && !s.crashed
    && s.readOps == multiset{} && s.finishOps == multiset{} && s.queued == [] && s.running == multiset{}
    && s.requestOps == multiset(s.handlers.Keys)
    && forall h :: h in s.handlers ==> h < s.next && s.handlers[h] == NewHandler(s.handlers[h].kind)
  }

  ghost predicate IsRun<D(!new), B(!new)>(v: Service<D, B>, states: seq<Server<D, B>>, steps: seq<Step<D, B>>) {
    && |states| == |steps| + 1
    && Initial(states[0])
    && forall i :: 0 <= i < |steps| ==> Enabled(states[i], steps[i]) && states[i + 1] == After(v, states[i], steps[i])
  }

  // ----- Ownership -----

  /** How many operations of each kind, and how many queued or running tasks, refer to a handler. */
  datatype Counts = Counts(requestOps: nat, readOps: nat, finishOps: nat, tasks: nat)

  const NOTHING := Counts(0, 0, 0, 0)

  function CountsOf<D, B>(s: Server<D, B>, h: Ref): Counts {
    Counts(s.requestOps[h], s.readOps[h], s.finishOps[h], multiset(s.queued)[h] + s.running[h])
  }

  function Batches<B>(applied: seq<(B, Code)>): seq<B> {
    seq(|applied|, i requires 0 <= i < |applied| => applied[i].0)
  }

  predicate AllOk<B>(applied: seq<(B, Code)>) {
    forall i :: 0 <= i < |applied| ==> applied[i].1 == Ok
  }

  /** The status of a stream so far: an error until a batch has succeeded. */
  function StreamStatus<B>(applied: seq<(B, Code)>): Code {
    if applied == [] then Internal else applied[|applied| - 1].1
  }

  /**
   What the single `Finish` of a handler has reported. A stream has applied all its
   batches in order up to the first failure, and reports that; `Ok` if there was a
   batch and all succeeded.
  */
  ghost predicate Reported<B>(x: Handler<B>) {
    match x.kind
    case Stream =>
      && x.received == Batches(x.applied)
      && (x.applied != [] ==> AllOk(x.applied[..|x.applied| - 1]))
      && x.finished == [StreamStatus(x.applied)]
    case Unary =>
      && (x.applied == [] ==> x.finished == [Internal] || x.finished == [InvalidArgument])
      && (x.applied != [] ==> x.received == Batches(x.applied) && |x.applied| == 1 && x.finished == [x.applied[0].1])
  }

  /**
   A live handler and what refers to it: exactly one operation or task, of the kind
   that its phase waits for, or nothing once an exception has lost it.
  */
  ghost predicate HandlerOk<B>(x: Handler<B>, c: Counts) {
    match x.phase
    case Created =>
      && x.finished == [] && x.applied == [] && !x.lost
      && if c.requestOps > 0
         then c == Counts(1, 0, 0, 0) && x.received == [] && (x.kind == Stream ==> x.status == Internal)
         else c == Counts(0, 0, 0, 1) && x.kind == Unary && x.request.Some? && x.received == [x.request.value]
    case Read =>
      && x.kind == Stream && x.finished == [] && AllOk(x.applied) && x.status == StreamStatus(x.applied)
      && if c.readOps > 0
         then c == Counts(0, 1, 0, 0) && !x.lost && x.received == Batches(x.applied)
         else
           && c == (if x.lost then NOTHING else Counts(0, 0, 0, 1))
           && x.request.Some? && x.received == Batches(x.applied) + [x.request.value]
    case Processed =>
      c == Counts(0, 0, 1, 0) && !x.lost && Reported(x)
  }

  /** A deleted handler; before the shutdown, it has reported. */
  ghost predicate Ended<B>(x: Handler<B>, down: bool) {
    && |x.finished| <= 1
    && (!down ==> x.phase == Processed)
    && (if x.phase == Processed then Reported(x) else x.finished == [])
  }

  /** What is kept of live and of deleted handlers; most proofs do not look inside. */
  datatype Rules<!B> = Rules(live: (Handler<B>, Counts) -> bool, ended: (Handler<B>, bool) -> bool)

  ghost predicate OwnedBy<D(!new), B(!new)>(r: Rules<B>, s: Server<D, B>) {
    && !s.crashed
    && (forall h :: h in s.handlers ==> h < s.next && r.live(s.handlers[h], CountsOf(s, h)))
    && (forall h :: h !in s.handlers ==> CountsOf(s, h) == NOTHING)
    && (forall h :: h in s.gone ==> h < s.next && h !in s.handlers && r.ended(s.gone[h], s.down))
  }

  /** Everything is in order but for `h`, to which nothing refers at the moment. */
  ghost predicate InHand<D(!new), B(!new)>(r: Rules<B>, s: Server<D, B>, h: Ref) {
    && !s.crashed && h in s.handlers && h < s.next && CountsOf(s, h) == NOTHING
    && (forall g :: g in s.handlers && g != h ==> g < s.next && r.live(s.handlers[g], CountsOf(s, g)))
    && (forall g :: g !in s.handlers ==> CountsOf(s, g) == NOTHING)
    && (forall g :: g in s.gone ==> g < s.next && g !in s.handlers && r.ended(s.gone[g], s.down))
  }

  ghost predicate OneEach<B(!new)>(r: Rules<B>) {
    forall x, c {:trigger r.live(x, c)} :: r.live(x, c) ==> c.requestOps + c.readOps + c.finishOps + c.tasks <= 1
  }

  lemma FinishOk<D(!new), B(!new)>(r: Rules<B>, s: Server<D, B>, h: Ref, code: Code)
    requires InHand(r, s, h)
    requires r.live(Finish(s, h, code).handlers[h], Counts(0, 0, 1, 0))
    ensures OwnedBy(r, Finish(s, h, code))
  {
    var s' := Finish(s, h, code);
    assert CountsOf(s', h) == Counts(0, 0, 1, 0);
    assert forall g :: g != h ==> CountsOf(s', g) == CountsOf(s, g);
  }

  lemma ReadingOk<D(!new), B(!new)>(r: Rules<B>, s: Server<D, B>, h: Ref)
    requires InHand(r, s, h)
    requires r.live(s.handlers[h].(phase := Read), Counts(0, 1, 0, 0))
    ensures OwnedBy(r, Reading(s, h))
  {
    var s' := Reading(s, h);
    assert CountsOf(s', h) == Counts(0, 1, 0, 0);
    assert forall g :: g != h ==> CountsOf(s', g) == CountsOf(s, g);
  }

  lemma QueuedOk<D(!new), B(!new)>(r: Rules<B>, s: Server<D, B>, h: Ref)
    requires InHand(r, s, h) && r.live(s.handlers[h], Counts(0, 0, 0, 1))
    ensures OwnedBy(r, s.(queued := s.queued + [h]))
  {
    var s' := s.(queued := s.queued + [h]);
    assert CountsOf(s', h) == Counts(0, 0, 0, 1);
    assert forall g :: g != h ==> CountsOf(s', g) == CountsOf(s, g);
  }

  /** Only what is recorded of the handler changes, or the database. */
  lemma RewrittenOk<D(!new), B(!new)>(r: Rules<B>, s: Server<D, B>, h: Ref, db: D, x: Handler<B>)
    requires InHand(r, s, h)
    ensures InHand(r, s.(db := db, handlers := s.handlers[h := x]), h)
    ensures r.live(x, NOTHING) ==> OwnedBy(r, s.(db := db, handlers := s.handlers[h := x]))
  {
    var s' := s.(db := db, handlers := s.handlers[h := x]);
    assert forall g :: CountsOf(s', g) == CountsOf(s, g);
  }

  lemma DeletedOk<D(!new), B(!new)>(r: Rules<B>, s: Server<D, B>, h: Ref)
    requires InHand(r, s, h) && r.ended(s.handlers[h], s.down)
    ensures OwnedBy(r, Deleted(s, h))
  {
    assert forall g :: CountsOf(Deleted(s, h), g) == CountsOf(s, g);
  }

  lemma WithNewOk<D(!new), B(!new)>(r: Rules<B>, s: Server<D, B>, h: Ref, kind: Kind)
    requires InHand(r, s, h) && r.live(NewHandler(kind), Counts(1, 0, 0, 0))
    requires s.next !in s.handlers
    ensures InHand(r, WithNew(s, kind), h) && WithNew(s, kind).handlers[h] == s.handlers[h]
  {
    var s' := WithNew(s, kind);
    assert CountsOf(s', s.next) == Counts(1, 0, 0, 0);
    assert forall g :: g != s.next ==> CountsOf(s', g) == CountsOf(s, g);
  }

  function OneOf(op: Op): Counts {
    match op
    case RequestOp => Counts(1, 0, 0, 0)
    case ReadOp => Counts(0, 1, 0, 0)
    case FinishOp => Counts(0, 0, 1, 0)
  }

  lemma TakenCounts<D(!new), B(!new)>(s: Server<D, B>, op: Op, h: Ref)
    requires h in Pending(s, op)
    ensures CountsOf(s, h) != NOTHING
    ensures forall g :: g != h ==> CountsOf(Taken(s, op, h), g) == CountsOf(s, g)
  {
  }

  /** A completed operation finds its handler. */
  lemma TakenOk<D(!new), B(!new)>(r: Rules<B>, s: Server<D, B>, op: Op, h: Ref)
    requires OwnedBy(r, s) && h in Pending(s, op)
    requires OneEach(r)
    ensures h in s.handlers && InHand(r, Taken(s, op, h), h)
    ensures CountsOf(s, h) == OneOf(op)
  {
    TakenCounts(s, op, h);
    assert r.live(s.handlers[h], CountsOf(s, h));
    assert CountsOf(Taken(s, op, h), h) == NOTHING;
  }

  lemma TaskTaken<D(!new), B(!new)>(r: Rules<B>, s: Server<D, B>, h: Ref)
    requires OwnedBy(r, s) && h in s.running
    requires OneEach(r)
    ensures h in s.handlers && InHand(r, s.(running := s.running - multiset{h}), h)
    ensures CountsOf(s, h) == Counts(0, 0, 0, 1)
  {
    assert CountsOf(s, h) != NOTHING;
    var s' := s.(running := s.running - multiset{h});
    assert CountsOf(s', h) == NOTHING;
    assert forall g :: g != h ==> CountsOf(s', g) == CountsOf(s, g);
  }

  // ----- Steps keep it -----

  ghost predicate Means<B(!new)>(r: Rules<B>) {
    && OneEach(r)
    && (forall x, c {:trigger HandlerOk(x, c)} :: r.live(x, c) == HandlerOk(x, c))
    && (forall x, down {:trigger Ended(x, down)} :: r.ended(x, down) == Ended(x, down))
  }

  lemma ProcessingOk<D(!new), B(!new)>(r: Rules<B>, v: Service<D, B>, s: Server<D, B>, h: Ref, incoming: B)
    requires Means(r) && InHand(r, s, h)
    requires HandlerOk(s.handlers[h], if s.handlers[h].phase == Created then Counts(1, 0, 0, 0) else Counts(0, 1, 0, 0))
    requires (s.handlers[h].kind == Unary && s.handlers[h].phase == Created) || s.handlers[h].phase == Read
    ensures OwnedBy(r, Processing(v, s, h, incoming))
  {
    var x := s.handlers[h].(request := Some(incoming), received := s.handlers[h].received + [incoming]);
    var s1 := s.(handlers := s.handlers[h := x]);
    RewrittenOk(r, s, h, s.db, x);
    if x.kind == Unary && !v.valid(incoming) {
      assert HandlerOk(Finish(s1, h, InvalidArgument).handlers[h], Counts(0, 0, 1, 0));
      FinishOk(r, s1, h, InvalidArgument);
    } else {
      assert HandlerOk(x, Counts(0, 0, 0, 1));
      QueuedOk(r, s1, h);
    }
  }

  lemma CreatedOk<D(!new), B(!new)>(r: Rules<B>, v: Service<D, B>, s: Server<D, B>, h: Ref, incoming: B)
    requires Means(r) && InHand(r, s, h) && s.next !in s.handlers
    requires s.handlers[h].phase == Created && HandlerOk(s.handlers[h], Counts(1, 0, 0, 0))
    ensures var s1 := WithNew(s, s.handlers[h].kind);
      && s1.handlers[h] == s.handlers[h]
      && OwnedBy(r, if s1.handlers[h].kind == Stream then Reading(s1, h) else Processing(v, s1, h, incoming))
  {
    var x := s.handlers[h];
    assert HandlerOk(NewHandler<B>(x.kind), Counts(1, 0, 0, 0));
    WithNewOk(r, s, h, x.kind);
    var s1 := WithNew(s, x.kind);
    if x.kind == Stream {
      assert HandlerOk(x.(phase := Read), Counts(0, 1, 0, 0));
      ReadingOk(r, s1, h);
    } else {
      ProcessingOk(r, v, s1, h, incoming);
    }
  }

  lemma UnknownErrorOk<D(!new), B(!new)>(r: Rules<B>, s: Server<D, B>, h: Ref)
    requires Means(r) && InHand(r, s, h)
    requires (s.handlers[h].phase == Created && HandlerOk(s.handlers[h], Counts(1, 0, 0, 0)))
      || (s.handlers[h].phase == Read && HandlerOk(s.handlers[h], Counts(0, 1, 0, 0)))
    ensures OwnedBy(r, UnknownError(s, h))
  {
    assert HandlerOk(UnknownError(s, h).handlers[h], Counts(0, 0, 1, 0));
    FinishOk(r, s, h, if s.handlers[h].kind == Stream then s.handlers[h].status else Internal);
  }

  lemma FlowOk<D(!new), B(!new)>(r: Rules<B>, v: Service<D, B>, s: Server<D, B>, op: Op, h: Ref, ok: bool, incoming: B)
    requires Means(r) && OwnedBy(r, s) && h in Pending(s, op)
    ensures h in s.handlers && OwnedBy(r, Flow(v, Taken(s, op, h), h, ok, incoming))
  {
    TakenOk(r, s, op, h);
    var s1, x := Taken(s, op, h), s.handlers[h];
    assert HandlerOk(x, CountsOf(s, h));
    if s.down {
      assert Ended(x, true);
      DeletedOk(r, s1, h);
    } else if !ok && x.phase != Processed {
      UnknownErrorOk(r, s1, h);
    } else {
      match x.phase
      case Created => CreatedOk(r, v, s1, h, incoming);
      case Read => ProcessingOk(r, v, s1, h, incoming);
      case Processed =>
        assert Ended(x, false);
        DeletedOk(r, s1, h);
    }
  }

  lemma BatchSucceeded<B>(x: Handler<B>)
    requires HandlerOk(x, Counts(0, 0, 0, 1)) && x.request.Some? && x.kind == Stream
    ensures HandlerOk(Answered(x, Ok).(phase := Read, status := Ok), Counts(0, 1, 0, 0))
  {
  }

  lemma BatchReported<B>(x: Handler<B>, code: Code)
    requires HandlerOk(x, Counts(0, 0, 0, 1)) && x.request.Some? && (x.kind == Stream ==> code != Ok)
    ensures HandlerOk(Answered(x, code).(phase := Processed, status := code, finished := x.finished + [code]),
      Counts(0, 0, 1, 0))
  {
  }

  lemma TaskOk<D(!new), B(!new)>(r: Rules<B>, v: Service<D, B>, s: Server<D, B>, h: Ref, outcome: Outcome<D>)
    requires Means(r) && OwnedBy(r, s) && h in s.running
    ensures h in s.handlers && s.handlers[h].request.Some?
    ensures OwnedBy(r, TaskDone(v, s.(running := s.running - multiset{h}), h, outcome))
  {
    TaskTaken(r, s, h);
    var s0, x := s.(running := s.running - multiset{h}), s.handlers[h];
    assert HandlerOk(x, Counts(0, 0, 0, 1));
    match outcome
    case Returned =>
      var (db, code) := v.apply(s.db, x.request.value);
      var x1 := Answered(x, code);
      var s1 := s0.(db := db, handlers := s.handlers[h := x1]);
      RewrittenOk(r, s0, h, db, x1);
      if x.kind == Stream && code == Ok {
        BatchSucceeded(x);
        RewrittenOk(r, s1, h, db, x1.(status := Ok));
        ReadingOk(r, s1.(handlers := s1.handlers[h := x1.(status := Ok)]), h);
      } else {
        BatchReported(x, code);
        FinishOk(r, s1, h, code);
      }
    case Threw(db) => TaskThrewOk(r, s0, h, db);
  }

  lemma TaskThrewOk<D(!new), B(!new)>(r: Rules<B>, s: Server<D, B>, h: Ref, db: D)
    requires Means(r) && InHand(r, s, h) && HandlerOk(s.handlers[h], Counts(0, 0, 0, 1))
    ensures var x := s.handlers[h];
      OwnedBy(r, if x.kind == Stream then s.(db := db, handlers := s.handlers[h := x.(lost := true)])
                 else Finish(s.(db := db), h, Internal))
  {
    var x := s.handlers[h];
    if x.kind == Stream {
      assert HandlerOk(x.(lost := true), NOTHING);
      RewrittenOk(r, s, h, db, x.(lost := true));
    } else {
      assert s.handlers[h := x] == s.handlers;
      RewrittenOk(r, s, h, db, x);
      assert HandlerOk(Finish(s.(db := db), h, Internal).handlers[h], Counts(0, 0, 1, 0));
      FinishOk(r, s.(db := db), h, Internal);
    }
  }

  lemma StartOk<D(!new), B(!new)>(r: Rules<B>, s: Server<D, B>)
    requires OwnedBy(r, s) && s.queued != []
    ensures OwnedBy(r, s.(queued := s.queued[1..], running := s.running + multiset{s.queued[0]}))
  {
    assert s.queued == [s.queued[0]] + s.queued[1..];
    assert forall h ::
      CountsOf(s.(queued := s.queued[1..], running := s.running + multiset{s.queued[0]}), h) == CountsOf(s, h);
  }

  lemma DownOk<D(!new), B(!new)>(r: Rules<B>, s: Server<D, B>)
    requires Means(r) && OwnedBy(r, s)
    ensures OwnedBy(r, s.(down := true))
  {
    assert forall h :: CountsOf(s.(down := true), h) == CountsOf(s, h);
    forall h | h in s.gone ensures r.ended(s.gone[h], true) {
      assert Ended(s.gone[h], s.down) ==> Ended(s.gone[h], true);
    }
  }

  lemma StepKeepsOwnership<D(!new), B(!new)>(r: Rules<B>, v: Service<D, B>, s: Server<D, B>, step: Step<D, B>)
    requires Means(r) && OwnedBy(r, s) && Enabled(s, step)
    ensures OwnedBy(r, After(v, s, step))
  {
    match step
    case Complete(op, h, ok, incoming) => FlowOk(r, v, s, op, h, ok, incoming);
    case StartTask => StartOk(r, s);
    case EndTask(h, outcome) => TaskOk(r, v, s, h, outcome);
    case ShutDown => DownOk(r, s);
  }

  lemma InitialCounts<D(!new), B(!new)>(s: Server<D, B>, h: Ref)
    requires Initial(s)
    ensures CountsOf(s, h) == if h in s.handlers then Counts(1, 0, 0, 0) else NOTHING
  {
  }

  lemma InitialOwned<D(!new), B(!new)>(r: Rules<B>, s: Server<D, B>)
    requires Means(r) && Initial(s)
    ensures OwnedBy(r, s)
  {
    forall h ensures CountsOf(s, h) == if h in s.handlers then Counts(1, 0, 0, 0) else NOTHING {
      InitialCounts(s, h);
    }
    forall h | h in s.handlers ensures r.live(s.handlers[h], CountsOf(s, h)) {
      assert HandlerOk(s.handlers[h], Counts(1, 0, 0, 0));
    }
  }

  lemma {:induction false} AllOwned<D(!new), B(!new)>(r: Rules<B>, v: Service<D, B>, states: seq<Server<D, B>>,
                                                      steps: seq<Step<D, B>>, i: nat)
    requires Means(r) && IsRun(v, states, steps) && i < |states|
    ensures OwnedBy(r, states[i])
  {
    if i == 0 {
      InitialOwned(r, states[0]);
    } else {
      AllOwned(r, v, states, steps, i - 1);
      StepKeepsOwnership(r, v, states[i - 1], steps[i - 1]);
    }
  }

  /**
   Over all runs: no handler is used or deleted after its deletion; a live one is
   referred to by exactly one pending operation or task, or by none once an exception
   has lost it; `Finish` is issued at most once, and reports what happened.
  */
  lemma RunsKeepOwnership<D(!new), B(!new)>(v: Service<D, B>, states: seq<Server<D, B>>, steps: seq<Step<D, B>>, i: nat)
    requires IsRun(v, states, steps) && i < |states|
    ensures !states[i].crashed
    ensures forall h :: h in states[i].handlers ==> HandlerOk(states[i].handlers[h], CountsOf(states[i], h))
    ensures forall h :: h !in states[i].handlers ==> CountsOf(states[i], h) == NOTHING
    ensures forall h :: h in states[i].gone ==> h !in states[i].handlers && Ended(states[i].gone[h], states[i].down)
    ensures forall h :: h in states[i].handlers || h in states[i].gone ==> h < states[i].next
  {
    var r := Rules((x, c) => HandlerOk(x, c), (x, down) => Ended(x, down));
    AllOwned(r, v, states, steps, i);
  }
}
