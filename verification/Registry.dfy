/** Starting and stopping one satellite process per database, as in
    clients/typescript/src/satellite/registry.ts. */
module Registry {
  import opened Types

  type DbName = string

  /** A process is known by its place in the order in which processes were launched. */
  type ProcessId = nat

  /** The three maps of the registry.  A promise is known by the process it starts or stops. */
  datatype Books = Books(
    satellites: map<DbName, ProcessId>, starting: map<DbName, ProcessId>, stopping: map<DbName, ProcessId>)

  /** What a call to ensureStarted waits for: the end of a stop, after which it asks again, or a process. */
  datatype Answer = AfterStop(p: ProcessId) | Gets(p: ProcessId)

  /** What a call to stop does: it waits for a start, after which it asks again, stops a process, or waits for
      the stop of one that is under way. */
  datatype StopAnswer = AfterStart(p: ProcessId) | Stops(p: ProcessId) | Ends(p: ProcessId) | NotRunning

  function Ensured(b: Books, db: DbName, launched: ProcessId): (Books, Answer) {
    if db in b.stopping then (b, AfterStop(b.stopping[db]))
    else if db in b.starting then (b, Gets(b.starting[db]))
    else if db in b.satellites then (b, Gets(b.satellites[db]))
    else (b.(starting := b.starting[db := launched]), Gets(launched))
  }

  function Started(b: Books, db: DbName, p: ProcessId): Books {
    b.(starting := b.starting - {db}, satellites := b.satellites[db := p])
  }

  function Halted(b: Books, db: DbName, shouldIncludeStarting: bool): (Books, StopAnswer) {
    if shouldIncludeStarting && db in b.starting then (b, AfterStart(b.starting[db]))
    else if db in b.stopping then (b, Ends(b.stopping[db]))
    else if db in b.satellites then (b.(stopping := b.stopping[db := b.satellites[db]]), Stops(b.satellites[db]))
    else (b, NotRunning)
  }

  function AlreadyStarted(b: Books, db: DbName): Option<ProcessId> {
    if db in b.starting then Some(b.starting[db])
    else if db in b.satellites then Some(b.satellites[db])
    else None
  }

  function Stopped(b: Books, db: DbName): Books {
    b.(satellites := b.satellites - {db}, stopping := b.stopping - {db})
  }

  class BaseRegistry {
    var satellites: map<DbName, ProcessId>
    var startingPromises: map<DbName, ProcessId>
    var stoppingPromises: map<DbName, ProcessId>

    constructor ()
      ensures Now() == Books(map[], map[], map[])
    {
      satellites, startingPromises, stoppingPromises := map[], map[], map[];
    }

    function Now(): Books
      reads this
    {
      Books(satellites, startingPromises, stoppingPromises)
    }

    /** The process `launched` is launched when there is nothing to wait for and nothing to return. */
    method EnsureStarted(db: DbName, launched: ProcessId) returns (answer: Answer)
      modifies `startingPromises
      ensures (Now(), answer) == Ensured(old(Now()), db, launched)
    {
      if db in stoppingPromises {
        return AfterStop(stoppingPromises[db]);
      }
      if db in startingPromises {
        return Gets(startingPromises[db]);
      }
      if db in satellites {
        return Gets(satellites[db]);
      }
      startingPromises := startingPromises[db := launched];
      answer := Gets(launched);
    }

    /** What runs when a start is done. */
    method OnStarted(db: DbName, p: ProcessId)
      modifies this
      ensures Now() == Started(old(Now()), db, p)
    {
      startingPromises := startingPromises - {db};
      satellites := satellites[db := p];
    }

    method EnsureAlreadyStarted(db: DbName) returns (answer: Option<ProcessId>)
      ensures answer == AlreadyStarted(Now(), db)
    {
      if db in startingPromises {
        return Some(startingPromises[db]);
      }
      if db in satellites {
        return Some(satellites[db]);
      }
      answer := None;
    }

    method Stop(db: DbName, shouldIncludeStarting: bool) returns (answer: StopAnswer)
      modifies `stoppingPromises
      ensures (Now(), answer) == Halted(old(Now()), db, shouldIncludeStarting)
    {
      if shouldIncludeStarting && db in startingPromises {
        return AfterStart(startingPromises[db]);
      }
      if db in stoppingPromises {
        return Ends(stoppingPromises[db]);
      }
      if db in satellites {
        stoppingPromises := stoppingPromises[db := satellites[db]];
        return Stops(satellites[db]);
      }
      answer := NotRunning;
    }

    /** What runs when a stop is done. */
    method OnStopped(db: DbName)
      modifies this
      ensures Now() == Stopped(old(Now()), db)
    {
      satellites := satellites - {db};
      stoppingPromises := stoppingPromises - {db};
    }

    /** Stops what is running, in any order, and waits for what is starting; each of those is stopped in turn. */
    method StopAll(shouldIncludeStarting: bool) returns (waits: set<ProcessId>)
      requires forall db :: db in startingPromises ==> db !in satellites
      requires forall db :: db in stoppingPromises ==> db in satellites && stoppingPromises[db] == satellites[db]
      modifies `stoppingPromises
      ensures Now() == old(Now()).(stopping := satellites)
      ensures waits == satellites.Values + if shouldIncludeStarting then startingPromises.Values else {}
    {
      var todo := satellites.Keys;
      waits := {};
      while todo != {}
        invariant todo <= satellites.Keys && Now() == old(Now()).(stopping := stoppingPromises)
        invariant forall db :: db in stoppingPromises ==> db in satellites && stoppingPromises[db] == satellites[db]
        invariant forall db :: db in satellites && db !in todo ==> db in stoppingPromises
        invariant forall p :: p in waits <==> exists db :: db in satellites && db !in todo && satellites[db] == p
        decreases todo
      {
        var db :| db in todo;
        todo := todo - {db};
        var end := Stop(db, true);
        waits := waits + {end.p};
      }
      assert stoppingPromises == satellites;
      assert waits == satellites.Values;
      if shouldIncludeStarting {
        waits := waits + startingPromises.Values;
      }
    }
  }

  // ---- The registry among its processes ----

  datatype Phase = Launching | Up | Quitting | Gone | StartFailed | StopFailed

  datatype Process = Process(db: DbName, phase: Phase)

  /** Started and not stopped: launching and quitting count. */
  predicate Live(p: Process) {
    p.phase.Launching? || p.phase.Up? || p.phase.Quitting? || p.phase.StopFailed?
  }

  /** The registry, every process launched so far, and what each call to ensureStarted and each call to
      stop was answered. */
  datatype World = World(
    books: Books, processes: seq<Process>, calls: map<nat, (DbName, Answer)>, stops: map<nat, (DbName, StopAnswer)>)

  const NOTHING := World(Books(map[], map[], map[]), [], map[], map[])

  datatype Event =
    | Ask(call: nat, db: DbName)
    | AskAgain(call: nat)
    | StartResolves(p: ProcessId)
    | StartRejects(p: ProcessId)
    | AskStop(call: nat, db: DbName, shouldIncludeStarting: bool)
    /** A stop that waited for a start asks again. */
    | AskStopAgain(call: nat)
    | StopResolves(p: ProcessId)
    | StopRejects(p: ProcessId)

  predicate In(w: World, p: ProcessId, phase: Phase) {
    p < |w.processes| && w.processes[p].phase == phase
  }

  /** Its start has come to an end, and not by a failure. */
  predicate Resolved(p: Process) {
    p.phase.Up? || p.phase.Quitting? || p.phase.Gone? || p.phase.StopFailed?
  }

  predicate Enabled(w: World, e: Event) {
    match e
    case Ask(call, _) => call !in w.calls
    case AskAgain(call) => call in w.calls && w.calls[call].1.AfterStop? && In(w, w.calls[call].1.p, Gone)
    case StartResolves(p) => In(w, p, Launching)
    case StartRejects(p) => In(w, p, Launching)
    case AskStop(call, _, _) => call !in w.stops
    case AskStopAgain(call) =>
      call in w.stops && w.stops[call].1.AfterStart? && w.stops[call].1.p < |w.processes| &&
      Resolved(w.processes[w.stops[call].1.p])
    case StopResolves(p) => In(w, p, Quitting)
    case StopRejects(p) => In(w, p, Quitting)
  }

  function Asked(w: World, call: nat, db: DbName): World {
    var (books, answer) := Ensured(w.books, db, |w.processes|);
    w.(books := books,
       processes := if answer == Gets(|w.processes|) then w.processes + [Process(db, Launching)] else w.processes,
       calls := w.calls[call := (db, answer)])
  }

  function To(w: World, p: ProcessId, phase: Phase): seq<Process>
    requires p < |w.processes|
  {
    w.processes[p := w.processes[p].(phase := phase)]
  }

  function StopAsked(w: World, call: nat, db: DbName, shouldIncludeStarting: bool): World {
    var (books, answer) := Halted(w.books, db, shouldIncludeStarting);
    w.(books := books,
       processes := if answer.Stops? && answer.p < |w.processes| then To(w, answer.p, Quitting) else w.processes,
       stops := w.stops[call := (db, answer)])
  }

  function Step(w: World, e: Event): World
    requires Enabled(w, e)
  {
    match e
    case Ask(call, db) => Asked(w, call, db)
    case AskAgain(call) => Asked(w, call, w.calls[call].0)
    case StartResolves(p) => w.(books := Started(w.books, w.processes[p].db, p), processes := To(w, p, Up))
    case StartRejects(p) => w.(processes := To(w, p, StartFailed))
    case AskStop(call, db, shouldIncludeStarting) => StopAsked(w, call, db, shouldIncludeStarting)
    case AskStopAgain(call) => StopAsked(w, call, w.stops[call].0, true)
    case StopResolves(p) => w.(books := Stopped(w.books, w.processes[p].db), processes := To(w, p, Gone))
    case StopRejects(p) => w.(processes := To(w, p, StopFailed))
  }

  // ---- What every step keeps ----

  predicate StartingIs(w: World, db: DbName, p: ProcessId) {
    db in w.books.starting && w.books.starting[db] == p
  }

  predicate SatelliteIs(w: World, db: DbName, p: ProcessId) {
    db in w.books.satellites && w.books.satellites[db] == p
  }

  predicate StoppingIs(w: World, db: DbName, p: ProcessId) {
    db in w.books.stopping && w.books.stopping[db] == p
  }

  /** Each process is in exactly the maps that its phase says. */
  predicate Filed(w: World, p: ProcessId)
    requires p < |w.processes|
  {
    var db := w.processes[p].db;
    match w.processes[p].phase
    case Launching => StartingIs(w, db, p)
    case StartFailed => StartingIs(w, db, p)
    case Up => SatelliteIs(w, db, p) && db !in w.books.stopping
    case Quitting => SatelliteIs(w, db, p) && StoppingIs(w, db, p)
    case StopFailed => SatelliteIs(w, db, p) && StoppingIs(w, db, p)
    case Gone => true
  }

  /** Each entry of a map names a process of that database in a phase that fits. */
  predicate Entered(w: World, db: DbName) {
    (db in w.books.starting ==>
       var p := w.books.starting[db];
       p < |w.processes| && w.processes[p].db == db &&
         (w.processes[p].phase.Launching? || w.processes[p].phase.StartFailed?) &&
       db !in w.books.satellites && db !in w.books.stopping) &&
    (db in w.books.satellites ==>
       var p := w.books.satellites[db];
       p < |w.processes| && w.processes[p].db == db &&
       (w.processes[p].phase.Up? || w.processes[p].phase.Quitting? || w.processes[p].phase.StopFailed?)) &&
    (db in w.books.stopping ==> db in w.books.satellites && w.books.stopping[db] == w.books.satellites[db])
  }

  predicate Promised(w: World, call: nat)
    requires call in w.calls
  {
    var (db, answer) := w.calls[call];
    answer.p < |w.processes| && w.processes[answer.p].db == db
  }

  predicate Awaited(w: World, call: nat)
    requires call in w.stops
  {
    var (db, answer) := w.stops[call];
    answer.AfterStart? ==> answer.p < |w.processes| && w.processes[answer.p].db == db
  }

  ghost predicate Inv(w: World) {
    (forall p: ProcessId :: p < |w.processes| ==> Filed(w, p)) &&
    (forall db: DbName :: Entered(w, db)) &&
    (forall call :: call in w.calls ==> Promised(w, call)) &&
    (forall call :: call in w.stops ==> Awaited(w, call))
  }

  lemma AskKeeps(w: World, call: nat, db: DbName)
    requires Inv(w)
    ensures Inv(Asked(w, call, db))
  {
    var u := Asked(w, call, db);
    assert Entered(w, db);
    forall d: DbName ensures Entered(u, d) { assert Entered(w, d); }
    forall p: ProcessId | p < |u.processes| ensures Filed(u, p) { assert p < |w.processes| ==> Filed(w, p); }
    forall c | c in u.calls ensures Promised(u, c) { assert c != call ==> Promised(w, c); }
    forall c | c in u.stops ensures Awaited(u, c) { assert Awaited(w, c); }
  }

  lemma CallsStayPromised(w: World, u: World)
    requires Inv(w) && u.calls == w.calls && |u.processes| == |w.processes|
    requires forall p :: 0 <= p < |w.processes| ==> u.processes[p].db == w.processes[p].db
    ensures forall call :: call in u.calls ==> Promised(u, call)
    ensures forall call :: call in w.stops && call in u.stops && u.stops[call] == w.stops[call] ==> Awaited(u, call)
  {
    forall call | call in u.calls ensures Promised(u, call) {
      assert Promised(w, call);
      var p := w.calls[call].1.p;
      assert u.processes[p].db == w.processes[p].db;
    }
    forall call | call in w.stops && call in u.stops && u.stops[call] == w.stops[call] ensures Awaited(u, call) {
      assert Awaited(w, call);
    }
  }

  lemma StartResolvesKeeps(w: World, p: ProcessId)
    requires Inv(w) && Enabled(w, StartResolves(p))
    ensures Inv(Step(w, StartResolves(p)))
  {
    var u := Step(w, StartResolves(p));
    assert Filed(w, p) && Entered(w, w.processes[p].db);
    forall d: DbName ensures Entered(u, d) { assert Entered(w, d); }
    forall q: ProcessId | q < |u.processes| ensures Filed(u, q) { assert Filed(w, q); }
    CallsStayPromised(w, u);
  }

  lemma RejectKeeps(w: World, p: ProcessId, e: Event)
    requires Inv(w) && (e == StartRejects(p) || e == StopRejects(p)) && Enabled(w, e)
    ensures Inv(Step(w, e))
  {
    var u := Step(w, e);
    assert Filed(w, p);
    forall d: DbName ensures Entered(u, d) { assert Entered(w, d); }
    forall q: ProcessId | q < |u.processes| ensures Filed(u, q) { assert Filed(w, q); }
    CallsStayPromised(w, u);
  }

  lemma StopResolvesKeeps(w: World, p: ProcessId)
    requires Inv(w) && Enabled(w, StopResolves(p))
    ensures Inv(Step(w, StopResolves(p)))
  {
    var u := Step(w, StopResolves(p));
    assert Filed(w, p) && Entered(w, w.processes[p].db);
    forall d: DbName ensures Entered(u, d) { assert Entered(w, d); }
    forall q: ProcessId | q < |u.processes| ensures Filed(u, q) { assert Filed(w, q); }
    CallsStayPromised(w, u);
  }

  lemma AskStopKeeps(w: World, call: nat, db: DbName, shouldIncludeStarting: bool)
    requires Inv(w)
    ensures Inv(StopAsked(w, call, db, shouldIncludeStarting))
  {
    var u := StopAsked(w, call, db, shouldIncludeStarting);
    assert Entered(w, db);
    forall d: DbName ensures Entered(u, d) { assert Entered(w, d); }
    forall q: ProcessId | q < |u.processes| ensures Filed(u, q) { assert Filed(w, q); }
    CallsStayPromised(w, u);
  }

  lemma StepKeeps(w: World, e: Event)
    requires Inv(w) && Enabled(w, e)
    ensures Inv(Step(w, e))
  {
    match e
    case Ask(call, db) => AskKeeps(w, call, db);
    case AskAgain(call) => AskKeeps(w, call, w.calls[call].0);
    case StartResolves(p) => StartResolvesKeeps(w, p);
    case StartRejects(p) => RejectKeeps(w, p, e);
    case AskStop(call, db, shouldIncludeStarting) => AskStopKeeps(w, call, db, shouldIncludeStarting);
    case AskStopAgain(call) => AskStopKeeps(w, call, w.stops[call].0, true);
    case StopResolves(p) => StopResolvesKeeps(w, p);
    case StopRejects(p) => RejectKeeps(w, p, e);
  }

  predicate Possible(w: World, events: seq<Event>)
    decreases |events|, 1
  {
    events == [] || (Possible(w, events[..|events| - 1]) &&
      Enabled(Run(w, events[..|events| - 1]), events[|events| - 1]))
  }

  function Run(w: World, events: seq<Event>): World
    requires Possible(w, events)
    decreases |events|
  {
    if events == [] then w else Step(Run(w, events[..|events| - 1]), events[|events| - 1])
  }

  lemma {:induction false} RunKeeps(w: World, events: seq<Event>)
    requires Inv(w) && Possible(w, events)
    ensures Inv(Run(w, events))
  {
    if events != [] {
      RunKeeps(w, events[..|events| - 1]);
      StepKeeps(Run(w, events[..|events| - 1]), events[|events| - 1]);
    }
  }

  // ---- One process per database ----

  /** In every interleaving at most one process of a database is live, a starting database is in
      neither of the other maps, and a stopping one is still among the satellites. */
  lemma OneLiveProcess(events: seq<Event>, p: ProcessId, q: ProcessId, db: DbName)
    requires Possible(NOTHING, events)
    ensures var w := Run(NOTHING, events);
      ((p < |w.processes| && q < |w.processes| && Live(w.processes[p]) && Live(w.processes[q]) &&
        w.processes[p].db == w.processes[q].db) ==> p == q) &&
      (db in w.books.starting ==> db !in w.books.satellites && db !in w.books.stopping) &&
      (db in w.books.stopping ==> SatelliteIs(w, db, w.books.stopping[db]))
  {
    RunKeeps(NOTHING, events);
    var w := Run(NOTHING, events);
    assert Entered(w, db);
    if p < |w.processes| && q < |w.processes| {
      assert Filed(w, p) && Filed(w, q) && Entered(w, w.processes[p].db);
    }
  }

  /** Callers that were promised a process which is still live were promised the same one. */
  lemma CallersShareTheProcess(events: seq<Event>, c: nat, d: nat)
    requires Possible(NOTHING, events)
    ensures var w := Run(NOTHING, events);
      c in w.calls && d in w.calls && w.calls[c].0 == w.calls[d].0 && w.calls[c].1.Gets? && w.calls[d].1.Gets? &&
      w.calls[c].1.p < |w.processes| && Live(w.processes[w.calls[c].1.p]) &&
      w.calls[d].1.p < |w.processes| && Live(w.processes[w.calls[d].1.p]) ==>
        w.calls[c].1 == w.calls[d].1
  {
    RunKeeps(NOTHING, events);
    var w := Run(NOTHING, events);
    if c in w.calls && d in w.calls {
      assert Promised(w, c) && Promised(w, d);
      OneLiveProcess(events, w.calls[c].1.p, w.calls[d].1.p, w.calls[c].0);
    }
  }

  /** A call made during a start is answered with the process that is starting. */
  lemma CallDuringStart(w: World, call: nat, p: ProcessId)
    requires Inv(w) && In(w, p, Launching) && call !in w.calls
    ensures var u := Step(w, Ask(call, w.processes[p].db));
      u.calls[call].1 == Gets(p) && u.books == w.books && u.processes == w.processes
  {
    assert Filed(w, p) && Entered(w, w.processes[p].db);
  }

  /** A call waits for a stop that is under way or failed, gets a process that starts, runs or failed to
      start, and launches a new one exactly when all of the database are gone. */
  lemma CallAnswersExactlyWhen(w: World, call: nat, db: DbName, p: ProcessId)
    requires Inv(w) && call !in w.calls
    ensures var u := Step(w, Ask(call, db));
      (u.calls[call].1 == AfterStop(p) <==>
       p < |w.processes| && w.processes[p].db == db &&
       (w.processes[p].phase.Quitting? || w.processes[p].phase.StopFailed?)) &&
      (p < |w.processes| ==>
       (u.calls[call].1 == Gets(p) <==>
        (w.processes[p].db == db &&
         (w.processes[p].phase.Launching? || w.processes[p].phase.StartFailed? || w.processes[p].phase.Up?)))) &&
      (u.processes == w.processes + [Process(db, Launching)] <==>
       forall q: ProcessId :: q < |w.processes| && w.processes[q].db == db ==> w.processes[q].phase.Gone?)
  {
    assert Entered(w, db);
    forall q: ProcessId | q < |w.processes| && w.processes[q].db == db && !w.processes[q].phase.Gone?
      ensures Ensured(w.books, db, |w.processes|).1.p == q && Filed(w, q)
    {
      assert Filed(w, q);
    }
  }

  /** The answer is the one process of the database that is not gone, and an error exactly when all are. */
  lemma AlreadyStartedExactlyWhen(events: seq<Event>, db: DbName, p: ProcessId)
    requires Possible(NOTHING, events)
    ensures var w := Run(NOTHING, events);
      (AlreadyStarted(w.books, db) == Some(p) <==>
       p < |w.processes| && w.processes[p].db == db && !w.processes[p].phase.Gone?) &&
      (AlreadyStarted(w.books, db) == None <==>
       forall q: ProcessId :: q < |w.processes| && w.processes[q].db == db ==> w.processes[q].phase.Gone?)
  {
    RunKeeps(NOTHING, events);
    var w := Run(NOTHING, events);
    assert Entered(w, db);
    forall q: ProcessId | q < |w.processes| && w.processes[q].db == db && !w.processes[q].phase.Gone?
      ensures AlreadyStarted(w.books, db) == Some(q)
    {
      assert Filed(w, q);
    }
  }

  // ---- Stopping ----

  /** A process of the database whose start has not come to a good end, or one that came up and is not gone. */
  predicate StartsFor(w: World, p: ProcessId, db: DbName) {
    p < |w.processes| && w.processes[p].db == db &&
    (w.processes[p].phase.Launching? || w.processes[p].phase.StartFailed?)
  }

  predicate RunsFor(w: World, p: ProcessId, db: DbName) {
    p < |w.processes| && w.processes[p].db == db &&
    (w.processes[p].phase.Up? || w.processes[p].phase.Quitting? || w.processes[p].phase.StopFailed?)
  }

  predicate UpFor(w: World, p: ProcessId, db: DbName) {
    p < |w.processes| && w.processes[p] == Process(db, Up)
  }

  /** A stop waits for a start exactly when it includes starting and one is there, stops exactly a process that
      is up, waits for the one stop of a process that quits or failed to, and otherwise has nothing to do. */
  lemma StopAnswersExactlyWhen(w: World, call: nat, db: DbName, shouldIncludeStarting: bool, p: ProcessId)
    requires Inv(w) && call !in w.stops
    ensures var answer := Step(w, AskStop(call, db, shouldIncludeStarting)).stops[call].1;
      (answer == AfterStart(p) <==> shouldIncludeStarting && StartsFor(w, p, db)) &&
      (answer == Stops(p) <==> UpFor(w, p, db)) &&
      (answer == Ends(p) <==> RunsFor(w, p, db) && !UpFor(w, p, db)) &&
      (answer == NotRunning <==>
       forall q: ProcessId :: !RunsFor(w, q, db) && !(shouldIncludeStarting && StartsFor(w, q, db)))
  {
    assert Entered(w, db);
    forall q: ProcessId | StartsFor(w, q, db) || RunsFor(w, q, db)
      ensures StartsFor(w, q, db) ==> StartingIs(w, db, q)
      ensures RunsFor(w, q, db) ==> SatelliteIs(w, db, q) && db !in w.books.starting
      ensures UpFor(w, q, db) ==> db !in w.books.stopping
      ensures RunsFor(w, q, db) && !UpFor(w, q, db) ==> StoppingIs(w, db, q)
    {
      assert Filed(w, q);
    }
    var answer := Halted(w.books, db, shouldIncludeStarting).1;
    assert answer.AfterStart? ==> StartsFor(w, answer.p, db);
    assert answer.Stops? || answer.Ends? ==> RunsFor(w, answer.p, db);
  }

  /** A stop makes the process that is up quit, and touches no other process. */
  lemma StopQuits(w: World, call: nat, db: DbName, shouldIncludeStarting: bool, p: ProcessId)
    requires Inv(w) && call !in w.stops && p < |w.processes|
    ensures var u := Step(w, AskStop(call, db, shouldIncludeStarting));
      |u.processes| == |w.processes| && u.calls == w.calls &&
      u.processes[p] == if w.processes[p] == Process(db, Up) then Process(db, Quitting) else w.processes[p]
  {
    assert Entered(w, db) && Filed(w, p);
  }

  /** A stop that waited for a start ends the process that came up. */
  lemma StopAfterStartEnds(w: World, call: nat)
    requires Inv(w) && Enabled(w, AskStopAgain(call))
    ensures var p, u := w.stops[call].1.p, Step(w, AskStopAgain(call));
      p < |u.processes| && u.processes[p].db == w.stops[call].0 &&
      (u.processes[p].phase == if w.processes[p].phase.Up? then Quitting else w.processes[p].phase) &&
      (u.processes[p].phase.Quitting? || u.processes[p].phase.Gone? || u.processes[p].phase.StopFailed?)
  {
    var p := w.stops[call].1.p;
    assert Awaited(w, call) && Filed(w, p) && Entered(w, w.stops[call].0);
  }

  // ---- A failure is final ----

  predicate FailedFor(w: World, p: ProcessId, db: DbName) {
    p < |w.processes| && w.processes[p].db == db &&
      (w.processes[p].phase.StartFailed? || w.processes[p].phase.StopFailed?)
  }

  predicate Helps(w: World, answer: Answer) {
    answer.p < |w.processes| &&
    match answer
    case Gets(p) => Live(w.processes[p]) && !w.processes[p].phase.Quitting?
    case AfterStop(p) => w.processes[p].phase.Quitting?
  }

  /** A call is promised a process, or the end of a stop that is under way, exactly when no start and
      no stop of that database has failed before. */
  lemma CallHelpsExactlyWhen(w: World, call: nat, db: DbName)
    requires Inv(w) && call !in w.calls
    ensures var u := Step(w, Ask(call, db));
      Helps(u, u.calls[call].1) <==> forall p: ProcessId :: !FailedFor(w, p, db)
  {
    var u := Step(w, Ask(call, db));
    var answer := u.calls[call].1;
    assert Entered(w, db);
    forall p: ProcessId | FailedFor(w, p, db) ensures answer.p == p && u.processes == w.processes {
      assert Filed(w, p);
    }
    if answer.p < |w.processes| {
      assert Filed(w, answer.p);
      assert !Helps(u, answer) ==> FailedFor(w, answer.p, db);
    }
  }

  lemma StepKeepsFailure(w: World, e: Event, p: ProcessId, db: DbName)
    requires Inv(w) && Enabled(w, e) && FailedFor(w, p, db)
    ensures FailedFor(Step(w, e), p, db)
  {
    assert Filed(w, p);
    match e
    case AskStop(_, d, _) => assert Entered(w, d);
    case AskStopAgain(call) => assert Entered(w, w.stops[call].0);
    case _ =>
  }

  /** A failed start or stop stays so in every later state, so that no later call for its database helps. */
  lemma {:induction false} FailureIsFinal(w: World, events: seq<Event>, p: ProcessId, db: DbName)
    requires Inv(w) && Possible(w, events) && FailedFor(w, p, db)
    ensures FailedFor(Run(w, events), p, db)
  {
    if events != [] {
      var front := events[..|events| - 1];
      FailureIsFinal(w, front, p, db);
      RunKeeps(w, front);
      StepKeepsFailure(Run(w, front), events[|events| - 1], p, db);
    }
  }

  /** One failed start: whoever asks then is answered with the process that never came up. */
  lemma FailedStartIsNotRetried(db: DbName)
    ensures var events := [Ask(0, db), StartRejects(0)];
      Possible(NOTHING, events) && FailedFor(Run(NOTHING, events), 0, db) &&
      var u := Asked(Run(NOTHING, events), 1, db); u.calls[1] == (db, Gets(0)) && !Helps(u, Gets(0))
  {
    var first: Event, second: Event := Ask(0, db), StartRejects(0);
    var events := [first, second];
    assert events[..1] == [first] && [first][..0] == [];
    assert Possible(NOTHING, []) && Run(NOTHING, []) == NOTHING;
    assert Possible(NOTHING, [first]);
    var w := Asked(NOTHING, 0, db);
    assert Run(NOTHING, [first]) == w;
    assert w.processes == [Process(db, Launching)];
  }
}
