/** The cached thread pool (`src/stx/thread/threadpool.cc`): its critical sections, and
    every interleaving of submitters and workers. */
module ThreadPool {
  import opened Text

  // -------------------------------------------------------------- critical sections

  /** What the mutex protects. */
  datatype Pool<T> = Pool(queue: seq<T>, free: nat, threads: nat)

  /** `run`; the result says whether a thread is to be started, and if so whether it is a
      cached one. */
  function Submitted<T>(p: Pool<T>, task: T, maxCached: nat): (Pool<T>, Option<bool>) {
    var q := p.queue + [task];
    if |q| > p.free then (Pool(q, p.free, p.threads + 1), Some(p.threads + 1 <= maxCached))
    else (p.(queue := q), None)
  }

  /** A free worker with the lock: the front task if there is one, else it waits. */
  function Looked<T>(p: Pool<T>): (Pool<T>, Option<T>)
    requires p.free > 0
  {
    if p.queue == [] then (p, None) else (p.(queue := p.queue[1..], free := p.free - 1), Some(p.queue[0]))
  }

  /** A worker at the top of its loop. */
  function Entered<T>(p: Pool<T>): (Pool<T>, Option<T>) { Looked(p.(free := p.free + 1)) }

  class CachedThreadPool<T> {
    const maxCachedThreads: nat
    var runq: seq<T>
    var freeThreads: nat
    var numThreads: nat

    function View(): Pool<T>
      reads this
    {
      Pool(runq, freeThreads, numThreads)
    }

    constructor (max: nat)
      ensures View() == Pool([], 0, 0) && maxCachedThreads == max
    {
      maxCachedThreads := max;
      runq, freeThreads, numThreads := [], 0, 0;
    }

    method Run(task: T) returns (start: Option<bool>)
      modifies this
      ensures (View(), start) == Submitted(old(View()), task, maxCachedThreads)
    {
      runq := runq + [task];
      start := None;
      if |runq| > freeThreads {
        numThreads := numThreads + 1;
        start := Some(numThreads <= maxCachedThreads);
      }
    }

    method Enter() returns (task: Option<T>)
      modifies this
      ensures (View(), task) == Entered(old(View()))
    {
      freeThreads := freeThreads + 1;
      task := Look();
    }

    method Look() returns (task: Option<T>)
      requires freeThreads > 0
      modifies this
      ensures (View(), task) == Looked(old(View()))
    {
      if |runq| == 0 { return None; }
      task := Some(runq[0]);
      runq := runq[1..];
      freeThreads := freeThreads - 1;
    }
  }

  // ---------------------------------------------------------------- interleavings

  /** `Starting`: not at its loop yet.  `Waiting` and `Woken`: inside `wait`, before and
      after a notification.  `Between`: back from a task, before the lock. */
  datatype Phase = Starting | Waiting | Woken | Running | Between | Leaving | Gone

  datatype Worker = Worker(phase: Phase, cached: bool)

  /** `notifies`: submitters that have let go of the lock and not yet notified. */
  datatype System<T> = System(pool: Pool<T>, workers: seq<Worker>, notifies: nat, submitted: seq<T>, taken: seq<T>)

  datatype Event<T> =
    | Submit(task: T, created: bool)
    | Notify(who: nat)
    | NotifyNobody
    | Enter(who: nat)
    | Spurious(who: nat)
    | Recheck(who: nat)
    | Done(who: nat)
    | Leave(who: nat)

  predicate In<T>(y: System<T>, who: nat, phase: Phase) { who < |y.workers| && y.workers[who].phase == phase }

  /** Workers in a phase. */
  function CountIn(ws: seq<Worker>, phase: Phase): nat {
    if ws == [] then 0 else CountIn(ws[..|ws| - 1], phase) + One(ws[|ws| - 1].phase == phase)
  }

  function One(b: bool): nat { if b then 1 else 0 }

  function Count<T>(y: System<T>, phase: Phase): nat { CountIn(y.workers, phase) }

  predicate Enabled<T>(y: System<T>, ev: Event<T>) {
    match ev
    case Submit(_, _) => true
    case Notify(who) => y.notifies > 0 && In(y, who, Waiting)
    case NotifyNobody => y.notifies > 0 && Count(y, Waiting) == 0
    case Enter(who) => In(y, who, Starting) || In(y, who, Between)
    case Spurious(who) => In(y, who, Waiting)
    case Recheck(who) => In(y, who, Woken) && y.pool.free > 0
    case Done(who) => In(y, who, Running)
    case Leave(who) => In(y, who, Leaving) && y.pool.threads > 0
  }

  function Moved<T>(y: System<T>, who: nat, phase: Phase): System<T>
    requires who < |y.workers|
  {
    y.(workers := y.workers[who := y.workers[who].(phase := phase)])
  }

  /** A worker that looked: it has the task, or it waits. */
  function Took<T>(y: System<T>, who: nat, r: (Pool<T>, Option<T>)): System<T>
    requires who < |y.workers|
  {
    match r.1
    case None => Moved(y, who, Waiting).(pool := r.0)
    case Some(task) => Moved(y, who, Running).(pool := r.0, taken := y.taken + [task])
  }

  function Next<T>(y: System<T>, ev: Event<T>, maxCached: nat): System<T>
    requires Enabled(y, ev)
  {
    match ev
    case Submit(task, created) =>
      var (p, start) := Submitted(y.pool, task, maxCached);
      System(p, if start.Some? && created then y.workers + [Worker(Starting, start.value)] else y.workers,
             y.notifies + 1, y.submitted + [task], y.taken)
    case Notify(who) => Moved(y, who, Woken).(notifies := y.notifies - 1)
    case NotifyNobody => y.(notifies := y.notifies - 1)
    case Enter(who) => Took(y, who, Entered(y.pool))
    case Spurious(who) => Moved(y, who, Woken)
    case Recheck(who) => Took(y, who, Looked(y.pool))
    case Done(who) => Moved(y, who, if y.workers[who].cached then Between else Leaving)
    case Leave(who) => Moved(y, who, Gone).(pool := y.pool.(threads := y.pool.threads - 1))
  }

  function Run<T>(evs: seq<Event<T>>, maxCached: nat): Option<System<T>> {
    if evs == [] then Some(System(Pool([], 0, 0), [], 0, [], [])) else
      match Run(evs[..|evs| - 1], maxCached)
      case None => None
      case Some(y) => var ev := evs[|evs| - 1]; if Enabled(y, ev) then Some(Next(y, ev, maxCached)) else None
  }

  // ------------------------------------------------------------------ invariants

  /** Tasks are taken in the order of submission, each once. */
  ghost predicate Orderly<T>(y: System<T>) { y.submitted == y.taken + y.pool.queue }

  /** The counter counts the workers inside `wait`. */
  predicate Counted<T>(y: System<T>) { y.pool.free == Count(y, Waiting) + Count(y, Woken) }

  /** The other counter counts the threads there are. */
  predicate Present<T>(y: System<T>) { y.pool.threads + Count(y, Gone) == |y.workers| }

  predicate Enough<T>(y: System<T>) { |y.pool.queue| <= y.pool.free + Count(y, Starting) }

  /** For every queued task, someone is on the way to look at the queue. */
  predicate Attended<T>(y: System<T>) {
    |y.pool.queue| <= Count(y, Starting) + Count(y, Woken) + y.notifies
  }

  /** What failing thread starts cannot break; the counter of threads counts those too. */
  ghost predicate Sound<T>(y: System<T>) {
    Orderly(y) && Counted(y) && |y.workers| <= y.pool.threads + Count(y, Gone)
  }

  ghost predicate Good<T>(y: System<T>) { Orderly(y) && Counted(y) && Present(y) && Enough(y) && Attended(y) }

  lemma {:induction false} CountMoved(ws: seq<Worker>, who: nat, w: Worker, p: Phase)
    requires who < |ws|
    ensures CountIn(ws[who := w], p) + One(ws[who].phase == p) == CountIn(ws, p) + One(w.phase == p)
  {
    var n := |ws| - 1;
    if who < n {
      assert ws[who := w][..n] == ws[..n][who := w];
      CountMoved(ws[..n], who, w, p);
    } else {
      assert ws[who := w][..n] == ws[..n];
    }
  }

  lemma CountsMoved<T>(y: System<T>, who: nat, phase: Phase)
    requires who < |y.workers|
    ensures var y', was := Moved(y, who, phase), y.workers[who].phase;
      Count(y', Starting) + One(was == Starting) == Count(y, Starting) + One(phase == Starting)
      && Count(y', Waiting) + One(was == Waiting) == Count(y, Waiting) + One(phase == Waiting)
      && Count(y', Woken) + One(was == Woken) == Count(y, Woken) + One(phase == Woken)
      && Count(y', Gone) + One(was == Gone) == Count(y, Gone) + One(phase == Gone)
  {
    var w := y.workers[who].(phase := phase);
    CountMoved(y.workers, who, w, Starting);
    CountMoved(y.workers, who, w, Waiting);
    CountMoved(y.workers, who, w, Woken);
    CountMoved(y.workers, who, w, Gone);
  }

  lemma SubmitKeeps<T>(y: System<T>, task: T, maxCached: nat)
    requires Good(y)
    ensures Good(Next(y, Submit(task, true), maxCached))
  {
    var y' := Next(y, Submit(task, true), maxCached);
    assert y.submitted + [task] == y.taken + (y.pool.queue + [task]);
    var start := Submitted(y.pool, task, maxCached).1;
    if start.Some? { assert y'.workers[..|y.workers|] == y.workers; }
  }

  lemma TookKeeps<T>(y: System<T>, who: nat)
    requires Orderly(y) && y.pool.free > 0 && who < |y.workers|
    ensures Orderly(Took(y, who, Looked(y.pool)))
  {
    if y.pool.queue != [] {
      var q := y.pool.queue;
      assert y.taken + q == y.taken + [q[0]] + q[1..];
    }
  }

  lemma EnterKeeps<T>(y: System<T>, who: nat, maxCached: nat)
    requires Good(y) && Enabled(y, Enter(who))
    ensures Good(Next(y, Enter(who), maxCached))
  {
    var z := y.(pool := y.pool.(free := y.pool.free + 1));
    TookKeeps(z, who);
    CountsMoved(y, who, Waiting);
    CountsMoved(y, who, Running);
    assert Next(y, Enter(who), maxCached) == Took(z, who, Looked(z.pool));
  }

  lemma RecheckKeeps<T>(y: System<T>, who: nat, maxCached: nat)
    requires Good(y) && Enabled(y, Recheck(who))
    ensures Good(Next(y, Recheck(who), maxCached))
  {
    TookKeeps(y, who);
    CountsMoved(y, who, Waiting);
    CountsMoved(y, who, Running);
  }

  lemma MoveKeeps<T>(y: System<T>, ev: Event<T>, maxCached: nat)
    requires Good(y) && Enabled(y, ev)
    requires ev.Notify? || ev.NotifyNobody? || ev.Spurious? || ev.Done? || ev.Leave?
    ensures Good(Next(y, ev, maxCached))
  {
    match ev
    case Notify(who) => CountsMoved(y, who, Woken);
    case NotifyNobody =>
    case Spurious(who) => CountsMoved(y, who, Woken);
    case Done(who) => CountsMoved(y, who, if y.workers[who].cached then Between else Leaving);
    case Leave(who) => CountsMoved(y, who, Gone);
  }

  lemma StepKeeps<T>(y: System<T>, ev: Event<T>, maxCached: nat)
    requires Good(y) && Enabled(y, ev) && (ev.Submit? ==> ev.created)
    ensures Good(Next(y, ev, maxCached))
  {
    match ev
    case Submit(task, _) => SubmitKeeps(y, task, maxCached);
    case Enter(who) => EnterKeeps(y, who, maxCached);
    case Recheck(who) => RecheckKeeps(y, who, maxCached);
    case _ => MoveKeeps(y, ev, maxCached);
  }

  lemma SoundKeeps<T>(y: System<T>, ev: Event<T>, maxCached: nat)
    requires Sound(y) && Enabled(y, ev)
    ensures Sound(Next(y, ev, maxCached))
  {
    match ev
    case Submit(task, created) => SoundSubmit(y, task, created, maxCached);
    case Enter(who) => SoundLook(y.(pool := y.pool.(free := y.pool.free + 1)), y, who);
    case Recheck(who) => SoundLook(y, y, who);
    case NotifyNobody =>
    case Notify(who) => CountsMoved(y, who, Woken);
    case Spurious(who) => CountsMoved(y, who, Woken);
    case Done(who) => CountsMoved(y, who, if y.workers[who].cached then Between else Leaving);
    case Leave(who) => CountsMoved(y, who, Gone);
  }

  lemma SoundSubmit<T>(y: System<T>, task: T, created: bool, maxCached: nat)
    requires Sound(y)
    ensures Sound(Next(y, Submit(task, created), maxCached))
  {
    var y' := Next(y, Submit(task, created), maxCached);
    assert y.submitted + [task] == y.taken + (y.pool.queue + [task]);
    if |y'.workers| > |y.workers| { assert y'.workers[..|y.workers|] == y.workers; }
  }

  /** A worker looks at the queue, having been counted free in `z`. */
  lemma SoundLook<T>(z: System<T>, y: System<T>, who: nat)
    requires Sound(y) && who < |y.workers| && z == y.(pool := z.pool) && z.pool == y.pool.(free := z.pool.free)
    requires z.pool.free > 0
    requires var w := y.workers[who].phase;
      if z.pool.free == y.pool.free then w == Woken
      else (w == Starting || w == Between) && z.pool.free == y.pool.free + 1
    ensures Sound(Took(z, who, Looked(z.pool)))
  {
    TookKeeps(z, who);
    CountsMoved(y, who, if y.pool.queue == [] then Waiting else Running);
  }

  /** Every run, failing thread starts included. */
  lemma {:induction false} RunSound<T>(evs: seq<Event<T>>, maxCached: nat)
    requires Run(evs, maxCached).Some?
    ensures Sound(Run(evs, maxCached).value)
  {
    if evs != [] {
      var less := evs[..|evs| - 1];
      RunSound(less, maxCached);
      SoundKeeps(Run(less, maxCached).value, evs[|evs| - 1], maxCached);
    }
  }

  lemma {:induction false} CountBounds(ws: seq<Worker>, who: nat, p: Phase)
    requires who < |ws|
    ensures CountIn(ws, p) <= |ws|
    ensures if ws[who].phase == p then CountIn(ws, p) > 0 else CountIn(ws, p) < |ws|
  {
    var n := |ws| - 1;
    if n > 0 { CountBounds(ws[..n], if who < n then who else 0, p); }
  }

  /** The counters are positive when a worker decrements them. */
  lemma CountersPositive<T>(y: System<T>, who: nat)
    requires Sound(y) && who < |y.workers|
    ensures In(y, who, Woken) ==> y.pool.free > 0
    ensures In(y, who, Leaving) ==> y.pool.threads > 0
  {
    CountBounds(y.workers, who, Woken);
    CountBounds(y.workers, who, Gone);
  }

  /** Every thread that was to be started was. */
  predicate AllCreated<T>(evs: seq<Event<T>>) {
    forall i :: 0 <= i < |evs| && evs[i].Submit? ==> evs[i].created
  }

  lemma {:induction false} RunGood<T>(evs: seq<Event<T>>, maxCached: nat)
    requires Run(evs, maxCached).Some? && AllCreated(evs)
    ensures Good(Run(evs, maxCached).value)
  {
    if evs != [] {
      var less := evs[..|evs| - 1];
      assert AllCreated(less);
      RunGood(less, maxCached);
      StepKeeps(Run(less, maxCached).value, evs[|evs| - 1], maxCached);
    }
  }

  // ---------------------------------------------------------------- cached threads

  function CountCached(ws: seq<Worker>): nat {
    if ws == [] then 0 else CountCached(ws[..|ws| - 1]) + One(ws[|ws| - 1].cached)
  }

  /** Cached workers stay, and there are no more of them than allowed. */
  predicate Cached(ws: seq<Worker>, maxCached: nat) {
    CountCached(ws) <= maxCached &&
    forall i :: 0 <= i < |ws| && ws[i].cached ==> ws[i].phase != Leaving && ws[i].phase != Gone
  }

  lemma {:induction false} CachedArePresent(ws: seq<Worker>)
    requires forall i :: 0 <= i < |ws| && ws[i].cached ==> ws[i].phase != Gone
    ensures CountCached(ws) + CountIn(ws, Gone) <= |ws|
  {
    if ws != [] { CachedArePresent(ws[..|ws| - 1]); }
  }

  lemma {:induction false} CachedMoved(ws: seq<Worker>, who: nat, w: Worker)
    requires who < |ws| && w.cached == ws[who].cached
    ensures CountCached(ws[who := w]) == CountCached(ws)
  {
    var n := |ws| - 1;
    if who < n {
      assert ws[who := w][..n] == ws[..n][who := w];
      CachedMoved(ws[..n], who, w);
    } else {
      assert ws[who := w][..n] == ws[..n];
    }
  }

  lemma CachedKeeps<T>(y: System<T>, ev: Event<T>, maxCached: nat)
    requires Sound(y) && Cached(y.workers, maxCached) && Enabled(y, ev)
    ensures Cached(Next(y, ev, maxCached).workers, maxCached)
  {
    var ws' := Next(y, ev, maxCached).workers;
    match ev
    case Submit(task, created) =>
      CachedArePresent(y.workers);
      if |ws'| > |y.workers| { assert ws'[..|y.workers|] == y.workers; }
    case NotifyNobody =>
    case Notify(who) => CachedMoved(y.workers, who, ws'[who]);
    case Enter(who) => CachedMoved(y.workers, who, ws'[who]);
    case Spurious(who) => CachedMoved(y.workers, who, ws'[who]);
    case Recheck(who) => CachedMoved(y.workers, who, ws'[who]);
    case Done(who) => CachedMoved(y.workers, who, ws'[who]);
    case Leave(who) => CachedMoved(y.workers, who, ws'[who]);
  }

  /** In every interleaving the cached threads, which never end, are at most the given
      number. */
  lemma {:induction false} RunCached<T>(evs: seq<Event<T>>, maxCached: nat)
    requires Run(evs, maxCached).Some?
    ensures Cached(Run(evs, maxCached).value.workers, maxCached)
  {
    if evs != [] {
      var less := evs[..|evs| - 1];
      RunCached(less, maxCached);
      RunSound(less, maxCached);
      CachedKeeps(Run(less, maxCached).value, evs[|evs| - 1], maxCached);
    }
  }

  /** Threads that were started and have not ended. */
  function Alive(ws: seq<Worker>): nat {
    if ws == [] then 0 else Alive(ws[..|ws| - 1]) + One(!ws[|ws| - 1].phase.Gone?)
  }

  /** Workers that have, or are about to have, nothing to do. */
  function Idle(ws: seq<Worker>): nat {
    if ws == [] then 0
    else Idle(ws[..|ws| - 1]) + One(ws[|ws| - 1].phase.Waiting? || ws[|ws| - 1].phase.Woken?)
  }

  lemma {:induction false} AliveCount(ws: seq<Worker>)
    ensures Alive(ws) + CountIn(ws, Gone) == |ws|
    ensures Idle(ws) == CountIn(ws, Waiting) + CountIn(ws, Woken)
  {
    if ws != [] { AliveCount(ws[..|ws| - 1]); }
  }

  /** Where every thread start succeeds, a submission starts a thread exactly when the tasks,
      the new one counted, outnumber the idle workers; and the thread is a cached one exactly
      when fewer than `maxCached` threads are alive. */
  lemma StartsWhen<T>(evs: seq<Event<T>>, task: T, maxCached: nat)
    requires Run(evs, maxCached).Some? && AllCreated(evs)
    ensures var y := Run(evs, maxCached).value;
      Next(y, Submit(task, true), maxCached).workers ==
        if |y.pool.queue| + 1 > Idle(y.workers) then y.workers + [Worker(Starting, Alive(y.workers) < maxCached)]
        else y.workers
  {
    RunGood(evs, maxCached);
    AliveCount(Run(evs, maxCached).value.workers);
  }

  // ------------------------------------------------- how many tasks can be taken

  function CountOf(ws: seq<Worker>, w: Worker): nat {
    if ws == [] then 0 else CountOf(ws[..|ws| - 1], w) + One(ws[|ws| - 1] == w)
  }

  lemma {:induction false} OfMoved(ws: seq<Worker>, who: nat, v: Worker, w: Worker)
    requires who < |ws|
    ensures CountOf(ws[who := v], w) + One(ws[who] == w) == CountOf(ws, w) + One(v == w)
  {
    var n := |ws| - 1;
    if who < n {
      assert ws[who := v][..n] == ws[..n][who := v];
      OfMoved(ws[..n], who, v, w);
    } else {
      assert ws[who := v][..n] == ws[..n];
    }
  }

  lemma {:induction false} OfPositive(ws: seq<Worker>, who: nat)
    requires who < |ws|
    ensures CountOf(ws, ws[who]) > 0
  {
    if who < |ws| - 1 { OfPositive(ws[..|ws| - 1], who); }
  }

  lemma {:induction false} SomeoneOf(ws: seq<Worker>, w: Worker) returns (who: nat)
    requires CountOf(ws, w) > 0
    ensures who < |ws| && ws[who] == w
  {
    who := |ws| - 1;
    if ws[who] != w { who := SomeoneOf(ws[..who], w); }
  }

  lemma {:induction false} InIsOf(ws: seq<Worker>, p: Phase)
    ensures CountIn(ws, p) == CountOf(ws, Worker(p, true)) + CountOf(ws, Worker(p, false))
  {
    if ws != [] { InIsOf(ws[..|ws| - 1], p); }
  }

  /** Uncached workers in a phase; each takes one task at most. */
  function Once<T>(y: System<T>, p: Phase): nat { CountOf(y.workers, Worker(p, false)) }

  function Min(a: nat, b: nat): nat { if a <= b then a else b }

  /** The tasks that uncached workers can still take; those that wait need a notification,
      unless spurious wake-ups are reckoned with. */
  function Takes<T>(y: System<T>, spurious: bool): nat {
    Once(y, Starting) + Once(y, Between) + Once(y, Woken)
    + if spurious then Once(y, Waiting) else Min(Once(y, Waiting), y.notifies)
  }

  /** A cached worker that can come to look at the queue, again and again. */
  predicate Returning(w: Worker, wakes: bool) {
    w.cached && (w.phase == Starting || w.phase == Between || w.phase == Woken || w.phase == Running
                 || (w.phase == Waiting && wakes))
  }

  predicate Ample<T>(y: System<T>, spurious: bool) {
    exists i :: 0 <= i < |y.workers| && Returning(y.workers[i], spurious || y.notifies > 0)
  }

  predicate Internal<T>(ev: Event<T>, spurious: bool) { !ev.Submit? && (ev.Spurious? ==> spurious) }

  /** Going on from a state. */
  function RunFrom<T>(y: System<T>, evs: seq<Event<T>>, maxCached: nat): Option<System<T>>
    decreases |evs|
  {
    if evs == [] then Some(y)
    else if Enabled(y, evs[0]) then RunFrom(Next(y, evs[0], maxCached), evs[1..], maxCached)
    else None
  }

  lemma RunOne<T>(y: System<T>, ev: Event<T>, maxCached: nat)
    requires Enabled(y, ev)
    ensures RunFrom(y, [ev], maxCached) == Some(Next(y, ev, maxCached))
  {
    assert [ev][1..] == [];
  }

  predicate Alone<T>(evs: seq<Event<T>>, spurious: bool) { forall i :: 0 <= i < |evs| ==> Internal(evs[i], spurious) }

  /** Without another submission, `k` tasks of the queue can be taken. */
  ghost predicate CanTake<T(!new)>(y: System<T>, k: nat, spurious: bool, maxCached: nat) {
    exists evs: seq<Event<T>> ::
      Alone(evs, spurious) && RunFrom(y, evs, maxCached).Some?
      && |RunFrom(y, evs, maxCached).value.taken| >= |y.taken| + k
  }

  lemma OnceMoved<T>(y: System<T>, who: nat, phase: Phase)
    requires who < |y.workers|
    ensures var y', w := Moved(y, who, phase), y.workers[who];
      var v := w.(phase := phase);
      Once(y', Starting) + One(w == Worker(Starting, false)) == Once(y, Starting) + One(v == Worker(Starting, false))
      && Once(y', Between) + One(w == Worker(Between, false)) == Once(y, Between) + One(v == Worker(Between, false))
      && Once(y', Woken) + One(w == Worker(Woken, false)) == Once(y, Woken) + One(v == Worker(Woken, false))
      && Once(y', Waiting) + One(w == Worker(Waiting, false)) == Once(y, Waiting) + One(v == Worker(Waiting, false))
  {
    var v := y.workers[who].(phase := phase);
    OfMoved(y.workers, who, v, Worker(Starting, false));
    OfMoved(y.workers, who, v, Worker(Between, false));
    OfMoved(y.workers, who, v, Worker(Woken, false));
    OfMoved(y.workers, who, v, Worker(Waiting, false));
  }

  /** A worker moves, and the pool of notifications does not grow. */
  lemma StillNotAmple<T>(y: System<T>, y': System<T>, who: nat, spurious: bool)
    requires !Ample(y, spurious) && who < |y.workers| && y'.notifies <= y.notifies
    requires |y'.workers| == |y.workers| && y'.workers == y.workers[who := y'.workers[who]]
    requires !Returning(y'.workers[who], spurious || y'.notifies > 0)
    ensures !Ample(y', spurious)
  {
    forall i | 0 <= i < |y'.workers| ensures !Returning(y'.workers[i], spurious || y'.notifies > 0) {
      assert !Returning(y.workers[i], spurious || y.notifies > 0);
      if i != who { assert y'.workers[i] == y.workers[i]; }
    }
  }

  /** Without a cached worker to come back, every task taken is one less to take. */
  lemma StepBudget<T>(y: System<T>, ev: Event<T>, spurious: bool, maxCached: nat)
    requires Enabled(y, ev) && Internal(ev, spurious) && !Ample(y, spurious)
    ensures var y' := Next(y, ev, maxCached);
      !Ample(y', spurious) && Takes(y', spurious) + |y'.taken| <= Takes(y, spurious) + |y.taken|
  {
    var y' := Next(y, ev, maxCached);
    if ev.NotifyNobody? {
      InIsOf(y.workers, Waiting);
      NobodyBudget(y, y', spurious);
    } else {
      var who := ev.who;
      var w := y.workers[who];
      if w.phase != Leaving { assert !Returning(w, spurious || y.notifies > 0); }
      OnceMoved(y, who, y'.workers[who].phase);
      StillNotAmple(y, y', who, spurious);
    }
  }

  lemma NobodyBudget<T>(y: System<T>, y': System<T>, spurious: bool)
    requires !Ample(y, spurious) && y'.workers == y.workers && y'.notifies <= y.notifies
    ensures !Ample(y', spurious) && Takes(y', spurious) <= Takes(y, spurious)
  {
    forall i | 0 <= i < |y'.workers| ensures !Returning(y'.workers[i], spurious || y'.notifies > 0) {
      assert !Returning(y.workers[i], spurious || y.notifies > 0);
    }
  }

  lemma {:induction false} RunBudget<T>(y: System<T>, evs: seq<Event<T>>, spurious: bool, maxCached: nat)
    requires Alone(evs, spurious) && RunFrom(y, evs, maxCached).Some? && !Ample(y, spurious)
    ensures |RunFrom(y, evs, maxCached).value.taken| <= |y.taken| + Takes(y, spurious)
    decreases |evs|
  {
    if evs != [] {
      assert Internal(evs[0], spurious);
      StepBudget(y, evs[0], spurious, maxCached);
      RunBudget(Next(y, evs[0], maxCached), evs[1..], spurious, maxCached);
    }
  }

  // -------------------------------------------------------- and a run that takes them

  /** What taking the front task leaves. */
  ghost predicate TookFront<T>(y: System<T>, y': System<T>) {
    Sound(y') && y.pool.queue != [] && y'.taken == y.taken + [y.pool.queue[0]] && y'.pool.queue == y.pool.queue[1..]
  }

  /** A worker at the lock takes the front task. */
  lemma TakeNow<T>(y: System<T>, who: nat, maxCached: nat) returns (ev: Event<T>, y': System<T>)
    requires Sound(y) && y.pool.queue != [] && who < |y.workers|
    requires In(y, who, Starting) || In(y, who, Between) || In(y, who, Woken)
    ensures Internal(ev, false) && Enabled(y, ev) && y' == Next(y, ev, maxCached) && TookFront(y, y')
    ensures y'.workers == Moved(y, who, Running).workers && y'.notifies == y.notifies
  {
    CountersPositive(y, who);
    ev := if In(y, who, Woken) then Recheck(who) else Enter(who);
    y' := Next(y, ev, maxCached);
    SoundKeeps(y, ev, maxCached);
  }

  /** Up to two steps before that: a waiting worker is woken, a running one is done. */
  lemma TakeSoon<T>(y: System<T>, who: nat, spurious: bool, maxCached: nat)
    returns (evs: seq<Event<T>>, z: System<T>, y': System<T>)
    requires Sound(y) && y.pool.queue != [] && who < |y.workers|
    requires var w := y.workers[who];
      w.phase == Starting || w.phase == Between || w.phase == Woken
      || (w.phase == Waiting && (spurious || y.notifies > 0)) || (w.phase == Running && w.cached)
    ensures Alone(evs, spurious) && RunFrom(y, evs, maxCached) == Some(y') && 1 <= |evs| <= 2 && TookFront(y, y')
    ensures y'.workers == Moved(y, who, Running).workers
    ensures y'.notifies == (if In(y, who, Waiting) && !spurious then y.notifies - 1 else y.notifies)
  {
    z := y;
    evs := [];
    if In(y, who, Waiting) || In(y, who, Running) {
      var first := if In(y, who, Running) then Done(who) else if spurious then Spurious(who) else Notify(who);
      z := Next(y, first, maxCached);
      SoundKeeps(y, first, maxCached);
      evs := [first];
      RunOne(y, first, maxCached);
    }
    var ev;
    ev, y' := TakeNow(z, who, maxCached);
    assert Moved(z, who, Running).workers == Moved(y, who, Running).workers;
    RunConcat(y, evs, [ev], maxCached);
    RunOne(z, ev, maxCached);
    evs := evs + [ev];
  }

  lemma {:induction false} RunConcat<T>(y: System<T>, a: seq<Event<T>>, b: seq<Event<T>>, maxCached: nat)
    requires RunFrom(y, a, maxCached).Some?
    ensures RunFrom(y, a + b, maxCached) == RunFrom(RunFrom(y, a, maxCached).value, b, maxCached)
    decreases |a|
  {
    if a == [] {
      assert a + b == b;
    } else {
      assert (a + b)[1..] == a[1..] + b;
      RunConcat(Next(y, a[0], maxCached), a[1..], b, maxCached);
    }
  }

  /** A worker that can take a task, a cached one if there is any. */
  lemma Chosen<T>(y: System<T>, spurious: bool) returns (who: nat)
    requires Ample(y, spurious) || Takes(y, spurious) > 0
    ensures who < |y.workers|
    ensures var w := y.workers[who];
      w.phase == Starting || w.phase == Between || w.phase == Woken
      || (w.phase == Waiting && (spurious || y.notifies > 0)) || (w.phase == Running && w.cached)
    ensures y.workers[who].cached <==> Ample(y, spurious)
  {
    if Ample(y, spurious) {
      who :| who < |y.workers| && Returning(y.workers[who], spurious || y.notifies > 0);
    } else {
      var p := if Once(y, Starting) > 0 then Starting else if Once(y, Between) > 0 then Between
               else if Once(y, Woken) > 0 then Woken else Waiting;
      who := SomeoneOf(y.workers, Worker(p, false));
    }
  }

  lemma TakeOne<T>(y: System<T>, spurious: bool, maxCached: nat) returns (evs: seq<Event<T>>, y': System<T>)
    requires Sound(y) && y.pool.queue != [] && (Ample(y, spurious) || Takes(y, spurious) > 0)
    ensures Alone(evs, spurious) && RunFrom(y, evs, maxCached) == Some(y') && TookFront(y, y') && 1 <= |evs| <= 2
    ensures Ample(y, spurious) ==> Ample(y', spurious)
    ensures !Ample(y, spurious) ==> Takes(y', spurious) + 1 >= Takes(y, spurious)
  {
    var who := Chosen(y, spurious);
    var z;
    evs, z, y' := TakeSoon(y, who, spurious, maxCached);
    OnceMoved(y, who, Running);
    if Ample(y, spurious) { assert Returning(y'.workers[who], spurious || y'.notifies > 0); }
  }

  lemma {:induction false} TakeMany<T>(y: System<T>, k: nat, spurious: bool, maxCached: nat)
    returns (evs: seq<Event<T>>)
    requires Sound(y) && k <= |y.pool.queue| && (Ample(y, spurious) || Takes(y, spurious) >= k)
    ensures Alone(evs, spurious) && RunFrom(y, evs, maxCached).Some?
    ensures |RunFrom(y, evs, maxCached).value.taken| >= |y.taken| + k
    decreases k
  {
    evs := [];
    if k > 0 {
      var y';
      evs, y' := TakeOne(y, spurious, maxCached);
      var more := TakeMany(y', k - 1, spurious, maxCached);
      RunConcat(y, evs, more, maxCached);
      evs := evs + more;
    }
  }

  /** In any reachable state, failing thread starts included: without another submission
      `k` tasks of the queue can be taken exactly when a cached worker can come back, or
      enough others are left. */
  lemma TakenIff<T(!new)>(y: System<T>, k: nat, spurious: bool, maxCached: nat)
    requires Sound(y) && k <= |y.pool.queue|
    ensures CanTake(y, k, spurious, maxCached) <==> Ample(y, spurious) || Takes(y, spurious) >= k
  {
    if Ample(y, spurious) || Takes(y, spurious) >= k {
      var evs := TakeMany(y, k, spurious, maxCached);
    } else if CanTake(y, k, spurious, maxCached) {
      var evs: seq<Event<T>> :| Alone(evs, spurious) && RunFrom(y, evs, maxCached).Some?
        && |RunFrom(y, evs, maxCached).value.taken| >= |y.taken| + k;
      RunBudget(y, evs, spurious, maxCached);
    }
  }

  /** A worker that is on its way to the queue, waits for it, or comes back to it. */
  predicate CanLook(w: Worker) {
    w.phase == Starting || w.phase == Between || w.phase == Woken || w.phase == Waiting
    || (w.phase == Running && w.cached)
  }

  /** The front task alone, spurious wake-ups reckoned with. */
  lemma FrontTakenIff<T(!new)>(y: System<T>, maxCached: nat)
    requires Sound(y) && y.pool.queue != []
    ensures CanTake(y, 1, true, maxCached) <==> exists i :: 0 <= i < |y.workers| && CanLook(y.workers[i])
  {
    TakenIff(y, 1, true, maxCached);
    if i :| 0 <= i < |y.workers| && CanLook(y.workers[i]) {
      if y.workers[i].cached {
        assert Returning(y.workers[i], true || y.notifies > 0);
      } else {
        OfPositive(y.workers, i);
      }
    } else if Ample(y, true) || Takes(y, true) > 0 {
      var who := Chosen(y, true);
      assert CanLook(y.workers[who]);
    }
  }

  /** Where every thread start succeeds, the whole queue can always be taken, without
      another submission or a spurious wake-up. */
  lemma QueueDrains<T(!new)>(y: System<T>, maxCached: nat)
    requires Good(y)
    ensures CanTake(y, |y.pool.queue|, false, maxCached)
  {
    EnoughToTake(y);
    TakenIff(y, |y.pool.queue|, false, maxCached);
  }

  /** There, at most two steps of workers and notifications take the front task. */
  lemma FrontTaskTaken<T>(y: System<T>, maxCached: nat) returns (evs: seq<Event<T>>, y': System<T>)
    requires Good(y) && y.pool.queue != []
    ensures Alone(evs, false) && 1 <= |evs| <= 2 && RunFrom(y, evs, maxCached) == Some(y') && TookFront(y, y')
  {
    EnoughToTake(y);
    evs, y' := TakeOne(y, false, maxCached);
  }

  lemma EnoughToTake<T>(y: System<T>)
    requires Good(y)
    ensures Ample(y, false) || Takes(y, false) >= |y.pool.queue|
  {
    InIsOf(y.workers, Starting);
    InIsOf(y.workers, Woken);
    InIsOf(y.workers, Waiting);
    if !Ample(y, false) {
      NoneReturning(y, Starting);
      NoneReturning(y, Woken);
      if y.notifies > 0 { NoneReturning(y, Waiting); }
    }
  }

  lemma NoneReturning<T>(y: System<T>, p: Phase)
    requires !Ample(y, false) && Returning(Worker(p, true), y.notifies > 0)
    ensures CountOf(y.workers, Worker(p, true)) == 0
  {
    forall i | 0 <= i < |y.workers| ensures y.workers[i] != Worker(p, true) {
      assert !Returning(y.workers[i], false || y.notifies > 0);
    }
    NoneOf(y.workers, Worker(p, true));
  }

  lemma {:induction false} NoneOf(ws: seq<Worker>, w: Worker)
    requires forall i :: 0 <= i < |ws| ==> ws[i] != w
    ensures CountOf(ws, w) == 0
  {
    if ws != [] { NoneOf(ws[..|ws| - 1], w); }
  }

  predicate AnyCached(ws: seq<Worker>) { exists i :: 0 <= i < |ws| && ws[i].cached }

  /** A thread that cannot be created: the queue, the new task included, can still be taken
      exactly when there is a cached worker, or enough uncached ones that start, are woken
      or wait for one of the notifications. */
  lemma CreationFails<T(!new)>(y: System<T>, task: T, maxCached: nat)
    requires Sound(y) && Cached(y.workers, maxCached)
    ensures CanTake(Next(y, Submit(task, false), maxCached), |y.pool.queue| + 1, false, maxCached) <==>
      AnyCached(y.workers) || Takes(y.(notifies := y.notifies + 1), false) > |y.pool.queue|
  {
    var y' := Next(y, Submit(task, false), maxCached);
    SoundKeeps(y, Submit(task, false), maxCached);
    TakenIff(y', |y.pool.queue| + 1, false, maxCached);
    assert y'.workers == y.workers && y'.notifies == y.notifies + 1;
    if i :| 0 <= i < |y.workers| && y.workers[i].cached {
      assert Returning(y'.workers[i], false || y'.notifies > 0);
    }
  }

  /** One task in an empty pool whose thread cannot be created: after the notification
      nothing but another submission can happen. */
  lemma Stranded<T(!new)>(task: T, maxCached: nat)
    ensures var y := System(Pool([task], 0, 1), [], 0, [task], []);
      Run([Submit(task, false), NotifyNobody], maxCached) == Some(y)
      && (forall ev: Event<T> :: Enabled(y, ev) ==> ev.Submit?) && !CanTake(y, 1, true, maxCached)
  {
    var first: seq<Event<T>> := [Submit(task, false)];
    var evs := [Submit(task, false), NotifyNobody];
    assert evs[..1] == first && first[..0] == [];
    assert [] + [task] == [task];
    assert Run(first, maxCached) == Some(System(Pool([task], 0, 1), [], 1, [task], []));
    var y := System(Pool([task], 0, 1), [], 0, [task], []);
    assert Sound(y) by { assert [] + [task] == [task]; }
    TakenIff(y, 1, true, maxCached);
  }
}
