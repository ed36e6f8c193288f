/**
 The pool of tasks: a dispatcher takes connectors from a channel and starts a task with each;
 tasks run side by side, report under a lock and give their connector back. Every step of every
 party is an action, and actions interleave in any way.
 */
module TaskPool {
  import opened ConnectorPool

  // What RunTask came to. A task whose configuration failed reports nothing.
  datatype Outcome = ConfigError | RunError | Ran(bugs: nat)

  // A task after each of its steps; a task in the phases up to Counted holds its connector.
  datatype Phase = Running | Reported | Counted | Returned | Done

  datatype Task = Task(conn: Conn, phase: Phase, outcome: Outcome)

  datatype Dispatcher =
    | Waiting                      // for a free connector
    | Holding(conn: Conn)          // limits not yet looked at
    | Checked(conn: Conn)          // within the limits
    | Issued(conn: Conn)           // a task id is taken, SELECT 1 not yet answered
    | Returning(conn: Conn)        // the loop is over, the connector goes back first
    | Joining(leaked: seq<Conn>)   // waiting for the tasks
    | Closing(left: nat)           // emptying the channel
    | Finished(leaked: seq<Conn>)

  // `postgres`: the runner that gives the last connector back and closes the pool.
  datatype Config = Config(postgres: bool, threadNum: nat, maxTasks: nat, maxTime: bool)

  // Tasks are numbered from 0 in the order in which they start. `closed` are the closed connectors.
  datatype State = State(pool: seq<Conn>, dispatcher: Dispatcher, tasks: seq<Task>, closed: seq<Conn>,
                         totalTaskNum: nat, finishedTaskNum: nat, errorTaskNum: nat, errorTaskIds: seq<nat>,
                         bugsNum: nat, bugTaskIds: seq<nat>)

  // What a task does next, and what the dispatcher does.
  datatype TaskMove = Report(outcome: Outcome) | Count | BackToPool | WgDone

  datatype Move =
    | WaitForFree
    | TimeIsUp | TasksAreUp | WithinLimits
    | TakeId
    | Ping(ok: bool)
    | GiveBack
    | Joined
    | CloseOne

  datatype Action = ByTask(id: nat, move: TaskMove) | ByDispatcher(what: Move)

  // ---------------------------------------------------------------------------------------
  // The steps

  predicate InPhase(s: State, id: nat, phase: Phase) {
    id < |s.tasks| && s.tasks[id].phase == phase
  }

  predicate Room(c: Config, s: State) {
    |s.pool| < c.threadNum
  }

  predicate AllDone(tasks: seq<Task>) {
    forall i :: 0 <= i < |tasks| ==> tasks[i].phase == Done
  }

  predicate TaskEnabled(c: Config, s: State, id: nat, m: TaskMove) {
    match m
    case Report(_) => InPhase(s, id, Running)
    case Count => InPhase(s, id, Reported)
    case BackToPool => InPhase(s, id, Counted) && Room(c, s)
    case WgDone => InPhase(s, id, Returned)
  }

  predicate DispatcherEnabled(c: Config, s: State, m: Move) {
    match m
    case WaitForFree => s.dispatcher.Waiting? && s.pool != []
    case TimeIsUp => s.dispatcher.Holding? && c.maxTime
    case TasksAreUp => s.dispatcher.Holding? && c.maxTasks > 0 && s.finishedTaskNum >= c.maxTasks
    case WithinLimits => s.dispatcher.Holding? && !(c.maxTasks > 0 && s.finishedTaskNum >= c.maxTasks)
    case TakeId => s.dispatcher.Checked?
    case Ping(_) => s.dispatcher.Issued?
    case GiveBack => s.dispatcher.Returning? && Room(c, s)
    case Joined => s.dispatcher.Joining? && AllDone(s.tasks)
    case CloseOne => s.dispatcher.Closing? && s.dispatcher.left > 0 && s.pool != []
  }

  predicate Enabled(c: Config, s: State, a: Action) {
    match a
    case ByTask(id, m) => TaskEnabled(c, s, id, m)
    case ByDispatcher(m) => DispatcherEnabled(c, s, m)
  }

  /** Leaving the loop: only one of the two runners gives its connector back. */
  function Leave(c: Config, conn: Conn): Dispatcher {
    if c.postgres then Returning(conn) else Joining([conn])
  }

  function NextPhase(t: Task, m: TaskMove): Task {
    match m
    case Report(outcome) => Task(t.conn, Reported, outcome)
    case Count => Task(t.conn, Counted, t.outcome)
    case BackToPool => Task(t.conn, Returned, t.outcome)
    case WgDone => Task(t.conn, Done, t.outcome)
  }

  function AfterTask(s: State, id: nat, m: TaskMove): State
    requires id < |s.tasks|
  {
    var t := s.(tasks := s.tasks[id := NextPhase(s.tasks[id], m)]);
    match m
    case Report(RunError) => t.(errorTaskNum := s.errorTaskNum + 1, errorTaskIds := s.errorTaskIds + [id])
    case Report(Ran(n)) => if n > 0 then t.(bugsNum := s.bugsNum + n, bugTaskIds := s.bugTaskIds + [id]) else t
    case Count => t.(finishedTaskNum := s.finishedTaskNum + 1)
    case BackToPool => t.(pool := s.pool + [s.tasks[id].conn])
    case _ => t
  }

  function AfterDispatcher(c: Config, s: State, m: Move): State
    requires DispatcherEnabled(c, s, m)
  {
    match m
    case WaitForFree => s.(dispatcher := Holding(s.pool[0]), pool := s.pool[1..])
    case TimeIsUp => s.(dispatcher := Leave(c, s.dispatcher.conn))
    case TasksAreUp => s.(dispatcher := Leave(c, s.dispatcher.conn))
    case WithinLimits => s.(dispatcher := Checked(s.dispatcher.conn))
    case TakeId => s.(dispatcher := Issued(s.dispatcher.conn), totalTaskNum := s.totalTaskNum + 1)
    case Ping(ok) =>
      if ok then s.(dispatcher := Waiting, tasks := s.tasks + [Started(s.dispatcher.conn)])
      else s.(dispatcher := Leave(c, s.dispatcher.conn))
    case GiveBack => s.(dispatcher := Joining([]), pool := s.pool + [s.dispatcher.conn])
    case Joined => s.(dispatcher := if c.postgres then Closing(c.threadNum) else Finished(s.dispatcher.leaked))
    case CloseOne =>
      s.(pool := s.pool[1..], closed := s.closed + [s.pool[0]],
         dispatcher := if s.dispatcher.left == 1 then Finished([]) else Closing(s.dispatcher.left - 1))
  }

  function Started(conn: Conn): Task {
    Task(conn, Running, ConfigError)
  }

  function Apply(c: Config, s: State, a: Action): State
    requires Enabled(c, s, a)
  {
    match a
    case ByTask(id, m) => AfterTask(s, id, m)
    case ByDispatcher(m) => AfterDispatcher(c, s, m)
  }

  function Initial(c: Config): State {
    State(Conns(c.threadNum), Waiting, [], [], 0, 0, 0, [], 0, [])
  }

  // ---------------------------------------------------------------------------------------
  // Runs

  ghost predicate Reaches(c: Config, s: State, run: seq<Action>, t: State)
    decreases |run|
  {
    if run == [] then s == t else Enabled(c, s, run[0]) && Reaches(c, Apply(c, s, run[0]), run[1..], t)
  }

  ghost predicate Reachable(c: Config, s: State) {
    exists run :: Reaches(c, Initial(c), run, s)
  }

  // ---------------------------------------------------------------------------------------
  // The invariant

  predicate Holds(t: Task) {
    t.phase.Running? || t.phase.Reported? || t.phase.Counted?
  }

  predicate IsUnfinished(t: Task) {
    t.phase.Running? || t.phase.Reported?
  }

  function Is(x: Conn, conn: Conn): nat {
    if x == conn then 1 else 0
  }

  function Occurs(conns: seq<Conn>, conn: Conn): nat {
    if conns == [] then 0 else Occurs(conns[..|conns| - 1], conn) + Is(conns[|conns| - 1], conn)
  }

  /** How often `conn` is held by a task. */
  function Held(tasks: seq<Task>, conn: Conn): nat {
    if tasks == [] then 0
    else Held(tasks[..|tasks| - 1], conn) + HeldBy(tasks[|tasks| - 1], conn)
  }

  function HeldBy(t: Task, conn: Conn): nat {
    if Holds(t) then Is(t.conn, conn) else 0
  }

  /** How many tasks hold a connector, and how many have not been counted yet. */
  function HolderNum(tasks: seq<Task>): nat {
    if tasks == [] then 0 else HolderNum(tasks[..|tasks| - 1]) + (if Holds(tasks[|tasks| - 1]) then 1 else 0)
  }

  function Unfinished(tasks: seq<Task>): nat {
    if tasks == [] then 0 else Unfinished(tasks[..|tasks| - 1]) + (if IsUnfinished(tasks[|tasks| - 1]) then 1 else 0)
  }

  function DispatcherHolds(d: Dispatcher): seq<Conn> {
    match d
    case Waiting => []
    case Joining(leaked) => leaked
    case Closing(_) => []
    case Finished(leaked) => leaked
    case _ => [d.conn]
  }

  /** In how many places a connector is. */
  function Places(s: State, conn: Conn): nat {
    Occurs(s.pool, conn) + Occurs(DispatcherHolds(s.dispatcher), conn) + Held(s.tasks, conn) + Occurs(s.closed, conn)
  }

  /** Every connector is in exactly one place, once. */
  ghost predicate Conserved(c: Config, s: State) {
    forall conn: Conn :: Places(s, conn) == if conn < c.threadNum then 1 else 0
  }

  /** Together the places have as many connectors as there are threads. */
  predicate Sized(c: Config, s: State) {
    |s.pool| + |DispatcherHolds(s.dispatcher)| + HolderNum(s.tasks) + |s.closed| == c.threadNum
  }

  function Sum(tasks: seq<Task>, ids: seq<nat>): nat {
    if ids == [] then 0 else Sum(tasks, ids[..|ids| - 1]) + BugsOf(tasks, ids[|ids| - 1])
  }

  function BugsOf(tasks: seq<Task>, id: nat): nat {
    if id < |tasks| && tasks[id].phase != Running && tasks[id].outcome.Ran? then tasks[id].outcome.bugs else 0
  }

  predicate Failed(tasks: seq<Task>, id: nat) {
    id < |tasks| && tasks[id].phase != Running && tasks[id].outcome.RunError?
  }

  predicate Distinct(ids: seq<nat>) {
    forall i, j :: 0 <= i < j < |ids| ==> ids[i] != ids[j]
  }

  ghost predicate BugsAgree(s: State) {
    && Distinct(s.bugTaskIds) && (forall id :: id in s.bugTaskIds <==> BugsOf(s.tasks, id) > 0)
    && s.bugsNum == Sum(s.tasks, s.bugTaskIds)
  }

  ghost predicate ErrorsAgree(s: State) {
    && Distinct(s.errorTaskIds) && (forall id :: id in s.errorTaskIds <==> Failed(s.tasks, id))
    && s.errorTaskNum == |s.errorTaskIds|
  }

  /** The two lists of ids name exactly the tasks that found bugs and that failed, each once. */
  ghost predicate ReportsAgree(s: State) {
    BugsAgree(s) && ErrorsAgree(s)
  }

  /** How the loop's end is told by the dispatcher, the closed connectors and what leaked. */
  predicate Ending(c: Config, s: State) {
    match s.dispatcher
    case Returning(_) => c.postgres && s.closed == []
    case Joining(leaked) => s.closed == [] && |leaked| == if c.postgres then 0 else 1
    case Closing(left) => c.postgres && AllDone(s.tasks) && 0 < left && left + |s.closed| == c.threadNum
    case Finished(leaked) => AllDone(s.tasks) && (if c.postgres then leaked == [] && |s.closed| == c.threadNum
                                                  else |leaked| == 1 && s.closed == [])
    case _ => s.closed == []
  }

  /** The counters, and how many ids there can be. */
  predicate Numbers(c: Config, s: State) {
    && s.finishedTaskNum + Unfinished(s.tasks) == |s.tasks|
    && |s.tasks| <= s.totalTaskNum <= |s.tasks| + 1
    && (s.dispatcher.Waiting? || s.dispatcher.Holding? || s.dispatcher.Checked? ==> s.totalTaskNum == |s.tasks|)
    && (s.dispatcher.Issued? ==> s.totalTaskNum == |s.tasks| + 1)
    && (c.maxTasks > 0 ==> s.totalTaskNum < c.maxTasks + c.threadNum)
    && (c.maxTasks > 0 && s.dispatcher.Checked? ==> s.totalTaskNum + 1 < c.maxTasks + c.threadNum)
  }

  ghost predicate Inv(c: Config, s: State) {
    c.threadNum > 0 && Conserved(c, s) && Sized(c, s) && Ending(c, s) && Numbers(c, s) && ReportsAgree(s)
  }

  // ---------------------------------------------------------------------------------------
  // One task changes

  lemma {:induction false} HeldUpdate(tasks: seq<Task>, id: nat, t: Task, conn: Conn)
    requires id < |tasks|
    ensures Held(tasks[id := t], conn) + HeldBy(tasks[id], conn) == Held(tasks, conn) + HeldBy(t, conn)
  {
    var k := |tasks| - 1;
    if id < k {
      HeldUpdate(tasks[..k], id, t, conn);
      assert tasks[id := t][..k] == tasks[..k][id := t];
    } else {
      assert tasks[id := t][..k] == tasks[..k];
    }
  }

  lemma {:induction false} NumUpdate(tasks: seq<Task>, id: nat, t: Task)
    requires id < |tasks|
    ensures Unfinished(tasks[id := t]) + (if IsUnfinished(tasks[id]) then 1 else 0)
         == Unfinished(tasks) + (if IsUnfinished(t) then 1 else 0)
    ensures HolderNum(tasks[id := t]) + (if Holds(tasks[id]) then 1 else 0)
         == HolderNum(tasks) + (if Holds(t) then 1 else 0)
  {
    var k := |tasks| - 1;
    if id < k {
      NumUpdate(tasks[..k], id, t);
      assert tasks[id := t][..k] == tasks[..k][id := t];
    } else {
      assert tasks[id := t][..k] == tasks[..k];
    }
  }

  lemma Append(tasks: seq<Task>, t: Task, conn: Conn)
    ensures Held(tasks + [t], conn) == Held(tasks, conn) + HeldBy(t, conn)
    ensures Unfinished(tasks + [t]) == Unfinished(tasks) + (if IsUnfinished(t) then 1 else 0)
    ensures HolderNum(tasks + [t]) == HolderNum(tasks) + (if Holds(t) then 1 else 0)
  {
    assert (tasks + [t])[..|tasks|] == tasks;
  }

  /** Unfinished tasks hold a connector each. */
  lemma {:induction false} UnfinishedHold(tasks: seq<Task>)
    ensures Unfinished(tasks) <= HolderNum(tasks)
  {
    if tasks != [] {
      UnfinishedHold(tasks[..|tasks| - 1]);
    }
  }

  lemma {:induction false} HolderCounts(tasks: seq<Task>, id: nat)
    requires id < |tasks| && Holds(tasks[id])
    ensures HolderNum(tasks) > 0
  {
    if id < |tasks| - 1 {
      HolderCounts(tasks[..|tasks| - 1], id);
    }
  }

  lemma {:induction false} DoneHoldNothing(tasks: seq<Task>)
    requires AllDone(tasks)
    ensures HolderNum(tasks) == 0 && Unfinished(tasks) == 0
  {
    if tasks != [] {
      var k := |tasks| - 1;
      assert forall i :: 0 <= i < k ==> tasks[..k][i].phase == Done;
      DoneHoldNothing(tasks[..k]);
    }
  }

  lemma {:induction false} SumSame(tasks: seq<Task>, tasks': seq<Task>, ids: seq<nat>)
    requires forall id :: id in ids ==> BugsOf(tasks', id) == BugsOf(tasks, id)
    ensures Sum(tasks', ids) == Sum(tasks, ids)
  {
    if ids != [] {
      var k := |ids| - 1;
      assert ids[k] in ids && forall id :: id in ids[..k] ==> id in ids;
      SumSame(tasks, tasks', ids[..k]);
    }
  }

  lemma SumAppend(tasks: seq<Task>, ids: seq<nat>, id: nat)
    ensures Sum(tasks, ids + [id]) == Sum(tasks, ids) + BugsOf(tasks, id)
  {
    assert (ids + [id])[..|ids|] == ids;
  }

  // ---------------------------------------------------------------------------------------
  // One step keeps the invariant

  lemma PutLast(pool: seq<Conn>, x: Conn, conn: Conn)
    ensures Occurs(pool + [x], conn) == Occurs(pool, conn) + Is(x, conn)
  {
    assert (pool + [x])[..|pool|] == pool;
  }

  lemma {:induction false} TakeFirst(pool: seq<Conn>, conn: Conn)
    requires pool != []
    ensures Occurs(pool, conn) == Occurs(pool[1..], conn) + Is(pool[0], conn)
  {
    var k := |pool| - 1;
    if k > 0 {
      TakeFirst(pool[..k], conn);
      assert pool[1..][..k - 1] == pool[..k][1..];
    }
  }

  lemma JustOne(x: Conn, conn: Conn)
    ensures Occurs([x], conn) == Is(x, conn)
  {
    PutLast([], x, conn);
    assert [] + [x] == [x];
  }

  lemma TaskPlaces(c: Config, s: State, id: nat, m: TaskMove, conn: Conn)
    requires TaskEnabled(c, s, id, m)
    ensures Places(AfterTask(s, id, m), conn) == Places(s, conn)
  {
    HeldUpdate(s.tasks, id, NextPhase(s.tasks[id], m), conn);
    PutLast(s.pool, s.tasks[id].conn, conn);
  }

  lemma TaskSized(c: Config, s: State, id: nat, m: TaskMove)
    requires TaskEnabled(c, s, id, m) && Sized(c, s)
    ensures Sized(c, AfterTask(s, id, m))
  {
    NumUpdate(s.tasks, id, NextPhase(s.tasks[id], m));
  }

  predicate NoLeak(c: Config, s: State) {
    s.dispatcher.Joining? && c.postgres ==> s.dispatcher.leaked == []
  }

  lemma WaitPlaces(c: Config, s: State, conn: Conn)
    requires DispatcherEnabled(c, s, WaitForFree)
    ensures Places(AfterDispatcher(c, s, WaitForFree), conn) == Places(s, conn)
    ensures Sized(c, s) ==> Sized(c, AfterDispatcher(c, s, WaitForFree))
  {
    TakeFirst(s.pool, conn);
    JustOne(s.pool[0], conn);
  }

  lemma FromPoolToClosed(s: State, t: State, x: Conn, conn: Conn)
    requires s.pool != [] && x == s.pool[0] && t.pool == s.pool[1..] && t.closed == s.closed + [x]
    requires t.tasks == s.tasks && DispatcherHolds(t.dispatcher) == DispatcherHolds(s.dispatcher)
    ensures Places(t, conn) == Places(s, conn)
  {
    TakeFirst(s.pool, conn);
    PutLast(s.closed, x, conn);
  }

  lemma ClosePlaces(c: Config, s: State, conn: Conn)
    requires DispatcherEnabled(c, s, CloseOne)
    ensures Places(AfterDispatcher(c, s, CloseOne), conn) == Places(s, conn)
    ensures Sized(c, s) ==> Sized(c, AfterDispatcher(c, s, CloseOne))
  {
    FromPoolToClosed(s, AfterDispatcher(c, s, CloseOne), s.pool[0], conn);
  }

  lemma StartPlaces(c: Config, s: State, conn: Conn)
    requires DispatcherEnabled(c, s, Ping(true))
    ensures Places(AfterDispatcher(c, s, Ping(true)), conn) == Places(s, conn)
    ensures Sized(c, s) ==> Sized(c, AfterDispatcher(c, s, Ping(true)))
  {
    Append(s.tasks, Started(s.dispatcher.conn), conn);
    JustOne(s.dispatcher.conn, conn);
  }

  lemma GivePlaces(c: Config, s: State, conn: Conn)
    requires DispatcherEnabled(c, s, GiveBack)
    ensures Places(AfterDispatcher(c, s, GiveBack), conn) == Places(s, conn)
    ensures Sized(c, s) ==> Sized(c, AfterDispatcher(c, s, GiveBack))
  {
    PutLast(s.pool, s.dispatcher.conn, conn);
    JustOne(s.dispatcher.conn, conn);
  }

  /** The other moves leave everything where it is. */
  lemma NothingMoves(c: Config, s: State, m: Move)
    requires DispatcherEnabled(c, s, m) && NoLeak(c, s)
    requires !m.WaitForFree? && !m.CloseOne? && !m.GiveBack? && m != Ping(true)
    ensures var t := AfterDispatcher(c, s, m);
            t.pool == s.pool && t.tasks == s.tasks && t.closed == s.closed
            && DispatcherHolds(t.dispatcher) == DispatcherHolds(s.dispatcher)
  {
  }

  lemma DispatcherPlaces(c: Config, s: State, m: Move, conn: Conn)
    requires DispatcherEnabled(c, s, m) && NoLeak(c, s)
    ensures Places(AfterDispatcher(c, s, m), conn) == Places(s, conn)
    ensures Sized(c, s) ==> Sized(c, AfterDispatcher(c, s, m))
  {
    if m.WaitForFree? {
      WaitPlaces(c, s, conn);
    } else if m.CloseOne? {
      ClosePlaces(c, s, conn);
    } else if m == Ping(true) {
      StartPlaces(c, s, conn);
    } else if m.GiveBack? {
      GivePlaces(c, s, conn);
    } else {
      NothingMoves(c, s, m);
    }
  }

  lemma EndingStep(c: Config, s: State, m: Move)
    requires c.threadNum > 0 && Ending(c, s) && DispatcherEnabled(c, s, m)
    ensures Ending(c, AfterDispatcher(c, s, m))
  {
  }

  lemma EndingTask(c: Config, s: State, id: nat, m: TaskMove)
    requires Ending(c, s) && TaskEnabled(c, s, id, m)
    ensures Ending(c, AfterTask(s, id, m))
  {
    assert s.tasks[id].phase != Done;
  }

  /** The dispatcher has a connector in hand, so at most the others are with unfinished tasks. */
  lemma UnfinishedBound(c: Config, s: State)
    requires Sized(c, s) && s.dispatcher.Holding?
    ensures Unfinished(s.tasks) < c.threadNum
  {
    UnfinishedHold(s.tasks);
  }

  lemma NumbersTask(c: Config, s: State, id: nat, m: TaskMove)
    requires Numbers(c, s) && TaskEnabled(c, s, id, m)
    ensures Numbers(c, AfterTask(s, id, m))
  {
    NumUpdate(s.tasks, id, NextPhase(s.tasks[id], m));
  }

  lemma NumbersStep(c: Config, s: State, m: Move)
    requires Numbers(c, s) && DispatcherEnabled(c, s, m)
    requires s.dispatcher.Holding? ==> Unfinished(s.tasks) < c.threadNum
    ensures Numbers(c, AfterDispatcher(c, s, m))
  {
    if m.Ping? {
      Append(s.tasks, Started(s.dispatcher.conn), 0);
    }
  }

  lemma ReportBugs(s: State, id: nat, outcome: Outcome)
    requires BugsAgree(s) && InPhase(s, id, Running)
    ensures BugsAgree(AfterTask(s, id, Report(outcome)))
  {
    var t := AfterTask(s, id, Report(outcome));
    assert forall k :: k != id ==> BugsOf(t.tasks, k) == BugsOf(s.tasks, k);
    assert BugsOf(s.tasks, id) == 0;
    SumSame(s.tasks, t.tasks, s.bugTaskIds);
    SumAppend(t.tasks, s.bugTaskIds, id);
  }

  lemma ReportErrors(s: State, id: nat, outcome: Outcome)
    requires ErrorsAgree(s) && InPhase(s, id, Running)
    ensures ErrorsAgree(AfterTask(s, id, Report(outcome)))
  {
    var t := AfterTask(s, id, Report(outcome));
    assert forall k :: k != id ==> (Failed(t.tasks, k) <==> Failed(s.tasks, k));
    assert !Failed(s.tasks, id);
  }

  lemma ReportStep(s: State, id: nat, outcome: Outcome)
    requires ReportsAgree(s) && InPhase(s, id, Running)
    ensures ReportsAgree(AfterTask(s, id, Report(outcome)))
  {
    ReportBugs(s, id, outcome);
    ReportErrors(s, id, outcome);
  }

  lemma SameReports(s: State, t: State)
    requires ReportsAgree(s)
    requires forall k :: BugsOf(t.tasks, k) == BugsOf(s.tasks, k) && (Failed(t.tasks, k) <==> Failed(s.tasks, k))
    requires t.bugTaskIds == s.bugTaskIds && t.errorTaskIds == s.errorTaskIds
    requires t.bugsNum == s.bugsNum && t.errorTaskNum == s.errorTaskNum
    ensures ReportsAgree(t)
  {
    SumSame(s.tasks, t.tasks, s.bugTaskIds);
  }

  lemma InvTask(c: Config, s: State, id: nat, m: TaskMove)
    requires Inv(c, s) && TaskEnabled(c, s, id, m)
    ensures Inv(c, AfterTask(s, id, m))
  {
    forall conn: Conn ensures Places(AfterTask(s, id, m), conn) == Places(s, conn) {
      TaskPlaces(c, s, id, m, conn);
    }
    TaskSized(c, s, id, m);
    EndingTask(c, s, id, m);
    NumbersTask(c, s, id, m);
    if m.Report? {
      ReportStep(s, id, m.outcome);
    } else {
      SameReports(s, AfterTask(s, id, m));
    }
  }

  lemma ReportsDispatcher(c: Config, s: State, m: Move)
    requires ReportsAgree(s) && DispatcherEnabled(c, s, m)
    ensures ReportsAgree(AfterDispatcher(c, s, m))
  {
    SameReports(s, AfterDispatcher(c, s, m));
  }

  lemma InvDispatcher(c: Config, s: State, m: Move)
    requires Inv(c, s) && DispatcherEnabled(c, s, m)
    ensures Inv(c, AfterDispatcher(c, s, m))
  {
    forall conn: Conn ensures Places(AfterDispatcher(c, s, m), conn) == Places(s, conn) {
      DispatcherPlaces(c, s, m, conn);
    }
    if s.dispatcher.Holding? {
      UnfinishedBound(c, s);
    }
    DispatcherPlaces(c, s, m, 0);
    EndingStep(c, s, m);
    NumbersStep(c, s, m);
    ReportsDispatcher(c, s, m);
  }

  /** Every step of every party keeps the invariant. */
  lemma InvStep(c: Config, s: State, a: Action)
    requires Inv(c, s) && Enabled(c, s, a)
    ensures Inv(c, Apply(c, s, a))
  {
    match a
    case ByTask(id, m) => InvTask(c, s, id, m);
    case ByDispatcher(m) => InvDispatcher(c, s, m);
  }

  lemma InvInitial(c: Config)
    requires c.threadNum > 0
    ensures Inv(c, Initial(c))
  {
    forall conn: Conn ensures Places(Initial(c), conn) == if conn < c.threadNum then 1 else 0 {
      ConnsOnce(c.threadNum, conn);
    }
  }

  lemma {:induction false} InvRun(c: Config, s: State, run: seq<Action>, t: State)
    requires Inv(c, s) && Reaches(c, s, run, t)
    ensures Inv(c, t)
    decreases |run|
  {
    if run != [] {
      InvStep(c, s, run[0]);
      InvRun(c, Apply(c, s, run[0]), run[1..], t);
    }
  }

  lemma InvReachable(c: Config, s: State)
    requires c.threadNum > 0 && Reachable(c, s)
    ensures Inv(c, s)
  {
    InvInitial(c);
    var run :| Reaches(c, Initial(c), run, s);
    InvRun(c, Initial(c), run, s);
  }

  // ---------------------------------------------------------------------------------------
  // What holds in every interleaving

  /** Nothing is duplicated or lost: a connector is in the channel, with one holder, or closed. */
  lemma OnePlace(c: Config, s: State, conn: Conn)
    requires c.threadNum > 0 && Reachable(c, s)
    ensures Places(s, conn) == if conn < c.threadNum then 1 else 0
  {
    InvReachable(c, s);
  }

  lemma {:induction false} ConnsOnce(n: nat, conn: Conn)
    ensures Occurs(Conns(n), conn) == if conn < n then 1 else 0
  {
    if n > 0 {
      ConnsOnce(n - 1, conn);
      assert Conns(n)[..n - 1] == Conns(n - 1);
    }
  }

  /** Whoever has a connector to give back finds room in the channel, so giving back never blocks. */
  lemma BackToPoolNeverBlocks(c: Config, s: State)
    requires c.threadNum > 0 && Reachable(c, s)
    ensures s.dispatcher.Returning? ==> DispatcherEnabled(c, s, GiveBack)
    ensures forall id: nat :: InPhase(s, id, Counted) ==> TaskEnabled(c, s, id, BackToPool)
    ensures HolderNum(s.tasks) <= c.threadNum
  {
    InvReachable(c, s);
    UnfinishedHold(s.tasks);
    forall id: nat | InPhase(s, id, Counted) ensures Room(c, s) {
      HolderCounts(s.tasks, id);
    }
  }

  /** When the pool is being closed, all connectors still to be closed are in the channel. */
  lemma CloseNeverBlocks(c: Config, s: State)
    requires c.threadNum > 0 && Reachable(c, s) && s.dispatcher.Closing?
    ensures |s.pool| == s.dispatcher.left && DispatcherEnabled(c, s, CloseOne)
  {
    InvReachable(c, s);
    DoneHoldNothing(s.tasks);
  }

  /** In the end that runner has closed every connector, each once. */
  lemma AllClosed(c: Config, s: State, conn: Conn)
    requires c.threadNum > 0 && Reachable(c, s) && c.postgres && s.dispatcher.Finished?
    ensures s.pool == [] && |s.closed| == c.threadNum && Occurs(s.closed, conn) == if conn < c.threadNum then 1 else 0
  {
    InvReachable(c, s);
    DoneHoldNothing(s.tasks);
    DoneHolds(s.tasks, conn);
    assert Places(s, conn) == Occurs([], conn) + Occurs([], conn) + 0 + Occurs(s.closed, conn);
  }

  lemma {:induction false} DoneHolds(tasks: seq<Task>, conn: Conn)
    requires AllDone(tasks)
    ensures Held(tasks, conn) == 0
  {
    if tasks != [] {
      var k := |tasks| - 1;
      assert forall i :: 0 <= i < k ==> tasks[..k][i].phase == Done;
      DoneHolds(tasks[..k], conn);
    }
  }

  /** The other runner keeps one connector for good: its channel could never be emptied by Close. */
  lemma OneConnectorLeaks(c: Config, s: State)
    requires c.threadNum > 0 && Reachable(c, s) && !c.postgres && s.dispatcher.Finished?
    ensures |s.pool| == c.threadNum - 1 && |s.dispatcher.leaked| == 1 && s.closed == []
  {
    InvReachable(c, s);
    DoneHoldNothing(s.tasks);
  }

  /** With a limit on tasks there are fewer task ids than the limit and the threads together. */
  lemma TaskIdBound(c: Config, s: State)
    requires c.threadNum > 0 && Reachable(c, s) && c.maxTasks > 0
    ensures s.totalTaskNum <= c.maxTasks + c.threadNum - 1
  {
    InvReachable(c, s);
  }

  /** What the saved result says. */
  lemma FinalResult(c: Config, s: State)
    requires c.threadNum > 0 && Reachable(c, s) && (s.dispatcher.Closing? || s.dispatcher.Finished?)
    ensures s.finishedTaskNum == |s.tasks| <= s.totalTaskNum
    ensures s.bugsNum == Sum(s.tasks, s.bugTaskIds) && s.errorTaskNum == |s.errorTaskIds|
    ensures Distinct(s.bugTaskIds) && Distinct(s.errorTaskIds)
    ensures forall id :: id in s.bugTaskIds ==> id < |s.tasks| && id !in s.errorTaskIds
    ensures forall id :: id in s.errorTaskIds ==> id < |s.tasks|
    ensures forall id :: 0 <= id < |s.tasks| && s.tasks[id].outcome.Ran? && s.tasks[id].outcome.bugs > 0 ==>
              id in s.bugTaskIds
  {
    InvReachable(c, s);
    DoneHoldNothing(s.tasks);
    forall id | id in s.bugTaskIds ensures id < |s.tasks| && id !in s.errorTaskIds {
      assert BugsOf(s.tasks, id) > 0;
      assert !Failed(s.tasks, id);
    }
    forall id | 0 <= id < |s.tasks| && s.tasks[id].outcome.Ran? && s.tasks[id].outcome.bugs > 0
        ensures id in s.bugTaskIds {
      assert BugsOf(s.tasks, id) > 0;
    }
  }

  // ---------------------------------------------------------------------------------------
  // When the loop ends

  /** The dispatcher starts no more tasks. */
  predicate LoopOver(d: Dispatcher) {
    d.Returning? || d.Joining? || d.Closing? || d.Finished?
  }

  /** The clock ran out, if there is a limit on time, or a connector did not answer. */
  predicate Interrupted(c: Config, run: seq<Action>) {
    (c.maxTime && ByDispatcher(TimeIsUp) in run) || ByDispatcher(Ping(false)) in run
  }

  /** As many tasks are finished as were asked for. */
  predicate EnoughTasks(c: Config, s: State) {
    c.maxTasks > 0 && s.finishedTaskNum >= c.maxTasks
  }

  lemma LoopStep(c: Config, s: State, a: Action)
    requires Enabled(c, s, a)
    ensures Apply(c, s, a).finishedTaskNum >= s.finishedTaskNum
    ensures LoopOver(Apply(c, s, a).dispatcher) ==>
              LoopOver(s.dispatcher) || Interrupted(c, [a]) || EnoughTasks(c, s)
  {
  }

  lemma {:induction false} LoopRun(c: Config, s: State, run: seq<Action>, t: State)
    requires Reaches(c, s, run, t)
    ensures t.finishedTaskNum >= s.finishedTaskNum
    ensures LoopOver(t.dispatcher) ==> LoopOver(s.dispatcher) || Interrupted(c, run) || EnoughTasks(c, t)
    decreases |run|
  {
    if run != [] {
      LoopStep(c, s, run[0]);
      LoopRun(c, Apply(c, s, run[0]), run[1..], t);
      assert forall a :: a in run[1..] ==> a in run;
      assert run[0] in run;
    }
  }

  /**
   The loop ends only when the tasks asked for are finished, unless it was interrupted. Without a
   limit on tasks and uninterrupted it never ends.
   */
  lemma LoopEnds(c: Config, run: seq<Action>, s: State)
    requires Reaches(c, Initial(c), run, s) && LoopOver(s.dispatcher) && !Interrupted(c, run)
    ensures c.maxTasks > 0 && s.finishedTaskNum >= c.maxTasks
  {
    LoopRun(c, Initial(c), run, s);
  }

  /** So with a limit at least as many tasks were started, and in the end all of them were run. */
  lemma AllTasksRun(c: Config, run: seq<Action>, s: State)
    requires c.threadNum > 0 && Reaches(c, Initial(c), run, s) && LoopOver(s.dispatcher) && !Interrupted(c, run)
    ensures 0 < c.maxTasks <= |s.tasks| <= c.maxTasks + c.threadNum - 1
    ensures s.dispatcher.Closing? || s.dispatcher.Finished? ==> AllDone(s.tasks) && s.finishedTaskNum == |s.tasks|
  {
    LoopEnds(c, run, s);
    TaskIdBound(c, s);
    InvReachable(c, s);
    if s.dispatcher.Closing? || s.dispatcher.Finished? {
      FinalResult(c, s);
    }
  }

  /** Every task is started only while fewer are finished than were asked for. */
  lemma StartedWithinLimit(c: Config, s: State, m: Move)
    requires DispatcherEnabled(c, s, m) && AfterDispatcher(c, s, m).dispatcher.Checked?
    ensures !EnoughTasks(c, s)
  {
  }

  // ---------------------------------------------------------------------------------------
  // Progress

  function Smallest(tasks: seq<Task>, i: nat): (id: nat)
    requires i <= |tasks|
    ensures i <= id <= |tasks| && (id < |tasks| ==> tasks[id].phase != Done)
    ensures id == |tasks| ==> forall k :: i <= k < |tasks| ==> tasks[k].phase == Done
    decreases |tasks| - i
  {
    if i == |tasks| || tasks[i].phase != Done then i else Smallest(tasks, i + 1)
  }

  function NextMove(t: Task): TaskMove {
    match t.phase
    case Running => Report(ConfigError)
    case Reported => Count
    case Counted => BackToPool
    case _ => WgDone
  }

  lemma DispatcherMoves(c: Config, s: State) returns (m: Move)
    requires c.threadNum > 0 && Reachable(c, s) && !s.dispatcher.Finished? && AllDone(s.tasks)
    ensures DispatcherEnabled(c, s, m)
  {
    InvReachable(c, s);
    BackToPoolNeverBlocks(c, s);
    DoneHoldNothing(s.tasks);
    match s.dispatcher
    case Waiting => m := WaitForFree;
    case Holding(_) => m := if c.maxTasks > 0 && s.finishedTaskNum >= c.maxTasks then TasksAreUp else WithinLimits;
    case Checked(_) => m := TakeId;
    case Issued(_) => m := Ping(true);
    case Returning(_) => m := GiveBack;
    case Joining(_) => m := Joined;
    case Closing(_) => m := CloseOne;
  }

  /** Someone can always take a step until the runner is finished. */
  lemma NoDeadlock(c: Config, s: State)
    requires c.threadNum > 0 && Reachable(c, s) && !s.dispatcher.Finished?
    ensures exists a :: Enabled(c, s, a)
  {
    var id := Smallest(s.tasks, 0);
    if id < |s.tasks| {
      BackToPoolNeverBlocks(c, s);
      assert Enabled(c, s, ByTask(id, NextMove(s.tasks[id])));
    } else {
      var m := DispatcherMoves(c, s);
      assert Enabled(c, s, ByDispatcher(m));
    }
  }

  function Ahead(t: Task): nat {
    match t.phase case Running => 4 case Reported => 3 case Counted => 2 case Returned => 1 case Done => 0
  }

  function AheadAll(tasks: seq<Task>): nat {
    if tasks == [] then 0 else AheadAll(tasks[..|tasks| - 1]) + Ahead(tasks[|tasks| - 1])
  }

  /** How far the dispatcher is from its end, within one round of its loop. */
  function DispatcherAhead(c: Config, d: Dispatcher): nat {
    match d
    case Waiting => c.threadNum + 7
    case Holding(_) => c.threadNum + 6
    case Checked(_) => c.threadNum + 5
    case Issued(_) => c.threadNum + 13
    case Returning(_) => c.threadNum + 3
    case Joining(_) => c.threadNum + 2
    case Closing(left) => left
    case Finished(_) => 0
  }

  /** With a limit on tasks: a bound on the number of steps still possible. */
  function Measure(c: Config, s: State): int {
    (c.maxTasks + c.threadNum - s.totalTaskNum) * 10 + AheadAll(s.tasks) + DispatcherAhead(c, s.dispatcher)
  }

  lemma {:induction false} AheadUpdate(tasks: seq<Task>, id: nat, t: Task)
    requires id < |tasks|
    ensures AheadAll(tasks[id := t]) + Ahead(tasks[id]) == AheadAll(tasks) + Ahead(t)
  {
    var k := |tasks| - 1;
    if id < k {
      AheadUpdate(tasks[..k], id, t);
      assert tasks[id := t][..k] == tasks[..k][id := t];
    } else {
      assert tasks[id := t][..k] == tasks[..k];
    }
  }

  lemma TaskMeasure(c: Config, s: State, id: nat, m: TaskMove)
    requires TaskEnabled(c, s, id, m)
    ensures Measure(c, AfterTask(s, id, m)) == Measure(c, s) - 1
  {
    AheadUpdate(s.tasks, id, NextPhase(s.tasks[id], m));
  }

  lemma DispatcherMeasure(c: Config, s: State, m: Move)
    requires DispatcherEnabled(c, s, m) && c.threadNum > 0
    ensures Measure(c, AfterDispatcher(c, s, m)) < Measure(c, s)
  {
    if m.Ping? {
      assert (s.tasks + [Started(s.dispatcher.conn)])[..|s.tasks|] == s.tasks;
    }
  }

  lemma MeasureStep(c: Config, s: State, a: Action)
    requires Inv(c, s) && Enabled(c, s, a)
    ensures Measure(c, Apply(c, s, a)) < Measure(c, s)
  {
    match a
    case ByTask(id, m) => TaskMeasure(c, s, id, m);
    case ByDispatcher(m) => DispatcherMeasure(c, s, m);
  }

  lemma {:induction false} RunLength(c: Config, s: State, run: seq<Action>, t: State)
    requires Inv(c, s) && Reaches(c, s, run, t)
    ensures |run| <= Measure(c, s) - Measure(c, t)
    decreases |run|
  {
    if run != [] {
      InvStep(c, s, run[0]);
      MeasureStep(c, s, run[0]);
      RunLength(c, Apply(c, s, run[0]), run[1..], t);
    }
  }

  /** With a limit on tasks every run ends, whatever the interleaving; with NoDeadlock, it ends finished. */
  lemma EveryRunEnds(c: Config, run: seq<Action>, t: State)
    requires c.threadNum > 0 && c.maxTasks > 0 && Reaches(c, Initial(c), run, t)
    ensures |run| <= 10 * c.maxTasks + 11 * c.threadNum + 7
  {
    InvInitial(c);
    RunLength(c, Initial(c), run, t);
    InvRun(c, Initial(c), run, t);
  }
}
