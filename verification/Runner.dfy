/**
 From candidates to bug reports: every mutated statement is run, and its result judged against
 the original's. A database that answers by the book is never reported.
 */
module Runner {
  import opened Sql
  import opened Containment
  import opened Steps
  import opened LikePattern
  import opened Mutation
  import opened Trails
  import opened Candidates
  import opened ResultCmp
  import opened Oracle
  import MutateAll
  import AstStore
  import Visitor
  import Stats

  // What the database sent back; `expected` tells whether an error is one that mutations cause.
  datatype Execution = Execution(result: Result, expected: bool)

  // `sql` is None where the mutation itself failed; then nothing was executed.
  datatype MutateUnit = MutateUnit(name: string, sql: Option<Node>, isUpper: bool, exec: Execution)

  datatype Outcome = Broken | Errored | ErrorBug | Undecided | Passed | Bug

  /** What becomes of a unit; `again` is the second execution after an error. */
  function OutcomeOf(rd: Reading, aggregateMode: bool, unit: MutateUnit, original: Result, again: Execution): Outcome {
    if unit.sql.None? then Broken
    else if unit.exec.result.failed then
      var bug := unit.isUpper && !original.failed && !unit.exec.expected && again.result.failed && !again.expected;
      if bug then ErrorBug else Errored
    else
      match Judge(rd, aggregateMode, original, unit.exec.result, unit.isUpper)
      case None => Undecided
      case Some(check) => if check then Passed else Bug
  }

  /** What the statistics remember of it: an error that is a bug counts as two runs. */
  function StatsAfter(o: Outcome, s: map<string, Stats.Stat>, name: string): map<string, Stats.Stat> {
    match o
    case Errored => Stats.Recorded(s, name, false, true)
    case ErrorBug => Stats.Recorded(Stats.Recorded(s, name, false, true), name, true, true)
    case Passed => Stats.Recorded(s, name, false, false)
    case Bug => Stats.Recorded(s, name, true, false)
    case _ => s
  }

  function One(b: bool): nat {
    if b then 1 else 0
  }

  predicate IsBug(o: Outcome) {
    o == Bug || o == ErrorBug
  }

  datatype Tally = Tally(unitErrs: nat, execErrs: nat, bugs: nat, errorBugs: nat, reports: seq<nat>, suspects: seq<nat>)

  /** The counters after one unit. */
  function After(k: Tally, o: Outcome, saved: bool, suspect: bool): Tally {
    Tally(k.unitErrs + One(o == Broken), k.execErrs + One(o == Errored || o == ErrorBug),
             k.bugs + One(IsBug(o)), k.errorBugs + One(o == ErrorBug),
             k.reports + (if IsBug(o) && saved then [k.bugs] else []),
             k.suspects + (if o == Bug && suspect then [k.bugs] else []))
  }

  ghost predicate Counted(task: TaskResult, before: Tally, o: Outcome, saved: bool, suspect: bool)
    reads task
  {
    task.Counters() == After(before, o, saved, suspect)
  }

  class TaskResult {
    var stage2UnitErrNum: nat
    var stage2UnitExecErrNum: nat
    var impoBugsNum: nat
    var errorOracleBugsNum: nat
    var saveBugErrNum: nat
    var reports: seq<nat>            // the ids of the bug reports on disk
    var falsePositives: seq<nat>     // the ids of the bugs under suspicion

    constructor ()
      ensures Valid() && impoBugsNum == 0
    {
      stage2UnitErrNum, stage2UnitExecErrNum, impoBugsNum, errorOracleBugsNum, saveBugErrNum := 0, 0, 0, 0, 0;
      reports, falsePositives := [], [];
    }

    /** Bug ids are never given twice, and every bug was saved or counted as not saved. */
    ghost predicate Valid() reads this {
      && errorOracleBugsNum <= impoBugsNum && |reports| + saveBugErrNum == impoBugsNum
      && Ascending(reports, impoBugsNum) && Ascending(falsePositives, impoBugsNum)
    }

    function Counters(): Tally reads this {
      Tally(stage2UnitErrNum, stage2UnitExecErrNum, impoBugsNum, errorOracleBugsNum, reports, falsePositives)
    }

    method Save(saved: bool, suspect: bool)
      requires Valid()
      modifies this`impoBugsNum, this`reports, this`saveBugErrNum, this`falsePositives
      ensures Valid() && impoBugsNum == old(impoBugsNum) + 1
      ensures reports == old(reports) + (if saved then [old(impoBugsNum)] else [])
      ensures falsePositives == old(falsePositives) + (if suspect then [old(impoBugsNum)] else [])
    {
      var bugId := impoBugsNum;
      impoBugsNum := impoBugsNum + 1;
      if suspect {
        falsePositives := falsePositives + [bugId];
      }
      if saved {
        reports := reports + [bugId];
      } else {
        saveBugErrNum := saveBugErrNum + 1;
      }
    }
  }

  ghost predicate Ascending(ids: seq<nat>, bound: nat) {
    (forall i :: 0 <= i < |ids| ==> ids[i] < bound) && forall i, j :: 0 <= i < j < |ids| ==> ids[i] < ids[j]
  }

  method ProcessError(unit: MutateUnit, original: Result, again: Execution, saved: bool,
                      task: TaskResult, stats: Stats.MutationStats) returns (bug: bool)
    requires task.Valid() && stats.Valid() && unit.exec.result.failed
    modifies task, stats
    ensures task.Valid() && stats.Valid()
    ensures bug == (unit.isUpper && !original.failed && !unit.exec.expected && again.result.failed && !again.expected)
    ensures Counted(task, old(task.Counters()), if bug then ErrorBug else Errored, saved, false)
    ensures stats.stats == StatsAfter(if bug then ErrorBug else Errored, old(stats.stats), unit.name)
  {
    bug := false;
    task.stage2UnitExecErrNum := task.stage2UnitExecErrNum + 1;
    stats.RecordResult(unit.name, false, true);
    if unit.isUpper && !original.failed && !unit.exec.expected {
      if again.result.failed && !again.expected {
        bug := true;
        task.Save(saved, false);
        task.errorOracleBugsNum := task.errorOracleBugsNum + 1;
        stats.RecordResult(unit.name, true, true);
      }
    }
  }

  method ImplicationOracle(rd: Reading, aggregateMode: bool, original: Result, mutated: Result, isUpper: bool)
    returns (check: Option<bool>)
    ensures check == Judge(rd, aggregateMode, original, mutated, isUpper)
  {
    var aggregate := LooksAggregate(rd, original);
    if aggregateMode || aggregate {
      check := CheckAggregate(rd, original, mutated, isUpper);
    } else {
      check := Check(rd, original, mutated, isUpper);
    }
  }

  /** One unit; `suspect` and `saved` are what the false positive analysis and the disk say. */
  method ProcessMutationUnit(unit: MutateUnit, original: Result, rd: Reading, aggregateMode: bool, again: Execution,
                             suspect: bool, saved: bool, task: TaskResult, stats: Stats.MutationStats)
    requires task.Valid() && stats.Valid()
    modifies task, stats
    ensures task.Valid() && stats.Valid()
    ensures Counted(task, old(task.Counters()), OutcomeOf(rd, aggregateMode, unit, original, again), saved, suspect)
    ensures stats.stats == StatsAfter(OutcomeOf(rd, aggregateMode, unit, original, again), old(stats.stats), unit.name)
  {
    if unit.sql.None? {
      task.stage2UnitErrNum := task.stage2UnitErrNum + 1;
      return;
    }
    if unit.exec.result.failed {
      var bug := ProcessError(unit, original, again, saved, task, stats);
      return;
    }
    var check := ImplicationOracle(rd, aggregateMode, original, unit.exec.result, unit.isUpper);
    if check.None? {
      return;
    }
    if !check.value {
      stats.RecordResult(unit.name, true, false);
      task.Save(saved, suspect);
    } else {
      stats.RecordResult(unit.name, false, false);
    }
  }

  // ---------------------------------------------------------------------------------------
  // What the counters and the statistics say of all units together

  // One unit processed; `saved` and `suspect` are what became of its report.
  datatype Event = Event(name: string, outcome: Outcome, saved: bool, suspect: bool)

  const START := Tally(0, 0, 0, 0, [], [])

  /** The counters after a sequence of units. */
  function TallyOf(log: seq<Event>): Tally {
    if log == [] then START
    else
      var e := log[|log| - 1];
      After(TallyOf(log[..|log| - 1]), e.outcome, e.saved, e.suspect)
  }

  /** The statistics after it. */
  function StatsOf(log: seq<Event>): map<string, Stats.Stat> {
    if log == [] then map[]
    else
      var e := log[|log| - 1];
      StatsAfter(e.outcome, StatsOf(log[..|log| - 1]), e.name)
  }

  function Number(log: seq<Event>, kind: Event -> bool): nat {
    Stats.CountOf(log, kind)
  }

  lemma NumberLast(log: seq<Event>, kind: Event -> bool)
    requires log != []
    ensures Number(log, kind) == Number(log[..|log| - 1], kind) + One(kind(log[|log| - 1]))
  {
    assert log == log[..|log| - 1] + [log[|log| - 1]];
    Stats.CountLast(log[..|log| - 1], log[|log| - 1], kind);
  }

  const BROKEN := (e: Event) => e.outcome == Broken
  const FAILED := (e: Event) => e.outcome == Errored || e.outcome == ErrorBug
  const BUGGY := (e: Event) => e.outcome == Bug || e.outcome == ErrorBug
  const SECOND_ERROR := (e: Event) => e.outcome == ErrorBug
  const SAVED_BUG := (e: Event) => (e.outcome == Bug || e.outcome == ErrorBug) && e.saved
  const SUSPECT_BUG := (e: Event) => e.outcome == Bug && e.suspect

  /** Every counter is the number of units of its kind. */
  lemma {:induction false} CountersCount(log: seq<Event>)
    ensures TallyOf(log).unitErrs == Number(log, BROKEN) && TallyOf(log).execErrs == Number(log, FAILED)
    ensures TallyOf(log).bugs == Number(log, BUGGY) && TallyOf(log).errorBugs == Number(log, SECOND_ERROR)
    ensures |TallyOf(log).reports| == Number(log, SAVED_BUG) && |TallyOf(log).suspects| == Number(log, SUSPECT_BUG)
    decreases |log|
  {
    if log == [] {
      Stats.CountNone(log, BROKEN);
      Stats.CountNone(log, FAILED);
      Stats.CountNone(log, BUGGY);
      Stats.CountNone(log, SECOND_ERROR);
      Stats.CountNone(log, SAVED_BUG);
      Stats.CountNone(log, SUSPECT_BUG);
    } else {
      CountersCount(log[..|log| - 1]);
      NumberLast(log, BROKEN);
      NumberLast(log, FAILED);
      NumberLast(log, BUGGY);
      NumberLast(log, SECOND_ERROR);
      NumberLast(log, SAVED_BUG);
      NumberLast(log, SUSPECT_BUG);
    }
  }

  function Named(name: string, kind: Event -> bool): Event -> bool {
    (e: Event) => e.name == name && kind(e)
  }

  const CHECKED := (e: Event) => e.outcome == Passed || e.outcome == Bug

  lemma StatsStep(e: Event, stats: map<string, Stats.Stat>, name: string)
    ensures var s, t := Stats.StatOf(stats, name), Stats.StatOf(StatsAfter(e.outcome, stats, e.name), name);
            && t.totalRuns == s.totalRuns + One(Named(name, CHECKED)(e)) + One(Named(name, FAILED)(e))
                              + One(Named(name, SECOND_ERROR)(e))
            && t.bugsFound == s.bugsFound + One(Named(name, BUGGY)(e))
            && t.execErrors == s.execErrors + One(Named(name, FAILED)(e)) + One(Named(name, SECOND_ERROR)(e))
  {
  }

  /**
   The statistics have for every mutation the number of its units that were judged or failed, of those
   that were bugs, and of those that failed; an error that is a bug counts as two runs and two errors.
   */
  lemma {:induction false} StatisticsCount(log: seq<Event>, name: string)
    ensures var second := Number(log, Named(name, SECOND_ERROR));
            && Stats.StatOf(StatsOf(log), name).totalRuns
               == Number(log, Named(name, CHECKED)) + Number(log, Named(name, FAILED)) + second
            && Stats.StatOf(StatsOf(log), name).bugsFound == Number(log, Named(name, BUGGY))
            && Stats.StatOf(StatsOf(log), name).execErrors == Number(log, Named(name, FAILED)) + second
    decreases |log|
  {
    if log == [] {
      Stats.CountNone(log, Named(name, CHECKED));
      Stats.CountNone(log, Named(name, FAILED));
      Stats.CountNone(log, Named(name, BUGGY));
      Stats.CountNone(log, Named(name, SECOND_ERROR));
    } else {
      StatisticsCount(log[..|log| - 1], name);
      StatsStep(log[|log| - 1], StatsOf(log[..|log| - 1]), name);
      NumberLast(log, Named(name, CHECKED));
      NumberLast(log, Named(name, FAILED));
      NumberLast(log, Named(name, BUGGY));
      NumberLast(log, Named(name, SECOND_ERROR));
    }
  }

  // ---------------------------------------------------------------------------------------
  // No missed bug, and no false alarm

  /**
   A mutant that was executed is reported exactly if its rows did not move the promised way, numbers
   taken in their normal form, wherever the verdict is that of containment.
   */
  lemma WrongRowsReported(rd: Reading, naming: Naming, w: nat, unit: MutateUnit, original: Result, again: Execution)
    requires unit.sql.Some? && w > 0 && Delivered(naming, w, original) && Delivered(naming, w, unit.exec.result)
    requires NoComma(rd, original) && NoComma(rd, unit.exec.result)
    requires JudgedByRows(rd, unit.isUpper, original, unit.exec.result)
    ensures OutcomeOf(rd, false, unit, original, again)
         == if KeptNumbers(rd, unit.isUpper, original, unit.exec.result) then Passed else Bug
  {
    JudgeExact(rd, naming, w, original, unit.exec.result, unit.isUpper);
  }

  predicate Unexpected(e: Execution) {
    e.result.failed && !e.expected
  }

  /**
   A mutant that fails is a bug exactly if it was to grow, the original went through, and the mutant fails
   unexpectedly twice. A mutant that does not fail is judged, unless the original failed.
   */
  lemma ErrorsReported(rd: Reading, aggregateMode: bool, unit: MutateUnit, original: Result, again: Execution)
    ensures var o := OutcomeOf(rd, aggregateMode, unit, original, again);
            && (o == ErrorBug <==> unit.sql.Some? && unit.isUpper && !original.failed && Unexpected(unit.exec)
                                   && Unexpected(again))
            && (o == Errored || o == ErrorBug <==> unit.sql.Some? && unit.exec.result.failed)
            && (o == Broken <==> unit.sql.None?)
            && (o == Undecided ==> original.failed)
            && (original.failed && original.rows == [] && !aggregateMode && unit.sql.Some? && !unit.exec.result.failed
                ==> o == Undecided)
  {
  }

  function Shown(rows: seq<Row>, show: Value -> string): seq<seq<string>> {
    MapAll(rows, (r: Row) => MapAll(r, show))
  }

  // How results reach the oracle: how values are shown, who names the columns, and how many there are.
  datatype Display = Display(show: Value -> string, naming: Naming, width: nat)

  /** `r` is a correct answer to `q`: its rows, in any order, as the connector delivers them. */
  ghost predicate Answers(db: Db, env: Env, d: Display, q: Node, r: Result) {
    Delivered(d.naming, d.width, r) && multiset(r.rows) == multiset(Shown(Rows(db, q, env), d.show))
  }

  /** Containment of rows is containment of what is shown of them. */
  lemma ShownWithin(db: Db, env: Env, d: Display, q: Node, q': Node, r: Result, r': Result)
    requires Answers(db, env, d, q, r) && Answers(db, env, d, q', r')
    requires Within(Rows(db, q, env), Rows(db, q', env))
    ensures multiset(r.rows) <= multiset(r'.rows)
  {
    MapContained(Rows(db, q, env), Rows(db, q', env), (x: Row) => MapAll(x, d.show));
  }

  /**
   Correct answers to a statement and to its mutant pass the oracle, empty or not, at every trusted
   candidate to which the way has not turned. The one exception is a single row that starts with NaN.
   */
  lemma NoFalseAlarm(db: Db, env: Env, d: Display, rd: Reading, root: Node, c: Candidate, coins: Coins,
                     r: Result, r': Result)
    requires c in CandidatesOf(root) && Trusted(db, root, c) && !Turned(RowSet, root, c.path)
    requires NamesKnown(db, root) && Known(db, env) && Answers(db, env, d, root, r)
    requires Mutated(root, c.mut, c.path, coins).Some? ==>
               Answers(db, env, d, Mutated(root, c.mut, c.path, coins).value, r')
    ensures Mutated(root, c.mut, c.path, coins).Some?
    ensures Judge(rd, false, r, r', IsUpper(c)) == Some(!NaNTrap(rd, r, r'))
  {
    Direction(db, root, c, coins);
    var root' := Mutated(root, c.mut, c.path, coins).value;
    if IsUpper(c) {
      RowsBelowAt(db, root, root', env);
      ShownWithin(db, env, d, root, root', r, r');
    } else {
      RowsBelowAt(db, root', root, env);
      ShownWithin(db, env, d, root', root, r', r);
    }
    JudgeContained(rd, d.naming, d.width, r, r', IsUpper(c));
  }

  lemma RowsBelowAt(db: Db, n: Node, n': Node, env: Env)
    requires RowsBelow(db, n, n') && Known(db, env)
    ensures Within(Rows(db, n, env), Rows(db, n', env))
  {
  }

  /** The database answers the statement and all its mutants correctly. */
  ghost predicate Faithful(db: Db, env: Env, d: Display, root: Node, coins: Coins, dbms: Node -> Execution) {
    && Known(db, env) && Answers(db, env, d, root, dbms(root).result)
    && forall c :: c in CandidatesOf(root) ==> AnswersMutant(db, env, d, root, c, coins, dbms)
  }

  ghost predicate AnswersMutant(db: Db, env: Env, d: Display, root: Node, c: Candidate, coins: Coins,
        dbms: Node -> Execution) {
    ValidPath(root, c.path) ==>
      var m := Mutated(root, c.mut, c.path, coins);
      m.Some? ==> Answers(db, env, d, m.value, dbms(m.value).result)
  }

  /** The result a connector makes of rows. */
  function Deliver(d: Display, rows: seq<Row>): Result {
    Result(if d.naming == FromRows && rows == [] then [] else seq(d.width, _ => ""), Shown(rows, d.show), false)
  }

  predicate Wide(rows: seq<Row>, width: nat) {
    forall i :: 0 <= i < |rows| ==> |rows[i]| == width
  }

  lemma Delivers(db: Db, env: Env, d: Display, q: Node)
    requires Wide(Rows(db, q, env), d.width)
    ensures Answers(db, env, d, q, Deliver(d, Rows(db, q, env)))
  {
  }

  /** There are such databases: the one that answers every statement with its rows. */
  lemma ByTheBook(db: Db, env: Env, d: Display, root: Node, coins: Coins)
    requires Known(db, env) && Wide(Rows(db, root, env), d.width)
    requires forall c :: c in CandidatesOf(root) && ValidPath(root, c.path) ==>
               var m := Mutated(root, c.mut, c.path, coins);
               m.Some? ==> Wide(Rows(db, m.value, env), d.width)
    ensures Faithful(db, env, d, root, coins, q => Execution(Deliver(d, Rows(db, q, env)), false))
  {
    var dbms := q => Execution(Deliver(d, Rows(db, q, env)), false);
    Delivers(db, env, d, root);
    forall c | c in CandidatesOf(root) ensures AnswersMutant(db, env, d, root, c, coins, dbms) {
      if ValidPath(root, c.path) && Mutated(root, c.mut, c.path, coins).Some? {
        Delivers(db, env, d, Mutated(root, c.mut, c.path, coins).value);
      }
    }
  }

  predicate StartsWithNaN(rd: Reading, r: Result) {
    IsAggregateResult(rd, r) && ParseNumeric(rd, r.rows[0][0]) == Some(NaN)
  }

  lemma PassedUnit(db: Db, env: Env, d: Display, rd: Reading, root: Node, coins: Coins, dbms: Node -> Execution,
                   name: string, c: Candidate)
    requires Faithful(db, env, d, root, coins, dbms) && NamesKnown(db, root)
    requires c in CandidatesOf(root) && Trusted(db, root, c) && !Turned(RowSet, root, c.path)
    requires !StartsWithNaN(rd, dbms(root).result)
    ensures var u := MutateAll.UnitOf(root, c, coins);
            u.sql.Some? && OutcomeOf(rd, false, Executed(u, name, dbms), dbms(root).result, dbms(u.sql.value)) == Passed
  {
    assert AnswersMutant(db, env, d, root, c, coins, dbms);
    Direction(db, root, c, coins);
    var m := Mutated(root, c.mut, c.path, coins).value;
    NoFalseAlarm(db, env, d, rd, root, c, coins, dbms(root).result, dbms(m).result);
  }

  /** The unit with its statement executed. */
  function Executed(u: MutateAll.Unit, name: string, dbms: Node -> Execution): MutateUnit {
    MutateUnit(name, u.sql, u.isUpper, if u.sql.Some? then dbms(u.sql.value) else Execution(Result([], [], true), true))
  }

  /**
   A whole statement: find the candidates, mutate, execute, put the units in order, judge them.
   With a database that answers correctly nothing at all is reported or counted as an error.
   */
  method TestStatement(ast: AstStore.Ast, root: Node, coins: Coins, dbms: Node -> Execution, rd: Reading,
                       nameOf: Mut -> string, suspect: bool, saved: bool, task: TaskResult,
                       stats: Stats.MutationStats, ghost db: Db, ghost env: Env, ghost d: Display)
    requires ast.Valid(root) && task.Valid() && stats.Valid()
    requires Faithful(db, env, d, root, coins, dbms) && !StartsWithNaN(rd, dbms(root).result)
    requires Tame(db, RowSet, root) && NamesKnown(db, root)
    modifies ast, task, stats
    ensures ast.Valid(root) && task.Valid() && stats.Valid()
    ensures task.Counters() == old(task.Counters())
  {
    var units := MutateAll.AllUnits(ast, root, coins);
    var keys: seq<Stats.Unit> := [];
    for i := 0 to |units|
      invariant |keys| == i && forall k :: 0 <= k < i ==> keys[k].id == k
    {
      keys := keys + [Stats.Unit(i, nameOf(units[i].name), units[i].sql.None?)];
    }
    var order := stats.PrioritizeUnits(keys);
    for i := 0 to |order|
      invariant task.Valid() && stats.Valid() && task.Counters() == old(task.Counters())
      modifies task, stats
    {
      assert order[i] in multiset(order) && order[i] in multiset(keys);
      var u := units[order[i].id];
      var again := if u.sql.Some? then dbms(u.sql.value) else Execution(Result([], [], true), true);
      var unit := Executed(u, nameOf(u.name), dbms);
      ghost var c := MutateAll.UnitFrom(units, root, coins, u);
      TameTrusted(db, root, c);
      PassedUnit(db, env, d, rd, root, coins, dbms, nameOf(u.name), c);
      ProcessMutationUnit(unit, dbms(root).result, rd, false, again, suspect, saved, task, stats);
      PassedLeavesCounters(task, old(task.Counters()), saved, suspect);
    }
  }

  lemma PassedLeavesCounters(task: TaskResult, k: Tally, saved: bool, suspect: bool)
    requires Counted(task, k, Passed, saved, suspect)
    ensures task.Counters() == k
  {
    assert k.reports + [] == k.reports && k.suspects + [] == k.suspects;
  }
}
