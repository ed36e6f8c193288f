# Verification of the implication oracle

impomysql looks for logic bugs in database systems. It takes a SELECT, rewrites one node of it so that the
result can only grow (or only shrink), runs both statements and reports a bug if the results do not contain one
another the promised way. Everything rests on one claim, made at `mutation/stage2/stage2.go:183`: the mutated
result grows if and only if `(U ^ Flag) ^ 1 == 1`. This project models the tool and proves that claim, the
machinery that carries it out, and what the tool does with it.

Verify it with `dafny verify dfyconfig.toml`.

## What is modelled

Mutation engine (MySQL/TiDB path)

- `Sql.dfy`: the parser's tree as one `Node` type (as in the original, code meets nodes of any kind and skips what it
  does not know), addresses of nodes, and the meaning of statements: three-valued logic (section 8.12 of SQL-92),
  comparison, BETWEEN, IN, LIKE, NULL, quantified and EXISTS predicates (sections 8.2 to 8.8 of SQL-92), joins,
  derived tables, DISTINCT, UNION chains and common table expressions, rows as multisets. The database, the collation,
  the meaning of functions, casts, columns, CASE and everything else no visitor looks into are arbitrary functions,
  and so is the order of rows.
- `Containment.dfy`: how operators move in the order False < Unknown < True and results in multiset containment.
- `Steps.dfy`: which children the visitor enters, where its flag flips, and what the flag is to mean.
- `Polarity.dfy`: one node moves with its children as the flag says. `CteUse.dfy`: a statement moves with a common table
  expression that is used at one polarity. `Trails.dfy`: the whole way; the flag is the direction of monotonicity.
- `Exactness.dfy`: the steps on which the flag keeps its meaning are exactly the sound ones.
- `LikePattern.dfy`: the two loops that rewrite LIKE patterns.
- `Mutation.dfy`: what each node offers, what each mutation makes of it, which way it moves.
- `Meanings.dfy`: what each rewritten node says, in every database, and which mutations a node is offered.
- `Candidates.dfy`: the candidates of a tree, exactly where they are, and the direction claim.
- `Reach.dfy`: where the visitor is to go, said over the syntax alone, and that it goes exactly there.
- `Visitor.dfy`: the visitor class with its candidates map. `AstStore.dfy`: the tree on a heap, mutated in
  place, printed and undone. `MutateAll.dfy`: all units of a statement, in any order of the map.
- `Counterexamples.dfy`: a statement, a database and a recorded candidate for every kind of position the claim does
  not cover.
- `Stage1.dfy`, `Stage1Walk.dfy`: the normalising walk that comes before, as a function and as carried out in place.

Oracle and runner

- `ResultCmp.dfy`: number normalisation, flattening, the comparison that counts in a map. `Numbers.dfy`: which numbers
  get the same text. `Oracle.dfy`: the verdicts.
- `Stats.dfy`: statistics of mutations and the order of units. `Runner.dfy`: units to bug reports, and no false alarm.
- `ConnectorPool.dfy`, `TaskPool.dfy`: the channel of connectors, and the pool of tasks as a system of small
  steps under arbitrary interleaving.

Generator and splitter

- `SqlText.dfy`, `SqlQuery.dfy`: what is generated, as trees, how it is written out, and what fits a scope.
- `Generator.dfy`, `QueryGenerator.dfy`: the generators, drawing from an arbitrary stream of numbers.
- `SqlWords.dfy`, `QueryWords.dfy`: what is written out, word for word.
- `Splitter.dfy`: the quoting automaton that splits a file into statements.

## Reading the main results

- `Candidates.Moved` and `Candidates.Direction`: for every database, environment, statement and candidate, except at the
  positions named below, the result moves as claimed, or, after an odd number of common table expressions used where
  more rows make fewer, the other way; so the claim holds if and only if that number is even or nothing changes.
  `Candidates.FlagIsMonotonicity` is the flag alone, for any replacement. `Candidates.TameTrusted` puts the conditions
  into one check over the visited tree.
- `Reach.CandidatesExact`: the candidates are exactly the mutations offered at the ends of ways that a relation over the
  syntax gives, through AND, OR, NOT, parentheses, IS [NOT] TRUE or FALSE, [NOT] EXISTS, [NOT] IN, ANY and ALL, with the
  sign those make. The lemmas of `Meanings` say what each mutation does to the node it is made on.
- An environment binds names of common table expressions only; which names may be bound is a parameter of the database
  (`Sql.Known`), and a statement's own names must be among them (`Steps.NamesKnown`). All other names are tables.
- Two orders are needed. Under WHERE, HAVING, ON, IS TRUE, AND, OR and parentheses it is enough that True stays True
  (role `Coarse`); below NOT and IS FALSE the order False < Unknown < True counts (role `Fine`). `a <=> b` to `a = b`
  is right in the first, and in the second only where the two sides are NULL together.
- Where the claim is false: arguments of functions and casts, a subquery used as a condition, a common table
  expression used where more rows make fewer (its flag is always positive), LIMIT on a set operation (a SELECT's own LIMIT
  and GROUP BY are gone after stage 1), `<=>` in role `Fine`, ALL/ANY over an empty subquery, and LIKE patterns whose
  escapes the rewrite touches. Each has its counterexample in `Counterexamples.dfy`, and its exact condition:
  `Exactness.StepExact` for the positions, `Candidates.Direction` for common table expressions, `Mutation.NullEqMoves`,
  `Mutation.AllAnyMoves`, `LikePattern.WideningExact` and `LikePattern.NarrowingExact` for the mutations.
- `AstStore.Ast.ImpoMutate` prints exactly `Candidates.Mutated` and leaves every node of the tree as it found it;
  new nodes are allocated beside it.
- `Runner.TestStatement` is the whole run over one statement: with a database that answers by the book, no counter of
  the task changes. The one exception, a single row that begins with NaN, is exact (`Oracle.JudgeContained`).
  Results come as either connector delivers them: the MySQL connector names the columns only of results that have rows.
- `Oracle.CheckNumbers` and `Oracle.JudgeExact` are the other way round: which verdicts are those of containment.
  `Runner.WrongRowsReported` is the result for a unit: reported if and only if its rows did not move the promised way.
- `Numbers.NormalizeExact`: decimals become the same text if and only if they are the same number led by the same text.
- `Runner.CountersCount`, `Runner.StatisticsCount` and `Stats.LogCounts` say what every counter is, by counting over the
  log.
- `TaskPool.LoopEnds` and `TaskPool.AllTasksRun` are the lower bound: the pool stops, uninterrupted, only when as many
  tasks as asked for are finished.

## Where the code and its words disagree

The model follows the code.

- The repository's README says that `IsUpper` true means mutated result contained in the original; the code means the
  opposite.
- The visitor's comment says functions are not entered; `visitFuncCallExpr` and `visitFuncCastExpr` enter them. This is
  where `Counterexamples.FunctionArgument` and `Counterexamples.CastArgument` come from.
- `RdMLikeU` is described as writing `_` or `%`; it only writes `%`.
- `CheckAggregate` is described as expecting a minimum to fall under an upper mutation; it compares every aggregate
  the same way, so MIN passes only if unchanged, and MAX of nothing (NULL) against a number is reported
  (`Oracle.AggregateExact`).
- `ANY_VALUE` is described as replaced by its argument; it is not in the list of replacements, so that branch is never
  reached.
- Tables without JOIN are meant to be separated by commas; they are separated by spaces.
- A set operation's statement visits the WITH clause of its list twice, so its candidates appear twice.

## Model

| member | source | states |
|---|---|---|
| Containment.AllBelowAny | mutation/stage2/alltoany.go:16-90 | ALL is below ANY, for every operator and with NULLs, if and only if the list is not empty |
| Containment.ChainMonotone | mutation/stage2/mutatevisitor.go:102-118 | a UNION chain grows with each element and with UNION turned into UNION ALL |
| Polarity.BinaryMonotone | mutation/stage2/mutatevisitor.go:298-331 | AND and OR keep the flag in both orders |
| Polarity.NotMonotone | mutation/stage2/mutatevisitor.go:469-487 | NOT turns the fine order around |
| Polarity.IsTruthMonotone | mutation/stage2/mutatevisitor.go:421-434 | IS [NOT] TRUE and IS [NOT] FALSE flip as the visitor says, and need only the coarse order below TRUE |
| Polarity.ExistsMonotone | mutation/stage2/mutatevisitor.go:381-392 | EXISTS rises and NOT EXISTS falls with the rows of the subquery |
| Polarity.InSubMonotone | mutation/stage2/mutatevisitor.go:395-410 | IN rises and NOT IN falls with the rows of the subquery, NULLs included |
| Polarity.CompareSubMonotone | mutation/stage2/mutatevisitor.go:365-379 | ANY rises and ALL falls with the rows of the subquery, for every operator |
| Polarity.SelectMonotone | mutation/stage2/mutatevisitor.go:170-185 | a SELECT grows with its source rows and its conditions, DISTINCT or not |
| Polarity.JoinMonotone | mutation/stage2/mutatevisitor.go:194-215 | an inner join grows with both sides and its condition |
| Polarity.ListMonotone | mutation/stage2/mutatevisitor.go:102-118 | a set operation grows with each of its elements |
| Polarity.StepMonotone | mutation/stage2/mutatevisitor.go:84-510 | every single sound step of the visitor keeps or flips the direction as its flag does |
| CteUse.FollowsTravels | mutation/stage2/mutatevisitor.go:84-510 | an expression, table or statement that uses some names at one polarity only moves with their rows |
| CteUse.WithMonotone | mutation/stage2/mutatevisitor.go:120-131 | a statement grows with a common table expression that is used, directly or through later ones, at positive polarity only, and shrinks if at negative polarity only |
| Trails.Monotone | mutation/stage2/mutatevisitor.go:84-510 | so does every trail of steps, of any length and nesting, turned round by each common table expression used at negative polarity |
| Exactness.StepExact | mutation/stage2/mutatevisitor.go:225-510 | a step keeps the direction in every database if and only if it is sound: not into a function or cast, not out of a subquery used as a value, not under LIMIT |
| LikePattern.WidenInPlace | mutation/stage2/rdmlikeu.go:60-68 | the loop rewrites the bytes in place to the widened pattern |
| LikePattern.NarrowInPlace | mutation/stage2/rdmlikel.go:60-68 | the loop rewrites the bytes in place to the narrowed pattern |
| LikePattern.WidenMatches | mutation/stage2/rdmlikeu.go:60-68 | the widened pattern matches all that the pattern matched, for every choice of positions |
| LikePattern.NarrowMatches | mutation/stage2/rdmlikel.go:60-68 | the narrowed pattern matches nothing that the pattern did not match |
| LikePattern.WideningExact | mutation/stage2/rdmlikeu.go:34-68 | widening is right for all strings and choices if and only if nothing but `%` is escaped |
| LikePattern.NarrowingExact | mutation/stage2/rdmlikel.go:34-68 | narrowing is right for all strings and choices if and only if no `%` is escaped |
| Mutation.RewriteOpWeaker | mutation/stage2/fixmcmpopu.go:35-71 | the relaxed operator never says less, the tightened never more, on any two values |
| Mutation.NullEqExact | mutation/stage2/fixmcmpopl.go:72-108 | `=` is below `<=>` if and only if both or neither value is NULL; `=` never adds a True |
| Mutation.NullEqMoves | mutation/stage2/fixmcmpopl.go:82-108 | `<=>` to `=` lowers a condition if and only if only True counts there or the two sides are always NULL together |
| Mutation.CompareSubOpMoves | mutation/stage2/fixmcmpopule.go:35-62 | relaxing the operator raises quantified comparisons too |
| Mutation.AllAnyMoves | mutation/stage2/alltoany.go:34-90 | ALL to ANY raises, in either order, if and only if the subquery is never empty |
| Mutation.TableNeverEmpty | mutation/stage2/alltoany.go:34-90 | a subquery over a table without conditions is never empty if and only if the table is not |
| Mutation.BetweenMoves | mutation/stage2/between_drop.go:35-140 | dropping a bound raises BETWEEN and lowers NOT BETWEEN, with NULL bounds |
| Mutation.InListMoves | mutation/stage2/fixminnullu.go:19-50 | a NULL in the list raises IN and lowers NOT IN |
| Mutation.LiteralMoves | mutation/stage2/fixmisnull.go:34-93 | FALSE for IS NULL lowers, TRUE for IS NOT NULL raises |
| Mutation.LikeMoves | mutation/stage2/rdmlikeu.go:50-84 | a wider pattern raises LIKE and lowers NOT LIKE |
| Mutation.SelectLiteralMoves | mutation/stage2/fixmwhere1u.go:19-46 | WHERE or HAVING set to 1 enlarges, set to 0 shrinks, the SELECT |
| Mutation.OnMoves | mutation/stage2/fixmon1u.go:19-46 | ON set to 1 enlarges, set to 0 shrinks, the join |
| Mutation.DistinctMoves | mutation/stage2/fixmdistinctu.go:18-39 | without DISTINCT there are at least as many rows of each kind |
| Mutation.AfterMoves | mutation/stage2/fixmunionallu.go:18-39 | UNION ALL instead of UNION raises an element of a chain |
| Mutation.RmUnionAllMoves | mutation/stage2/fixmrmunionalll.go:11-46 | dropping the second arm of a UNION ALL shrinks the result |
| Mutation.RewriteMoves | mutation/stage2/stage2.go:62-127 | every mined mutation succeeds and moves its node the way its U says, NOT forms the other way |
| Mutation.NotIdle | mutation/stage2/stage2.go:62-127 | no mutation leaves its node as it was, but for LIKE coins and conditions that already are the constant |
| Meanings.OperatorMeaning | mutation/stage2/fixmcmpopu.go:35-71 | by operator and mutation: `<` and `>` become True where the old one or `=` is, `=` where `>` or (ULE) `<` or `=` is, `<=` and `>=` where the old one is and `=` is not; Unknown stays; no other operator is touched |
| Meanings.CompareMeaning | mutation/stage2/fixmcmpopl.go:36-71 | so does the rewritten comparison, with the same operands, in every database |
| Meanings.QuantifiedMeaning | mutation/stage2/fixmcmpopu.go:35-71 | so does a comparison with ALL or ANY, against each value |
| Meanings.NullEqMeaning | mutation/stage2/fixmcmpopl.go:82-108 | `<=>` becomes a comparison Unknown where a side is NULL and the same elsewhere |
| Meanings.AllAnyMeaning | mutation/stage2/alltoany.go:34-90 | ALL becomes ANY and ANY becomes ALL, of the same values |
| Meanings.BetweenMeaning | mutation/stage2/between_drop.go:35-140 | without the upper bound only `>=` of the lower is asked, without the lower only `<=` of the upper, negated under NOT |
| Meanings.InListMeaning | mutation/stage2/fixminnullu.go:19-50 | IN becomes IN or Unknown, negated under NOT |
| Meanings.IsNullMeaning | mutation/stage2/fixmisnull.go:34-93 | IS NULL is set to False, IS NOT NULL to True |
| Meanings.LikeMeaning | mutation/stage2/rdmlikeu.go:50-84 | only between literals and if a character is there to rewrite; the pattern keeps its length, and each character other than `%` becomes `%`, or each `%` becomes `_`, where its own coin says so |
| Meanings.DistinctMeaning | mutation/stage2/fixmdistinctu.go:18-39 | the rows with DISTINCT are those without it, each once |
| Meanings.UnionMeaning | mutation/stage2/fixmunionallu.go:18-39 | UNION becomes UNION ALL or the other way round, the element's own rows stay |
| Meanings.ClauseMeaning | mutation/stage2/fixmwhere1u.go:19-46 | a WHERE or HAVING set to 1 is as if absent, set to 0 leaves no rows |
| Meanings.OnMeaning | mutation/stage2/fixmon1u.go:19-46 | an ON set to 1 is as if absent, set to 0 leaves no rows |
| Meanings.RmUnionAllMeaning | mutation/stage2/fixmrmunionalll.go:11-46 | of a set operation the rows of the first element are left |
| Meanings.Offered | mutation/stage2/mutatevisitor.go:102-602 | a visited node offers exactly the mutations whose rewrite succeeds on it, with the visitor's extra conditions |
| Candidates.VisitFound | mutation/stage2/mutatevisitor.go:84-602 | the visitor records exactly what is mined at the ends of its trails, with the flag of the trail |
| Reach.TrailReaches | mutation/stage2/mutatevisitor.go:84-510 | the visitor's trails are exactly the ways of a relation over the syntax, with the sign of the NOTs on them |
| Reach.CandidatesExact | mutation/stage2/mutatevisitor.go:84-602 | the candidates of a statement are exactly the mutations offered at the ends of those ways, none missing and none too many, each with its flag |
| Reach.ConditionVisited | mutation/stage2/mutatevisitor.go:170-185 | whatever a part of WHERE or HAVING offers, however deep, is a candidate |
| Reach.BothOperands | mutation/stage2/mutatevisitor.go:298-331 | what is reached in an operand of AND or OR is reached in the whole |
| Candidates.Moved | mutation/stage2/stage2.go:159-190 | an upper candidate's mutant contains the original's rows, a lower one's is contained in them, and the reverse where the way to it has turned |
| Candidates.Direction | mutation/stage2/stage2.go:159-190 | the claim of a candidate holds if and only if the way to it has not turned or the mutant has the same rows everywhere |
| Candidates.FlagIsMonotonicity | mutation/stage2/mutatevisitor.go:225-487 | anything higher put at a visited node enlarges the statement if the flag is 1 and shrinks it if it is 0, and the reverse |
| Candidates.TameTrusted | mutation/stage2/stage2.go:159-190 | in a statement without the exceptional positions every candidate is one to which the claim applies |
| Candidates.TameClaim | mutation/stage2/stage2.go:159-190 | and every claim holds |
| Candidates.QuantifiedTame | mutation/stage2/alltoany.go:34-90 | a comparison with ALL or ANY of a table is no exception if and only if the table has rows |
| Visitor.Grouping | mutation/stage2/mutatevisitor.go:604-623 | the map groups the candidates by name, each group in the order of recording |
| Visitor.MutateVisitor.AddCandidate | mutation/stage2/mutatevisitor.go:604-623 | appends one candidate to the list of its name |
| Visitor.MutateVisitor.VisitStatement | mutation/stage2/mutatevisitor.go:84-91 | the map holds the candidates of the statement |
| Visitor.MutateVisitor.VisitSetOprStmt | mutation/stage2/mutatevisitor.go:93-99 | adds the candidates of the statement, those of the list's WITH twice |
| Visitor.MutateVisitor.VisitSetOprSelectList | mutation/stage2/mutatevisitor.go:102-118 | adds the candidates of WITH, of every element and of the list, in this order |
| Visitor.MutateVisitor.VisitWithClause | mutation/stage2/mutatevisitor.go:120-131 | adds those of every common table expression unless recursive |
| Visitor.MutateVisitor.VisitResultSetNode | mutation/stage2/mutatevisitor.go:142-160 | adds those of the table, whatever its kind |
| Visitor.MutateVisitor.VisitSelect | mutation/stage2/mutatevisitor.go:170-185 | FROM, WHERE, HAVING, WITH, then the SELECT itself |
| Visitor.MutateVisitor.VisitJoin | mutation/stage2/mutatevisitor.go:194-208 | nothing for an outer join; else left, right, ON, then the join |
| Visitor.MutateVisitor.VisitExprNode | mutation/stage2/mutatevisitor.go:225-295 | adds the candidates of the expression, in either order's role |
| Visitor.MutateVisitor.VisitBinary | mutation/stage2/mutatevisitor.go:298-362 | both sides of AND and OR, comparisons themselves |
| Visitor.MutateVisitor.VisitCompareSubqueryExpr | mutation/stage2/mutatevisitor.go:365-379 | the comparison first, then the subquery, flipped under ALL |
| Visitor.MutateVisitor.VisitIsTruthExpr | mutation/stage2/mutatevisitor.go:421-434 | the operand, flipped for NOT and for FALSE |
| Visitor.MutateVisitor.VisitNot | mutation/stage2/mutatevisitor.go:469-487 | the operand, flipped |
| Visitor.MutateVisitor.VisitFuncCall | mutation/stage2/mutatevisitor.go:489-500 | the arguments, not flipped |
| AstStore.VisitedSlots | mutation/stage2/ast_replace.go:33-137 | every child slot the visitor enters as an expression is one the replacer rewrites |
| AstStore.ReplacerFinds | mutation/stage2/ast_replace.go:13-137 | a visited BETWEEN or IS NULL sits in a slot the replacer rewrites |
| AstStore.Ast.Walk | mutation/stage2/ast_replace.go:13-137 | the walk redirects the one slot that holds the target, and nothing else |
| AstStore.Ast.ReplaceAndPrint | mutation/stage2/between_drop.go:66-79 | replace, print, replace back: the text has one node replaced and the heap is as before |
| AstStore.Ast.PrintWith | mutation/stage2/fixmcmpopu.go:51-71 | overwrite a cell, print, restore: the text has one node replaced and the heap is as before |
| AstStore.Ast.DoFields | mutation/stage2/fixmdistinctl.go:22-44 | operators, ALL/ANY, DISTINCT and UNION [ALL]: prints the mutant, changes nothing |
| AstStore.Ast.DoClause | mutation/stage2/fixmwhere0l.go:19-47 | WHERE, HAVING and ON set to a literal: prints the mutant, tree unchanged |
| AstStore.Ast.DoInNull | mutation/stage2/fixminnullu.go:19-50 | appends NULL, prints the mutant, tree unchanged |
| AstStore.Ast.DoRmUnionAll | mutation/stage2/fixmrmunionalll.go:22-46 | shortens the list, prints the mutant, tree unchanged |
| AstStore.Ast.DoLike | mutation/stage2/rdmlikel.go:50-84 | rewrites the pattern in a byte array, prints the mutant, tree unchanged |
| AstStore.Ast.DoBetween | mutation/stage2/between_drop.go:35-140 | builds the comparison and swaps it in and out |
| AstStore.Ast.DoIsNull | mutation/stage2/fixmisnull.go:34-93 | swaps a literal in and out |
| AstStore.Ast.ImpoMutate | mutation/stage2/stage2.go:62-127 | for every candidate of the statement: the printed mutant, and no side effect |
| MutateAll.AllUnits | mutation/stage2/stage2.go:161-190 | one unit per candidate, each mutated alone, whatever the order of the map; the tree is as before |
| MutateAll.UnitFrom | mutation/stage2/stage2.go:177-190 | every unit is that of a candidate of the statement |
| Counterexamples.WhereFails | mutation/stage2/stage2.go:183 | a wrong claim about a condition is a wrong claim about the statement, and the visitor records it |
| Counterexamples.FunctionArgument | mutation/stage2/mutatevisitor.go:489-500 | the claim fails in every argument of every function, for some database |
| Counterexamples.CastArgument | mutation/stage2/mutatevisitor.go:502-510 | the claim fails in every cast, for some database |
| Counterexamples.NullEqUnderNot | mutation/stage2/fixmcmpopl.go:75-108 | `<=>` to `=` fails under NOT |
| Counterexamples.AllOfNothing | mutation/stage2/alltoany.go:34-61 | ALL to ANY fails on an empty subquery |
| Counterexamples.ScalarCondition | mutation/stage2/mutatevisitor.go:238-239 | the claim fails in a subquery used as a condition |
| Counterexamples.LimitOnUnion | mutation/stage1/rmlimit.go:17-25 | the claim fails under a LIMIT that stage 1 leaves on a set operation |
| Counterexamples.CteUnderNot | mutation/stage2/mutatevisitor.go:120-131 | the claim fails in a common table expression used under NOT EXISTS |
| Counterexamples.UnlessUses | mutation/stage2/mutatevisitor.go:120-131 | there the expression is used at negative polarity, and only there |
| Stage1.InitNormal | mutation/stage1/initvisitor.go:11-18 | after the walk no SELECT in the tree has GROUP BY or LIMIT, no join is outer, every aggregate is a bare argument, nothing uncertain is left |
| Stage1.InitFixed | mutation/stage1/initvisitor.go:11-18 | the walk changes nothing if and only if the tree is in that form |
| Stage1.InitTwice | mutation/stage1/initvisitor.go:11-18 | a second walk changes nothing |
| Stage1.WalkIgnores | mutation/stage1/initvisitor.go:11-18 | the result does not depend on GROUP BY, LIMIT and the kind of join |
| Stage1.LimitLifted | mutation/stage1/rmlimit.go:17-25 | a SELECT's rows are what its LIMIT picks of the rows it has without, so it has all the rows it had |
| Stage1.OuterJoin | mutation/stage1/rmlrjoin.go:24-35 | the inner join has no rows that the outer join did not have, and the same rows if and only if every row of the side kept whole has a partner |
| Stage1.AggregateGone | mutation/stage1/rmagg.go:18-73 | an aggregate means its first argument, COUNT of a literal and no argument mean 1 |
| Stage1.UncertainGone | mutation/stage1/rmuncertain.go:41-129 | an uncertain function means its fixed constant |
| Stage1.Constants | mutation/stage1/rmuncertain.go:41-129 | the whole table of constants, by function name; no other function has one |
| Stage1.ReadyForStage2 | mutation/stage2/mutatevisitor.go:194-208 | after the walk the outer-join skip never fires and no SELECT makes a step unsound |
| Stage1Walk.RmGroupByAndLimit | mutation/stage1/rmlimit.go:17-25 | in place, the rest of the tree untouched |
| Stage1Walk.RmAgg | mutation/stage1/rmagg.go:18-73 | in place: first argument or a new literal 1 |
| Stage1Walk.RmLRJoin | mutation/stage1/rmlrjoin.go:24-35 | in place: the kind of the join |
| Stage1Walk.RmUncertain | mutation/stage1/rmuncertain.go:41-129 | in place: name and arguments |
| Stage1Walk.Accept | mutation/stage1/initvisitor.go:11-22 | the walk leaves the tree in normal form, in its own and new cells only |
| Stage1Walk.InitStatement | mutation/stage1/stage1.go:28-67 | the text given to stage 2, or an error for other statements |
| ResultCmp.NormalizeNumeric | connector/result.go:93-175 | the scan computes the normal form |
| ResultCmp.NormalizeTwice | connector/result.go:93-175 | normalising is idempotent |
| ResultCmp.NormalizeKeepsNumber | connector/result.go:122-174 | a decimal denotes the same number afterwards, and keeps a digit if and only if it had one before the dot or a non-zero one behind it |
| ResultCmp.NormalizeLosesNumber | connector/result.go:164-167 | `.0` becomes the empty string |
| Numbers.NormalizeExact | connector/result.go:93-175 | decimals with a digit before the dot become the same text if and only if they are the same number led by the same text, `-0.0` and `+0.0` being led by 0 |
| Numbers.SameFraction | connector/result.go:122-174 | decimals that agree before the dot become the same text if and only if they are the same number |
| Numbers.SameInteger | connector/result.go:152-174 | a decimal becomes the text of its integer if and only if its fraction is zero, and 0 whatever its sign if that is a single 0 |
| ResultCmp.FlatRows | connector/result.go:74-87 | one string per row, normalised cells joined by commas |
| ResultCmp.FlatInjective | connector/result.go:74-87 | rows of equal width with comma-free cells are told apart, up to normalisation |
| ResultCmp.ConfusedExact | connector/result.go:74-87 | a row of normalised cells shares its text with another of the same width if and only if it has several cells and a comma in one of them |
| ResultCmp.CountRows | connector/result.go:232-239 | the map holds the multiplicities |
| ResultCmp.CrossOff | connector/result.go:240-251 | crossing off leaves the difference, and tells whether all were there |
| ResultCmp.CountingCompare | connector/result.go:229-266 | 0, -1, 1, 2 are equal, contained, containing, neither |
| ResultCmp.CMP | connector/result.go:201-266 | the same with the error, empty and column-count cases |
| ResultCmp.ComparedOtherWay | connector/result.go:194-266 | exchanging the results negates the verdict |
| ResultCmp.ComparedExact | connector/result.go:194-266 | the numbers say how the flattened rows are contained in each other, unless neither result has rows and only one names its columns |
| Numbers.SameNumbersEqual | connector/result.go:194-266 | results whose cells are the same, or the same numbers, compare as 0 |
| Oracle.CheckContained | mutation/oracle/oracle.go:16-28 | rows that moved the promised way pass, empty results included, with either connector |
| Oracle.CheckNumbers | mutation/oracle/oracle.go:16-28 | for cells without commas exactly those pass whose rows, numbers in normal form, moved the promised way |
| Oracle.CheckExact | mutation/oracle/oracle.go:16-28 | on cells in normal form exactly those whose rows moved the promised way |
| Oracle.LooksAggregate | task/runner.go:245-261 | the loop over the cells of a single row |
| Oracle.ChosenByCells | task/runner.go:121-133 | a cell of text anywhere in the row, or any number of rows but one, makes it the verdict of containment; otherwise the numbers decide |
| Oracle.JudgeContained | task/runner.go:121-133 | rows that moved the promised way pass, if and only if they are not one row that starts with NaN |
| Oracle.JudgeExact | task/runner.go:121-133 | the verdict is that of containment if and only if the original is no aggregate, or the mutant has no rows and was to shrink, or the first numbers of two single rows moved right exactly when the rows are the same, or more rows are compared |
| Oracle.JudgeBlind | mutation/oracle/aggregate_check.go:31-34 | a lost single row of numbers goes unnoticed, with the result the MySQL connector delivers |
| Oracle.AggregateExact | mutation/oracle/aggregate_check.go:26-67 | COUNT always passes, MAX if a value is on both sides or neither, MIN only if unchanged |
| Stats.Recorded | mutation/stage2/mutation_stats.go:33-49 | keeps bugs and errors at most the runs, of which there is at least one, and touches no other name |
| Stats.MutationStats.RecordResult | mutation/stage2/mutation_stats.go:33-49 | the map after one more run |
| Stats.LogCounts | mutation/stage2/mutation_stats.go:33-49 | after any log, for every name: runs, bugs and errors are the numbers of its records, of those that found a bug and of those that failed |
| Stats.StrictWeakOrder | mutation/stage2/mutation_stats.go:69-101 | the comparison is a strict weak order |
| Stats.OrderMeaning | mutation/stage2/mutation_stats.go:69-101 | failed units last, unseen mutations first, then rates falling, errors rising |
| Stats.StableUnique | mutation/stage2/mutation_stats.go:65-102 | there is only one stable order |
| Stats.MutationStats.PrioritizeUnits | mutation/stage2/mutation_stats.go:65-102 | the units in that order |
| Runner.TaskResult.Save | task/runner.go:135-189 | a new bug id, reported, under suspicion or counted as not saved |
| Runner.ProcessMutationUnit | task/runner.go:53-194 | the counters, lists and statistics after each of the outcomes of a unit |
| Runner.CountersCount | task/runner.go:53-194 | after any sequence of units every counter is the number of units of its kind |
| Runner.StatisticsCount | task/runner.go:53-194 | and the statistics have, by mutation, the numbers of its units judged or failed, of its bugs and of its errors |
| Runner.WrongRowsReported | task/runner.go:121-133 | an executed mutant is reported if and only if its rows, numbers in normal form, did not move the promised way, wherever the verdict is that of containment |
| Runner.ErrorsReported | task/runner.go:75-118 | a failing mutant is a bug if and only if it was to grow, the original went through and both executions of the mutant fail unexpectedly; any other is judged, unless the original failed |
| Runner.NoFalseAlarm | task/runner.go:121-133 | correct answers to a statement and its mutant pass the oracle |
| Runner.TestStatement | task/task.go:521-546 | over a whole statement with a correct database no bug and no error is counted |
| Runner.ByTheBook | task/runner.go:121-133 | the database that answers every statement with its rows is such a correct one |
| ConnectorPool.Channel.BackToPool | connector/connectorpool.go:45-48 | appends, given room |
| ConnectorPool.Channel.WaitForFree | connector/connectorpool.go:39-43 | takes the first, given one |
| ConnectorPool.Channel.Close | connector/pg_connectorpool.go:88-95 | empties a full channel and closes every connector once |
| ConnectorPool.NewPool | connector/pg_connectorpool.go:27-75 | a full channel, or after a failed connection all of the earlier ones closed |
| TaskPool.InvStep | task/taskpool.go:278-348 | every step of dispatcher and tasks keeps the invariant |
| TaskPool.OnePlace | task/taskpool.go:397-446 | in every interleaving a connector is in the channel, with one holder or closed, once |
| TaskPool.BackToPoolNeverBlocks | connector/pg_connectorpool.go:83-86 | whoever gives a connector back finds room, and no more tasks hold one than there are threads |
| TaskPool.CloseNeverBlocks | connector/pg_connectorpool.go:88-95 | when the pool is closed all open connectors are in the channel |
| TaskPool.AllClosed | task/taskpool.go:436-447 | in the end the PostgreSQL runner has closed each connector once |
| TaskPool.OneConnectorLeaks | task/taskpool.go:222-260 | the MySQL runner keeps one connector for good |
| TaskPool.TaskIdBound | task/taskpool.go:232-244 | at most MaxTasks + ThreadNum - 1 task ids |
| TaskPool.LoopEnds | task/taskpool.go:229-250 | uninterrupted, the loop is left only with a limit set and that many tasks finished; without a limit never |
| TaskPool.AllTasksRun | task/taskpool.go:397-446 | then at least MaxTasks tasks were started, and in the end all of them have run |
| TaskPool.FinalResult | task/taskpool.go:281-345 | finished tasks are the launched ones, the bug total is the sum over the listed tasks, the two lists are duplicate-free, disjoint and name every task with bugs |
| TaskPool.NoDeadlock | task/taskpool.go:397-446 | until the runner is finished someone can take a step |
| TaskPool.EveryRunEnds | task/taskpool.go:397-446 | with a task limit every run is bounded |
| Splitter.ExtractSQL | connector/extractsqls.go:20-67 | the pieces of the text, numbered from 0 |
| Splitter.Lossless | connector/extractsqls.go:20-67 | pieces and tail make up the text |
| Splitter.TailHasNone | connector/extractsqls.go:20-67 | the tail holds no further piece |
| Splitter.SplitAgain | connector/extractsqls.go:20-67 | splitting a piece gives that piece |
| Splitter.WholeIffClosed | connector/extractsqls.go:20-67 | a statement comes back whole if and only if its quotes are closed and no semicolon is outside them |
| Splitter.ClosedExact | connector/extractsqls.go:20-67 | a text is closed if and only if it is made of plain characters and strings between equal quotes, in which quote and backslash are escaped |
| Splitter.WriteThenRead | task/task.go:403-407 | n closed statements written out come back as n, up to leading newlines |
| SqlText.FitsMeaning | generator/expr_gen.go:13-39 | an expression that fits is within the height and mentions only columns in scope |
| SqlText.ShowClosed | generator/expr_gen.go:13-39 | and is written with its quotes closed |
| SqlWords.WordsShown | generator/expr_gen.go:13-39 | what is written is the words of the expression, in order, with nothing but spaces between them |
| SqlQuery.InScope | generator/scope.go:46-68 | a column in scope is one of a table of the FROM clause, under its alias there |
| SqlQuery.OnMentions | generator/from_gen.go:80-97 | an ON condition mentions only tables introduced up to its own |
| SqlQuery.AliasesDiffer | generator/generator.go:125-129 | the table aliases of a query are different names |
| SqlQuery.QueryClosed | generator/query_gen.go:59-79 | a query that fits is written with its quotes closed |
| QueryWords.QueryShown | generator/query_gen.go:59-79 | what is written is the words of the query's clauses, in order, empty clauses left out, with nothing but spaces between them |
| Generator.EnumQuotable | generator/scope.go:164-203 | the values read out of an ENUM type can stand between quotes |
| Generator.Scope.AddTable | generator/scope.go:46-68 | adds the table and its columns under the alias |
| Generator.ExprGenerator.Expression | generator/expr_gen.go:13-39 | whatever is drawn: fits the scope, height at most MaxDepth - depth + 2, and it terminates |
| Generator.ExprGenerator.TypeCompatibleValue | generator/expr_gen.go:120-181 | fits the scope, one level down at most |
| Generator.ExprGenerator.FunctionCall | generator/expr_gen.go:205-253 | fits the scope at its depth |
| Generator.ExprGenerator.BoolExpr | generator/bool_expr_gen.go:12-34 | fits the scope, height at most MaxDepth - depth + 2 |
| Generator.ExprGenerator.LikePredicate | generator/bool_expr_gen.go:174-200 | fits the scope, height at most 3 |
| Generator.ExprGenerator.WhereExpr | generator/query_gen.go:83-111 | fits the scope at its depth |
| QueryGenerator.QueryGenerator.JoinOnClause | generator/from_gen.go:82-97 | fits the scope it is given |
| QueryGenerator.QueryGenerator.FromClause | generator/from_gen.go:12-66 | scopes right at every ON, aliases new and rising, columns those of the tables |
| QueryGenerator.QueryGenerator.PlainSelect | generator/query_gen.go:12-79 | every clause fits, aliases new |
| QueryGenerator.QueryGenerator.UnionSelect | generator/query_gen.go:188-198 | both sides fit, aliases new throughout |
| QueryGenerator.QueryGenerator.CteSelect | generator/query_gen.go:202-227 | body and main query fit, aliases new throughout |
| QueryGenerator.QueryGenerator.DerivedSelect | generator/query_gen.go:231-251 | body fits, the outer condition mentions no columns |
| QueryGenerator.QueryGenerator.GenerateSelects | generator/generator.go:109-115 | n statements, each closed |
| QueryGenerator.QueryGenerator.WriteAndRead | task/task.go:403-407 | the file of n generated statements splits into exactly these n |

## Left out

- Printing and parsing: a statement's text is identified with its tree. Failing prints, which in several mutations return
  before undoing, are not modelled.
- REGEXP mutations, which edit bytes regardless of escapes and character classes, and the PostgreSQL mutation functions.
- Two-step combinations of mutations: their budget is zero in the code.
- INTERSECT and EXCEPT, row-valued IN and comparisons (the first column is compared), window functions, NATURAL JOIN and
  USING, DISTINCT and ORDER BY inside aggregates.
- HAVING is a condition on rows, which is what it is after GROUP BY and aggregates are gone.
- LIKE: characters are bytes; patterns with multi-byte characters, which the byte loops can break, and other ESCAPE
  characters are not modelled.
- Candidates.Direction: of a common table expression that is used at both polarities, or in a place the step does not keep,
  nothing is said; `CteUse.UsedAt` is the condition, read off the tree.
- Meanings.DistinctMeaning: nothing is said of a SELECT that still has GROUP BY or LIMIT; stage 1 leaves none.
- Meanings.UnionMeaning: nothing is said of a SELECT that still has GROUP BY or LIMIT; stage 1 leaves none.
- Meanings.ClauseMeaning: nothing is said of a SELECT that still has GROUP BY or LIMIT; stage 1 leaves none.
- Exactness.StepExact: of a SELECT that still has GROUP BY or LIMIT only the one without conditions is covered, as stage 1
  leaves no such SELECT.
- Polarity.SelectMonotone: DISTINCT and UNION identify rows by equality of values, also under a collation that takes
  different values for equal; there one of them is shown for all, and containment of what is shown can fail.
- Polarity.InSubMonotone: rows on the left of IN are not modelled, only the first column of the subquery is compared.
- Polarity.JoinMonotone: NATURAL JOIN and USING are not modelled.
- Candidates.VisitFound: without the REGEXP candidates.
- AstStore.Ast.ImpoMutate: without the REGEXP mutations, and no print fails.
- MutateAll.AllUnits: without the REGEXP units, and no print fails.
- LikePattern.WideningExact: characters are bytes and the escape character is the backslash.
- LikePattern.NarrowingExact: characters are bytes and the escape character is the backslash.
- Stage1.AggregateGone: DISTINCT and ORDER BY inside an aggregate are not modelled.
- Runner.TestStatement: one statement at a time, outside aggregate mode; the false positive analysis and the saving of reports
  are given as answers, and `DoRmUnionAll`, like the code, is a failed unit only if its list is too short.
- Oracle.JudgeContained: floats are NaN, the infinities and reals without rounding; reading text as a float, trimming it and
  rewriting scientific notation are parameters.
- Stats.StrictWeakOrder: rates are compared by cross-multiplying instead of dividing floats.
- Stats.OrderMeaning: rates are exact quotients, not floats.
- Stats.MutationStats.PrioritizeUnits: rates are exact quotients; the sort is an insertion sort, by Stats.StableUnique any
  stable sort gives the same.
- SqlWords.WordsShown: how many spaces stand between two words, if any, is not said.
- QueryWords.QueryShown: how many spaces stand between two words, if any, is not said.
- Runner.ProcessMutationUnit: reports, logs and the second execution after an error are given as answers.
- Runner.WrongRowsReported: for cells without commas, and where `Oracle.JudgeExact` says the verdict is that of containment.
- ConnectorPool.NewPool: the connection that creates the database before the pool is filled is not modelled.
- Stage1.UncertainGone: the decimal 0.5 that replaces RAND() is written as a string literal, as the model has no decimals.
- TaskPool.InvStep: a task's work is one step with an arbitrary outcome, the clock is a step that may happen, and failing file
  operations other than the task's configuration are not modelled.
- Generator.ExprGenerator.Expression: names of tables and columns are free of quotes and semicolons and column types free of
  backslashes, without which closed quotes cannot be promised; expressions are built as trees and written out at the end.
- The generator's DDL, sqlsim and sqlsimx, connectors, configuration, files, logging, the command line and the tools
  directory.
