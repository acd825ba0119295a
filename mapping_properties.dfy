/**
 * Properties of the statement semantics: what each statement kind does to
 * the event, and how execution of a mapping composes them.
 */
module MappingProperties {
  import opened Wrappers
  import opened Events
  import opened Merge
  import opened LogLevels
  import opened Mapping

  //----------------------------------------------------------------------------
  // Single statements

  /** A failing statement leaves the fields as they were and logs nothing:
      no statement fails after a partial change. */
  lemma {:induction false} FailedStepChangesNothing(s: Statement, m: Fields)
    requires Step(s, m).result.Err?
    ensures Step(s, m).fields == m && Step(s, m).logged == []
    decreases s
  {
    match s
    case IfStatement(condition, whenTrue, whenFalse) =>
      if condition(m) == Ok(Concrete(Boolean(true))) {
        FailedStepChangesNothing(whenTrue, m);
      } else if condition(m) == Ok(Concrete(Boolean(false))) {
        FailedStepChangesNothing(whenFalse, m);
      }
    case _ =>
  }

  /** An assignment from a concrete value writes it at its path and leaves
      every unrelated path alone; from anything else it fails with a fixed
      message and changes nothing. */
  lemma AssignmentWrites(path: Path, query: Query, m: Fields, q: Path)
    ensures query(m).Ok? && query(m).value.Concrete? ==>
      var e := Step(Assignment(path, query), m);
      && e.result.Ok?
      && Get(e.fields, path) == Some(query(m).value.value)
      && (!(path <= q) && !(q <= path) ==> Get(e.fields, q) == Get(m, q))
    ensures query(m) == Ok(NonValue) ==>
      Step(Assignment(path, query), m) == Effect(Err("assignment must be from a value"), m, [])
  {
    if query(m).Ok? && query(m).value.Concrete? {
      InsertThenGet(m, path, query(m).value.value);
      if !(path <= q) && !(q <= path) {
        InsertElsewhere(m, path, q, query(m).value.value);
      }
    }
  }

  /** After a deletion every deleted path is absent. */
  lemma {:induction false} DeletionRemovesPaths(m: Fields, paths: seq<Path>, q: Path)
    requires q in paths
    ensures Step(Deletion(paths), m).result.Ok?
    ensures Get(Step(Deletion(paths), m).fields, q).None?
    decreases |paths|
  {
    var n := |paths| - 1;
    if q == paths[n] {
      RemoveThenGet(RemoveAll(m, paths[..n]), q, false);
    } else {
      assert q in paths[..n];
      DeletionRemovesPaths(m, paths[..n], q);
      RemoveKeepsAbsent(RemoveAll(m, paths[..n]), paths[n], q, false);
    }
  }

  /** A deletion of paths that are all absent changes nothing. */
  lemma {:induction false} DeletionOfAbsentPaths(m: Fields, paths: seq<Path>)
    requires forall p | p in paths :: Get(m, p).None?
    ensures Step(Deletion(paths), m) == Effect(Ok(()), m, [])
    decreases |paths|
  {
    if paths != [] {
      var n := |paths| - 1;
      DeletionOfAbsentPaths(m, paths[..n]);
      RemoveAbsent(m, paths[n], false);
    }
  }

  /** A deletion only reaches paths at or below a deleted path: every path
      that no deleted path is a prefix of keeps its value when it lies beside
      them, and keeps existing when it is an ancestor of one (emptied parent
      maps are not pruned). */
  lemma {:induction false} DeletionIsLocal(m: Fields, paths: seq<Path>, q: Path)
    requires forall p | p in paths :: !(p <= q)
    ensures (forall p | p in paths :: !(q <= p)) ==> Get(Step(Deletion(paths), m).fields, q) == Get(m, q)
    ensures Get(m, q).Some? ==> Get(Step(Deletion(paths), m).fields, q).Some?
    decreases |paths|
  {
    if paths != [] {
      var n := |paths| - 1;
      var before := RemoveAll(m, paths[..n]);
      assert paths[n] in paths;
      assert forall p | p in paths[..n] :: p in paths;
      DeletionIsLocal(m, paths[..n], q);
      if q < paths[n] {
        assert q <= paths[n];
        if Get(before, q).Some? {
          RemoveKeepsAncestors(before, paths[n], q);
        }
      } else {
        RemoveElsewhere(before, paths[n], q);
      }
    }
  }

  /** A projection always succeeds; afterwards the leaves are exactly the
      former leaves that some keep-path covers, with their former values. */
  lemma OnlyFieldsProjects(keep: seq<Path>, m: Fields, q: Path)
    ensures Step(OnlyFields(keep), m).result.Ok?
    ensures IsLeaf(Step(OnlyFields(keep), m).fields, q) <==> IsLeaf(m, q) && Covered(q, keep)
    ensures IsLeaf(m, q) && Covered(q, keep) ==> Get(Step(OnlyFields(keep), m).fields, q) == Get(m, q)
  {
    forall k | k in Uncovered(m, keep) ensures IsLeaf(m, k) {
      LeafPathsExact(m, k);
    }
    LeafPathsExact(m, q);
    RemoveEachLeaves(m, Uncovered(m, keep), q);
  }

  /** A path that exists has every prefix existing too. */
  lemma {:induction false} PrefixExists(m: Fields, p: Path, k: Path)
    requires Get(m, k).Some? && p <= k
    ensures Get(m, p).Some?
    decreases |p|
  {
    if |p| > 1 {
      assert p[1..] <= k[1..];
      PrefixExists(m[p[0]].fields, p[1..], k[1..]);
    }
  }

  /** A keep-path absent from the record has no effect. */
  lemma OnlyFieldsIgnoresAbsentKeep(keep: seq<Path>, p: Path, m: Fields)
    requires Get(m, p).None?
    ensures Step(OnlyFields(keep + [p]), m) == Step(OnlyFields(keep), m)
  {
    forall k | k in LeafPaths(m) ensures Covered(k, keep + [p]) == Covered(k, keep) {
      LeafPathsExact(m, k);
      if p <= k {
        PrefixExists(m, p, k);
      }
      if Covered(k, keep) {
        var i :| 0 <= i < |keep| && keep[i] <= k;
        assert (keep + [p])[i] == keep[i];
      }
    }
    assert Uncovered(m, keep + [p]) == Uncovered(m, keep);
  }

  /** A conditional runs exactly the branch its boolean selects; on any
      other result it fails with a fixed message and runs neither. */
  lemma IfSelectsBranch(condition: Query, whenTrue: Statement, whenFalse: Statement, m: Fields)
    ensures condition(m) == Ok(Concrete(Boolean(true))) ==>
      Step(IfStatement(condition, whenTrue, whenFalse), m) == Step(whenTrue, m)
    ensures condition(m) == Ok(Concrete(Boolean(false))) ==>
      Step(IfStatement(condition, whenTrue, whenFalse), m) == Step(whenFalse, m)
    ensures condition(m).Ok? && !(condition(m).value.Concrete? && condition(m).value.value.Boolean?) ==>
      Step(IfStatement(condition, whenTrue, whenFalse), m) == Effect(Err("query returned non-boolean value"), m, [])
  {
  }

  /** The checks of a merge, in order: the source expression, the `deep`
      expression (absent means false), the destination path, then the kinds
      of both operands. Each failure changes nothing. */
  lemma MergeFnChecks(to: Path, from: Query, deep: Option<Query>, m: Fields)
    ensures DeepFlag(None, m) == Ok(false)
    ensures from(m).Err? ==> Step(MergeFn(to, from, deep), m) == Effect(Err(from(m).error), m, [])
    ensures from(m).Ok? && deep.Some? && deep.value(m).Ok?
            && !(deep.value(m).value.Concrete? && deep.value(m).value.value.Boolean?) ==>
      Step(MergeFn(to, from, deep), m) == Effect(Err("deep parameter passed to merge is a non-boolean value"), m, [])
    ensures from(m).Ok? && DeepFlag(deep, m).Ok? && Get(m, to).None? ==>
      Step(MergeFn(to, from, deep), m) == Effect(Err("parameter " + PathToString(to) + " passed to merge is not found"), m, [])
    ensures from(m).Ok? && DeepFlag(deep, m).Ok? && Get(m, to).Some?
            && !(Get(m, to).value.Map? && from(m).value.Concrete? && from(m).value.value.Map?) ==>
      Step(MergeFn(to, from, deep), m) == Effect(Err("parameters passed to merge are non-map values"), m, [])
  {
  }

  /** A merge of two maps writes the merged map at the destination and leaves
      every unrelated path alone. */
  lemma MergeFnMerges(to: Path, from: Query, deep: Option<Query>, m: Fields, q: Path)
    requires from(m).Ok? && from(m).value.Concrete? && from(m).value.value.Map?
    requires DeepFlag(deep, m).Ok? && Get(m, to).Some? && Get(m, to).value.Map?
    ensures var e := Step(MergeFn(to, from, deep), m);
      && e.result.Ok? && e.logged == []
      && Get(e.fields, to) == Some(Map(Merged(Get(m, to).value.fields, from(m).value.value.fields, DeepFlag(deep, m).value)))
      && (!(to <= q) && !(q <= to) ==> Get(e.fields, q) == Get(m, q))
  {
    var merged := Map(Merged(Get(m, to).value.fields, from(m).value.value.fields, DeepFlag(deep, m).value));
    InsertThenGet(m, to, merged);
    if !(to <= q) && !(q <= to) {
      InsertElsewhere(m, to, q, merged);
    }
  }

  /** A log statement never changes the fields; it fails only when its
      message is not a concrete value, and otherwise emits one line at its
      level, `info` when none is given. */
  lemma LogFnKeepsFields(msg: Query, level: Option<LogLevel>, m: Fields)
    ensures Step(LogFn(msg, level), m).fields == m
    ensures Step(LogFn(msg, level), m).result.Ok? <==> msg(m).Ok? && msg(m).value.Concrete?
    ensures msg(m) == Ok(NonValue) ==> Step(LogFn(msg, level), m).result == Err("Can only log Value parameters")
    ensures msg(m).Ok? && msg(m).value.Concrete? ==>
      Step(LogFn(msg, level), m).logged == [LogLine(if level.Some? then level.value else Info, msg(m).value.value)]
  {
  }

  //----------------------------------------------------------------------------
  // Whole mappings

  /** Statement `i` succeeds on the fields the statements before it left. */
  ghost predicate SucceedsAt(statements: seq<Statement>, m: Fields, i: nat)
    requires i < |statements|
  {
    Step(statements[i], Run(statements[..i], m).fields).result.Ok?
  }

  /** A mapping succeeds exactly when every statement succeeds on the fields
      the statements before it left. */
  lemma {:induction false} RunSucceedsIff(statements: seq<Statement>, m: Fields)
    ensures Run(statements, m).result.Ok? <==>
      forall i | 0 <= i < |statements| :: SucceedsAt(statements, m, i)
    decreases |statements|
  {
    if statements != [] {
      var n := |statements| - 1;
      var init := statements[..n];
      RunSucceedsIff(init, m);
      forall i | 0 <= i < n ensures SucceedsAt(init, m, i) == SucceedsAt(statements, m, i) {
        assert init[i] == statements[i] && init[..i] == statements[..i];
      }
      assert Run(statements, m) == Extend(Run(init, m), n, statements[n]);
      assert SucceedsAt(statements, m, n) == Step(statements[n], Run(init, m).fields).result.Ok?;
    }
  }

  /** When statement `i` is the first to fail, with message `e`, the mapping
      fails with `e` wrapped with `i`; the fields and the log hold what the
      statements before `i` did and nothing more: statement `i` changes
      nothing and no later statement runs. */
  lemma RunFirstFailure(statements: seq<Statement>, m: Fields, i: nat)
    requires i < |statements|
    requires Run(statements[..i], m).result.Ok?
    requires Step(statements[i], Run(statements[..i], m).fields).result.Err?
    ensures Run(statements, m) == Effect(
      Err("failed to apply mapping " + NatToString(i) + ": " + Step(statements[i], Run(statements[..i], m).fields).result.error),
      Run(statements[..i], m).fields,
      Run(statements[..i], m).logged)
  {
    FailedStepChangesNothing(statements[i], Run(statements[..i], m).fields);
    RunPrefixStep(statements, i, m);
    RunStopsAtPrefix(statements, i + 1, m);
  }

  /** Every failure of a mapping names the first failing statement. */
  lemma {:induction false} RunFailureIndex(statements: seq<Statement>, m: Fields) returns (i: nat)
    requires Run(statements, m).result.Err?
    ensures i < |statements| && Run(statements[..i], m).result.Ok?
    ensures Step(statements[i], Run(statements[..i], m).fields).result.Err?
    ensures Run(statements, m).result.error
      == WrapError(i, Step(statements[i], Run(statements[..i], m).fields).result.error)
    decreases |statements|
  {
    var n := |statements| - 1;
    if Run(statements[..n], m).result.Err? {
      i := RunFailureIndex(statements[..n], m);
      assert statements[..n][..i] == statements[..i] && statements[..n][i] == statements[i];
    } else {
      i := n;
    }
  }

  /** Effects `a` and `b` agree except for error indices, and `a` logged `log`
      before what `b` logged. */
  ghost predicate Agree(a: Effect, b: Effect, log: seq<LogLine>) {
    (a.result.Ok? <==> b.result.Ok?) && a.fields == b.fields && a.logged == log + b.logged
  }

  lemma ExtendAgree(a: Effect, b: Effect, log: seq<LogLine>, i: nat, j: nat, s: Statement)
    requires Agree(a, b, log)
    ensures Agree(Extend(a, i, s), Extend(b, j, s), log)
  {
    if a.result.Ok? {
      var e := Step(s, a.fields);
      assert (log + b.logged) + e.logged == log + (b.logged + e.logged);
    }
  }

  /** Executing a mapping is the left-to-right composition of its parts:
      once a first part has succeeded, the rest runs on the fields it left,
      and the log is the first part's lines followed by the rest's. */
  lemma {:induction false} RunAppend(first: seq<Statement>, second: seq<Statement>, m: Fields)
    requires Run(first, m).result.Ok?
    ensures Run(first + second, m).result.Ok? <==> Run(second, Run(first, m).fields).result.Ok?
    ensures Run(first + second, m).fields == Run(second, Run(first, m).fields).fields
    ensures Run(first + second, m).logged == Run(first, m).logged + Run(second, Run(first, m).fields).logged
    decreases |second|
  {
    var start := Run(first, m).fields;
    if second == [] {
      assert first + second == first;
      assert Run(first, m).logged + [] == Run(first, m).logged;
    } else {
      var n := |second| - 1;
      assert first + second == (first + second[..n]) + [second[n]];
      assert second == second[..n] + [second[n]];
      RunAppend(first, second[..n], m);
      RunSnoc(first + second[..n], second[n], m);
      RunSnoc(second[..n], second[n], start);
      ExtendAgree(Run(first + second[..n], m), Run(second[..n], start), Run(first, m).logged, |first| + n, n, second[n]);
    }
  }
}
