/**
 * The statement-execution engine: a mapping is an ordered list of statements
 * applied one after another to one event. Each statement kind is a variant
 * of `Statement`; `Step` says what applying one does, `Run` what executing a
 * whole mapping does, and the methods `Statement.Apply` and
 * `Mapping.Execute` do it to an `Event` in place and are proved to match.
 */
module Mapping {
  import opened Wrappers
  import opened Events
  import opened Merge
  import opened LogLevels

  /** What an expression yields: a concrete value, or something that cannot
      be materialized as one. */
  datatype QueryValue = Concrete(value: Value) | NonValue

  /** An expression of the query language, evaluated against the fields of
      the event; its evaluation is not part of this model. */
  type Query = Fields -> Result<QueryValue>

  datatype Statement =
    | Assignment(path: Path, query: Query)
    | Deletion(paths: seq<Path>)
    | OnlyFields(keep: seq<Path>)
    | IfStatement(condition: Query, whenTrue: Statement, whenFalse: Statement)
    | Noop
    | MergeFn(to: Path, from: Query, deep: Option<Query>)
    | LogFn(msg: Query, level: Option<LogLevel>)
  {
    /** Applies this statement to `event` in place, emitting log lines to
        `sink`; does what `Step` says. */
    method Apply(event: Event, sink: Sink) returns (r: Result<()>)
      modifies event, sink
      decreases this, 1
      ensures r == Step(this, old(event.fields)).result
      ensures event.fields == Step(this, old(event.fields)).fields
      ensures sink.lines == old(sink.lines) + Step(this, old(event.fields)).logged
    {
      match this
      case Assignment(path, query) =>
        r := ApplyAssignment(path, query, event);
      case Deletion(paths) =>
        ApplyDeletion(paths, event);
        r := Ok(());
      case OnlyFields(keep) =>
        ApplyOnlyFields(keep, event);
        r := Ok(());
      case IfStatement(condition, whenTrue, whenFalse) =>
        r := ApplyIf(condition, whenTrue, whenFalse, event, sink);
      case Noop =>
        r := Ok(());
      case MergeFn(to, from, deep) =>
        r := ApplyMerge(to, from, deep, event);
      case LogFn(msg, level) =>
        r := ApplyLog(msg, level, event, sink);
    }
  }

  method ApplyAssignment(path: Path, query: Query, event: Event) returns (r: Result<()>)
    modifies event
    ensures r == Step(Assignment(path, query), old(event.fields)).result
    ensures event.fields == Step(Assignment(path, query), old(event.fields)).fields
  {
    match query(event.fields) {
      case Err(e) =>
        r := Err(e);
      case Ok(Concrete(v)) =>
        event.Insert(path, v);
        r := Ok(());
      case Ok(NonValue) =>
        r := Err(AssignNonValue);
    }
  }

  /** Removes each path in turn, without pruning. */
  method ApplyDeletion(paths: seq<Path>, event: Event)
    modifies event
    ensures event.fields == Step(Deletion(paths), old(event.fields)).fields
  {
    for i := 0 to |paths|
      invariant event.fields == RemoveAll(old(event.fields), paths[..i])
    {
      assert paths[..i + 1][..i] == paths[..i];
      event.Remove(paths[i], false);
    }
    assert paths[..|paths|] == paths;
  }

  /** Collects the leaf paths no keep-path covers, then removes each with
      pruning. */
  method ApplyOnlyFields(keep: seq<Path>, event: Event)
    modifies event
    ensures event.fields == Step(OnlyFields(keep), old(event.fields)).fields
  {
    ghost var m0 := event.fields;
    var all := event.Keys();
    var keys := set k | k in all && !Covered(k, keep);
    ghost var removed: set<Path> := {};
    forall k: Path ensures k in LeafPaths(m0) <==> IsLeaf(m0, k) {
      LeafPathsExact(m0, k);
    }
    assert all == LeafPaths(m0);
    while keys != {}
      invariant keys !! removed && keys + removed == Uncovered(m0, keep)
      invariant forall q: Path :: IsLeaf(event.fields, q) <==> IsLeaf(m0, q) && q !in removed
      invariant forall q: Path :: IsLeaf(m0, q) && q !in removed ==> Get(event.fields, q) == Get(m0, q)
      decreases keys
    {
      var k :| k in keys;
      ghost var cur := event.fields;
      forall q: Path
        ensures IsLeaf(Removed(cur, k, true), q) <==> IsLeaf(cur, q) && q != k
        ensures IsLeaf(cur, q) && q != k ==> Get(Removed(cur, k, true), q) == Get(cur, q)
      {
        RemoveLeafCompact(cur, k, q);
      }
      event.Remove(k, true);
      keys := keys - {k};
      removed := removed + {k};
    }
    forall q: Path
      ensures IsLeaf(Project(m0, keep), q) <==> IsLeaf(m0, q) && q !in removed
      ensures IsLeaf(m0, q) && q !in removed ==> Get(Project(m0, keep), q) == Get(m0, q)
    {
      RemoveEachLeaves(m0, Uncovered(m0, keep), q);
    }
    LeavesDetermine(event.fields, Project(m0, keep));
  }

  method ApplyIf(condition: Query, whenTrue: Statement, whenFalse: Statement, event: Event, sink: Sink)
    returns (r: Result<()>)
    modifies event, sink
    decreases IfStatement(condition, whenTrue, whenFalse), 0
    ensures r == Step(IfStatement(condition, whenTrue, whenFalse), old(event.fields)).result
    ensures event.fields == Step(IfStatement(condition, whenTrue, whenFalse), old(event.fields)).fields
    ensures sink.lines == old(sink.lines) + Step(IfStatement(condition, whenTrue, whenFalse), old(event.fields)).logged
  {
    match condition(event.fields) {
      case Err(e) =>
        r := Err(e);
      case Ok(Concrete(Boolean(true))) =>
        r := whenTrue.Apply(event, sink);
      case Ok(Concrete(Boolean(false))) =>
        r := whenFalse.Apply(event, sink);
      case Ok(_) =>
        r := Err(NonBoolean);
    }
  }

  /** Evaluates the source, then the `deep` flag, then looks up the
      destination, and merges the source map into the destination map. */
  method ApplyMerge(to: Path, from: Query, deep: Option<Query>, event: Event) returns (r: Result<()>)
    modifies event
    ensures r == Step(MergeFn(to, from, deep), old(event.fields)).result
    ensures event.fields == Step(MergeFn(to, from, deep), old(event.fields)).fields
  {
    var fromValue := from(event.fields);
    if fromValue.Err? {
      return Err(fromValue.error);
    }
    var d := false;
    if deep.Some? {
      match deep.value(event.fields) {
        case Err(e) =>
          return Err(e);
        case Ok(Concrete(Boolean(b))) =>
          d := b;
        case Ok(_) =>
          return Err(DeepNonBoolean);
      }
    }
    var toValue := event.GetMut(to);
    if toValue.None? {
      return Err(NotFound(to));
    }
    if toValue.value.Map? && fromValue.value.Concrete? && fromValue.value.value.Map? {
      var merged := MergeMaps(toValue.value.fields, fromValue.value.value.fields, d);
      event.Insert(to, Map(merged));
      r := Ok(());
    } else {
      r := Err(MergeNonMap);
    }
  }

  /** Evaluates the message and emits it at the statement's level, `info`
      when none is given. */
  method ApplyLog(msg: Query, level: Option<LogLevel>, event: Event, sink: Sink) returns (r: Result<()>)
    modifies sink
    ensures r == Step(LogFn(msg, level), event.fields).result
    ensures sink.lines == old(sink.lines) + Step(LogFn(msg, level), event.fields).logged
  {
    match msg(event.fields) {
      case Err(e) =>
        r := Err(e);
      case Ok(Concrete(v)) =>
        sink.Emit(level.GetOr(Info), v);
        r := Ok(());
      case Ok(NonValue) =>
        r := Err(LogNonValue);
    }
  }

  /** A compiled mapping program: its statements, in program order. */
  datatype Mapping = Mapping(statements: seq<Statement>)
  {
    /** Applies the statements in order to `event`, stopping at the first
        failure and reporting it with the statement's index; effects of the
        statements already applied stay in place. */
    method Execute(event: Event, sink: Sink) returns (r: Result<()>)
      modifies event, sink
      ensures r == Run(statements, old(event.fields)).result
      ensures event.fields == Run(statements, old(event.fields)).fields
      ensures sink.lines == old(sink.lines) + Run(statements, old(event.fields)).logged
    {
      ghost var m0, log0 := event.fields, sink.lines;
      var i := 0;
      while i < |statements|
        invariant 0 <= i <= |statements|
        invariant Run(statements[..i], m0).result.Ok?
        invariant event.fields == Run(statements[..i], m0).fields
        invariant sink.lines == log0 + Run(statements[..i], m0).logged
      {
        ghost var before := Run(statements[..i], m0);
        var res := statements[i].Apply(event, sink);
        ghost var e := Step(statements[i], before.fields);
        RunPrefixStep(statements, i, m0);
        assert (log0 + before.logged) + e.logged == log0 + (before.logged + e.logged);
        if res.Err? {
          RunStopsAtPrefix(statements, i + 1, m0);
          return Err(WrapError(i, res.error));
        }
        i := i + 1;
      }
      assert statements[..i] == statements;
      r := Ok(());
    }
  }

  /** The process-wide diagnostic sink: the lines emitted so far. */
  class Sink {
    var lines: seq<LogLine>

    constructor ()
      ensures lines == []
    {
      lines := [];
    }

    method Emit(level: LogLevel, message: Value)
      modifies this
      ensures lines == old(lines) + [LogLine(level, message)]
    {
      lines := lines + [LogLine(level, message)];
    }
  }

  /** One line given to the diagnostic sink. The rendering of the message as
      text is not modelled; the line carries the logged value. */
  datatype LogLine = LogLine(level: LogLevel, message: Value)

  /** The outcome of applying statements: the result, the fields afterwards,
      and the lines emitted to the diagnostic sink, in order. */
  datatype Effect = Effect(result: Result<()>, fields: Fields, logged: seq<LogLine>)

  //----------------------------------------------------------------------------
  // Specification

  /** Keep-path `p` covers path `k` when `k` is `p` or lies below it. */
  predicate Covered(k: Path, keep: seq<Path>) {
    exists i :: 0 <= i < |keep| && keep[i] <= k
  }

  /** The removals a deletion performs, in order, without pruning. */
  function RemoveAll(m: Fields, paths: seq<Path>): Fields
    decreases |paths|
  {
    if paths == [] then m
    else Removed(RemoveAll(m, paths[..|paths| - 1]), paths[|paths| - 1], false)
  }

  /** The leaves a projection removes: those no keep-path covers. */
  function Uncovered(m: Fields, keep: seq<Path>): set<Path> {
    set k | k in LeafPaths(m) && !Covered(k, keep)
  }

  /** The projection: every uncovered leaf removed, with pruning. */
  ghost function Project(m: Fields, keep: seq<Path>): Fields {
    RemoveEach(m, Uncovered(m, keep))
  }

  /** Decimal rendering of a natural number. */
  function NatToString(n: nat): string
    decreases n
  {
    if n < 10 then ["0123456789"[n]] else NatToString(n / 10) + ["0123456789"[n % 10]]
  }

  /** The rendering of a path in messages: its segments joined by dots. */
  function PathToString(p: seq<string>): string
    decreases |p|
  {
    if |p| == 0 then ""
    else if |p| == 1 then p[0]
    else p[0] + "." + PathToString(p[1..])
  }

  /** The error `Execute` returns when statement `i` fails with `e`. */
  function WrapError(i: nat, e: string): string {
    "failed to apply mapping " + NatToString(i) + ": " + e
  }

  const AssignNonValue := "assignment must be from a value"
  const NonBoolean := "query returned non-boolean value"
  const DeepNonBoolean := "deep parameter passed to merge is a non-boolean value"
  const MergeNonMap := "parameters passed to merge are non-map values"
  const LogNonValue := "Can only log Value parameters"

  function NotFound(to: Path): string {
    "parameter " + PathToString(to) + " passed to merge is not found"
  }

  /** The `deep` flag of a merge: false when absent, else the boolean the
      expression yields. */
  function DeepFlag(deep: Option<Query>, m: Fields): Result<bool> {
    match deep
    case None => Ok(false)
    case Some(q) =>
      match q(m)
      case Err(e) => Err(e)
      case Ok(Concrete(Boolean(b))) => Ok(b)
      case Ok(_) => Err(DeepNonBoolean)
  }

  /** Applying one statement to fields `m`. */
  ghost function Step(s: Statement, m: Fields): Effect
    decreases s
  {
    match s
    case Assignment(path, query) =>
      (match query(m)
       case Err(e) => Effect(Err(e), m, [])
       case Ok(Concrete(v)) => Effect(Ok(()), Inserted(m, path, v), [])
       case Ok(NonValue) => Effect(Err(AssignNonValue), m, []))
    case Deletion(paths) => Effect(Ok(()), RemoveAll(m, paths), [])
    case OnlyFields(keep) => Effect(Ok(()), Project(m, keep), [])
    case IfStatement(condition, whenTrue, whenFalse) =>
      (match condition(m)
       case Err(e) => Effect(Err(e), m, [])
       case Ok(Concrete(Boolean(true))) => Step(whenTrue, m)
       case Ok(Concrete(Boolean(false))) => Step(whenFalse, m)
       case Ok(_) => Effect(Err(NonBoolean), m, []))
    case Noop => Effect(Ok(()), m, [])
    case MergeFn(to, from, deep) =>
      (match from(m)
       case Err(e) => Effect(Err(e), m, [])
       case Ok(fromValue) =>
         match DeepFlag(deep, m)
         case Err(e) => Effect(Err(e), m, [])
         case Ok(d) =>
           match Get(m, to)
           case None => Effect(Err(NotFound(to)), m, [])
           case Some(toValue) =>
             if toValue.Map? && fromValue.Concrete? && fromValue.value.Map? then
               Effect(Ok(()), Inserted(m, to, Map(Merged(toValue.fields, fromValue.value.fields, d))), [])
             else Effect(Err(MergeNonMap), m, []))
    case LogFn(msg, level) =>
      (match msg(m)
       case Err(e) => Effect(Err(e), m, [])
       case Ok(Concrete(v)) => Effect(Ok(()), m, [LogLine(level.GetOr(Info), v)])
       case Ok(NonValue) => Effect(Err(LogNonValue), m, []))
  }

  /** Executing statements in order from fields `m`, stopping at the first
      failure, whose message is wrapped with the statement's index. */
  ghost function Run(statements: seq<Statement>, m: Fields): Effect
    decreases |statements|
  {
    if statements == [] then Effect(Ok(()), m, [])
    else
      var i := |statements| - 1;
      Extend(Run(statements[..i], m), i, statements[i])
  }

  /** Runs statement `s`, at index `i`, after statements that had effect
      `before`; does nothing once an earlier statement has failed. */
  ghost function Extend(before: Effect, i: nat, s: Statement): Effect {
    if before.result.Err? then before
    else
      var e := Step(s, before.fields);
      Effect(if e.result.Err? then Err(WrapError(i, e.result.error)) else Ok(()),
             e.fields, before.logged + e.logged)
  }

  lemma RunSnoc(statements: seq<Statement>, s: Statement, m: Fields)
    ensures Run(statements + [s], m) == Extend(Run(statements, m), |statements|, s)
  {
    assert (statements + [s])[..|statements|] == statements;
  }

  lemma RunPrefixStep(statements: seq<Statement>, i: nat, m: Fields)
    requires i < |statements|
    ensures Run(statements[..i + 1], m) == Extend(Run(statements[..i], m), i, statements[i])
  {
    assert statements[..i + 1] == statements[..i] + [statements[i]];
    RunSnoc(statements[..i], statements[i], m);
  }

  lemma RunStopsAtPrefix(statements: seq<Statement>, i: nat, m: Fields)
    requires i <= |statements| && Run(statements[..i], m).result.Err?
    ensures Run(statements, m) == Run(statements[..i], m)
  {
    RunStopsAtError(statements[..i], statements[i..], m);
    assert statements[..i] + statements[i..] == statements;
  }

  /** Once a run has failed, further statements change nothing. */
  lemma {:induction false} RunStopsAtError(statements: seq<Statement>, rest: seq<Statement>, m: Fields)
    requires Run(statements, m).result.Err?
    ensures Run(statements + rest, m) == Run(statements, m)
    decreases |rest|
  {
    if rest != [] {
      var n := |rest| - 1;
      assert statements + rest == (statements + rest[..n]) + [rest[n]];
      RunStopsAtError(statements, rest[..n], m);
      RunSnoc(statements + rest[..n], rest[n], m);
    } else {
      assert statements + rest == statements;
    }
  }
}
