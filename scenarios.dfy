/**
 * The cases of the engine's own unit tests (`check_mapping` and
 * `check_merge`), stated as facts about `Run`. Expressions are stand-ins
 * written as functions: a literal, a read of a top-level field, and an
 * equality test between a field and a literal.
 */
module MappingScenarios {
  import opened Wrappers
  import opened Events
  import opened Merge
  import opened Mapping
  import opened MappingProperties

  function Literal(v: Value): Query {
    (m: Fields) => Ok(Concrete(v))
  }

  /** Reads a top-level field; the scenarios only read fields that exist. */
  function Field(name: string): Query {
    (m: Fields) => if name in m then Ok(Concrete(m[name])) else Err("field not found")
  }

  function FieldEquals(name: string, v: Value): Query {
    (m: Fields) => Ok(Concrete(Boolean(name in m && m[name] == v)))
  }

  function Text(s: string): Value {
    Other(s)
  }

  /** `if .bar == "baz" { .foo = "bar is baz" } else { del(.bar) }` */
  function BarIsBaz(): Statement {
    IfStatement(FieldEquals("bar", Text("baz")),
                Assignment(["foo"], Literal(Text("bar is baz"))),
                Deletion([["bar"]]))
  }

  lemma RunSingle(s: Statement, m: Fields)
    ensures Run([s], m) == Extend(Effect(Ok(()), m, []), 0, s)
  {
    assert [s][..0] == [];
  }

  lemma WrapFirst(e: string)
    ensures WrapError(0, e) == "failed to apply mapping 0: " + e
  {
    assert NatToString(0) == "0";
  }

  lemma AssignField()
    ensures Run([Assignment(["foo"], Literal(Text("bar")))], map["message" := Text("foo body")])
      == Effect(Ok(()), map["message" := Text("foo body"), "foo" := Text("bar")], [])
  {
    RunSingle(Assignment(["foo"], Literal(Text("bar"))), map["message" := Text("foo body")]);
  }

  /** The path `foo bar\.baz.buz` has two segments, `foo bar.baz` and `buz`
      (the escaped dot is part of the first); the assignment creates the
      missing parent map. */
  lemma AssignThroughEscapedPath()
    ensures Run([Assignment(["foo bar.baz", "buz"], Literal(Text("quack")))], map["message" := Text("foo body")])
      == Effect(Ok(()), map["message" := Text("foo body"), "foo bar.baz" := Map(map["buz" := Text("quack")])], [])
  {
    RunSingle(Assignment(["foo bar.baz", "buz"], Literal(Text("quack"))), map["message" := Text("foo body")]);
  }

  lemma DeleteField()
    ensures Run([Deletion([["foo"]])], map["message" := Text("foo body"), "foo" := Text("bar")])
      == Effect(Ok(()), map["message" := Text("foo body")], [])
  {
    var m := map["message" := Text("foo body"), "foo" := Text("bar")];
    RunSingle(Deletion([["foo"]]), m);
    assert Removed(m, ["foo"], false) == map["message" := Text("foo body")];
  }

  lemma AssignThenDelete()
    ensures var m := map["message" := Text("foo body"), "bar" := Text("baz")];
      Run([Assignment(["foo"], Literal(Text("bar"))), Deletion([["bar"]])], m)
        == Effect(Ok(()), map["message" := Text("foo body"), "foo" := Text("bar")], [])
  {
    var m := map["message" := Text("foo body"), "bar" := Text("baz")];
    var statements := [Assignment(["foo"], Literal(Text("bar"))), Deletion([["bar"]])];
    RunSingle(statements[0], m);
    RunPrefixStep(statements, 1, m);
    assert statements[..1] == [statements[0]];
    assert statements[..2] == statements;
    assert Run(statements, m).fields == map["message" := Text("foo body"), "foo" := Text("bar")];
  }

  lemma IfTakesTrueBranch()
    ensures Run([BarIsBaz()], map["message" := Text("foo body"), "bar" := Text("baz")])
      == Effect(Ok(()), map["message" := Text("foo body"), "bar" := Text("baz"), "foo" := Text("bar is baz")], [])
  {
    RunSingle(BarIsBaz(), map["message" := Text("foo body"), "bar" := Text("baz")]);
  }

  lemma IfTakesFalseBranch()
    ensures Run([BarIsBaz()], map["message" := Text("foo body"), "bar" := Text("buz")])
      == Effect(Ok(()), map["message" := Text("foo body")], [])
  {
    var m := map["message" := Text("foo body"), "bar" := Text("buz")];
    RunSingle(BarIsBaz(), m);
    assert Removed(m, ["bar"], false) == map["message" := Text("foo body")];
  }

  lemma IfOnNonBoolean()
    ensures var m := map["message" := Text("foo body"), "bar" := Text("buz")];
      var s := IfStatement(Field("bar"), Assignment(["foo"], Literal(Text("bar is baz"))), Deletion([["bar"]]));
      Run([s], m) == Effect(Err("failed to apply mapping 0: " + NonBoolean), m, [])
  {
    var m := map["message" := Text("foo body"), "bar" := Text("buz")];
    var s := IfStatement(Field("bar"), Assignment(["foo"], Literal(Text("bar is baz"))), Deletion([["bar"]]));
    assert Field("bar")(m) == Ok(Concrete(Text("buz")));
    assert Step(s, m) == Effect(Err(NonBoolean), m, []);
    RunSingle(s, m);
    WrapFirst(NonBoolean);
  }

  lemma MergeIntoNonMap()
    ensures var m := map["message" := Text(""), "foo" := Boolean(true), "bar" := Map(map["key2" := Text("val2")])];
      Run([MergeFn(["foo"], Field("bar"), None)], m)
        == Effect(Err("failed to apply mapping 0: " + MergeNonMap), m, [])
  {
    var m := map["message" := Text(""), "foo" := Boolean(true), "bar" := Map(map["key2" := Text("val2")])];
    assert Step(MergeFn(["foo"], Field("bar"), None), m) == Effect(Err(MergeNonMap), m, []);
    RunSingle(MergeFn(["foo"], Field("bar"), None), m);
    WrapFirst(MergeNonMap);
  }

  lemma MergeAddsKeys()
    ensures var m := map["foo" := Map(map["key1" := Text("val1")]), "bar" := Map(map["key2" := Text("val2")])];
      Run([MergeFn(["foo"], Field("bar"), None)], m)
        == Effect(Ok(()), map["foo" := Map(map["key1" := Text("val1"), "key2" := Text("val2")]),
                              "bar" := Map(map["key2" := Text("val2")])], [])
  {
    var m := map["foo" := Map(map["key1" := Text("val1")]), "bar" := Map(map["key2" := Text("val2")])];
    assert Field("bar")(m) == Ok(Concrete(Map(map["key2" := Text("val2")])));
    ShallowMergeIsUnion(map["key1" := Text("val1")], map["key2" := Text("val2")]);
    assert map["key1" := Text("val1")] + map["key2" := Text("val2")]
      == map["key1" := Text("val1"), "key2" := Text("val2")];
    RunSingle(MergeFn(["foo"], Field("bar"), None), m);
  }

  function Parent1(): Value {
    Map(map["key1" := Text("val1"), "child" := Map(map["grandchild1" := Text("val1")])])
  }

  function Parent2(): Value {
    Map(map["key2" := Text("val2"), "child" := Map(map["grandchild2" := Text("val2")])])
  }

  lemma ShallowMergeReplacesChild()
    ensures Run([MergeFn(["parent1"], Field("parent2"), None)], map["parent1" := Parent1(), "parent2" := Parent2()])
      == Effect(Ok(()), map["parent1" := Map(map["key1" := Text("val1"), "key2" := Text("val2"),
                                                 "child" := Map(map["grandchild2" := Text("val2")])]),
                            "parent2" := Parent2()], [])
  {
    var m := map["parent1" := Parent1(), "parent2" := Parent2()];
    assert Field("parent2")(m) == Ok(Concrete(Parent2()));
    ShallowMergeOfParents();
    RunSingle(MergeFn(["parent1"], Field("parent2"), None), m);
  }

  lemma ShallowMergeOfParents()
    ensures Merged(Parent1().fields, Parent2().fields, false)
      == map["key1" := Text("val1"), "key2" := Text("val2"), "child" := Map(map["grandchild2" := Text("val2")])]
  {
    ShallowMergeIsUnion(Parent1().fields, Parent2().fields);
  }

  lemma DeepMergeMergesChild()
    ensures Run([MergeFn(["parent1"], Field("parent2"), Some(Literal(Boolean(true))))], map["parent1" := Parent1(), "parent2" := Parent2()])
      == Effect(Ok(()), map["parent1" := Map(map["key1" := Text("val1"), "key2" := Text("val2"),
                                                 "child" := Map(map["grandchild1" := Text("val1"), "grandchild2" := Text("val2")])]),
                            "parent2" := Parent2()], [])
  {
    var m := map["parent1" := Parent1(), "parent2" := Parent2()];
    RunSingle(MergeFn(["parent1"], Field("parent2"), Some(Literal(Boolean(true)))), m);
    DeepMergeOfParents();
  }

  lemma DeepMergeOfParents()
    ensures Merged(Parent1().fields, Parent2().fields, true)
      == map["key1" := Text("val1"), "key2" := Text("val2"),
             "child" := Map(map["grandchild1" := Text("val1"), "grandchild2" := Text("val2")])]
  {
    var child := Merged(map["grandchild1" := Text("val1")], map["grandchild2" := Text("val2")], true);
    assert child == map["grandchild1" := Text("val1"), "grandchild2" := Text("val2")];
  }

  //----------------------------------------------------------------------------
  // only_fields(.bar.baz.buz, .bev, .doesnt_exist.anyway, .nested)
  //----------------------------------------------------------------------------

  /** Leaf paths below `k`, given the leaf paths of its value. */
  function Prefixed(k: string, s: set<seq<string>>): set<Path> {
    set q | q in s :: [k] + q
  }

  lemma LeafPathsAdd(m: Fields, k: string, v: Value)
    requires k !in m
    ensures LeafPaths(m[k := v]) == LeafPaths(m) + Prefixed(k, Leaves(v))
  {
    var m' := m[k := v];
    forall x | x in LeafPaths(m')
      ensures x in LeafPaths(m) + Prefixed(k, Leaves(v))
    {
      var k', q :| k' in m' && q in Leaves(m'[k']) && x == [k'] + q;
      if k' != k {
        assert x in LeafPaths(m);
      }
    }
    forall x | x in LeafPaths(m) + Prefixed(k, Leaves(v))
      ensures x in LeafPaths(m')
    {
      if x in LeafPaths(m) {
        var k', q :| k' in m && q in Leaves(m[k']) && x == [k'] + q;
        assert k' in m' && m'[k'] == m[k'];
      } else {
        var q :| q in Leaves(v) && x == [k] + q;
        assert k in m' && m'[k] == v;
      }
    }
  }

  lemma PrefixedLeaf(k: string, v: Value)
    requires IsLeafValue(v)
    ensures Prefixed(k, Leaves(v)) == {[k]}
  {
    assert [k] + [] == [k];
  }

  lemma PrefixedOne(k: string, a: seq<string>)
    ensures Prefixed(k, {a}) == {[k] + a}
  {
  }

  lemma PrefixedTwo(k: string, a: seq<string>, b: seq<string>)
    ensures Prefixed(k, {a, b}) == {[k] + a, [k] + b}
  {
  }

  /** Adding a key holding a leaf value adds one leaf path. */
  lemma AddLeaf(m: Fields, k: string, v: Value)
    requires k !in m && IsLeafValue(v)
    ensures LeafPaths(m[k := v]) == LeafPaths(m) + {[k]}
  {
    LeafPathsAdd(m, k, v);
    PrefixedLeaf(k, v);
  }

  /** Adding a key holding a non-empty map prefixes that map's leaves. */
  lemma AddMap(m: Fields, k: string, f: Fields)
    requires k !in m && f != map[]
    ensures LeafPaths(m[k := Map(f)]) == LeafPaths(m) + Prefixed(k, LeafPaths(f))
  {
    LeafPathsAdd(m, k, Map(f));
  }

  function BazFields(): Fields {
    map["buz" := Text("first"), "remove_this" := Text("second")]
  }

  function NestedFields(): Fields {
    map["stuff" := Map(map["here" := Text("fifth")]), "and_here" := Text("sixth")]
  }

  function OnlyFieldsInput(): Fields {
    map["message" := Text("foo body"),
        "bar" := Map(map["baz" := Map(BazFields())]),
        "bev" := Text("third"),
        "and" := Map(map["remove_this" := Text("fourth")]),
        "nested" := Map(NestedFields())]
  }

  function OnlyFieldsOutput(): Fields {
    map["bar" := Map(map["baz" := Map(map["buz" := Text("first")])]),
        "bev" := Text("third"),
        "nested" := Map(NestedFields())]
  }

  function Keep(): seq<Path> {
    [["bar", "baz", "buz"], ["bev"], ["doesnt_exist", "anyway"], ["nested"]]
  }

  lemma SingleLeaf(k: string, v: Value)
    requires IsLeafValue(v)
    ensures LeafPaths(map[k := v]) == {[k]}
  {
    AddLeaf(map[], k, v);
  }

  lemma NestedLeaves()
    ensures LeafPaths(NestedFields()) == {["stuff", "here"], ["and_here"]}
  {
    SingleLeaf("here", Text("fifth"));
    AddMap(map[], "stuff", map["here" := Text("fifth")]);
    PrefixedOne("stuff", ["here"]);
    assert ["stuff"] + ["here"] == ["stuff", "here"];
    AddLeaf(map["stuff" := Map(map["here" := Text("fifth")])], "and_here", Text("sixth"));
  }

  lemma BazLeaves()
    ensures LeafPaths(BazFields()) == {["buz"], ["remove_this"]}
  {
    SingleLeaf("buz", Text("first"));
    AddLeaf(map["buz" := Text("first")], "remove_this", Text("second"));
  }

  lemma BarLeaves()
    ensures LeafPaths(map["baz" := Map(BazFields())]) == {["baz", "buz"], ["baz", "remove_this"]}
  {
    BazLeaves();
    AddMap(map[], "baz", BazFields());
    PrefixedTwo("baz", ["buz"], ["remove_this"]);
    assert ["baz"] + ["buz"] == ["baz", "buz"];
    assert ["baz"] + ["remove_this"] == ["baz", "remove_this"];
  }

  lemma AndLeaves()
    ensures LeafPaths(map["remove_this" := Text("fourth")]) == {["remove_this"]}
  {
    SingleLeaf("remove_this", Text("fourth"));
  }

  lemma InputBarLeaves()
    ensures LeafPaths(map["message" := Text("foo body"), "bar" := Map(map["baz" := Map(BazFields())])])
      == {["message"], ["bar", "baz", "buz"], ["bar", "baz", "remove_this"]}
  {
    SingleLeaf("message", Text("foo body"));
    assert Prefixed("bar", LeafPaths(map["baz" := Map(BazFields())]))
      == {["bar", "baz", "buz"], ["bar", "baz", "remove_this"]} by {
      BarLeaves();
      PrefixedTwo("bar", ["baz", "buz"], ["baz", "remove_this"]);
      assert ["bar"] + ["baz", "buz"] == ["bar", "baz", "buz"];
      assert ["bar"] + ["baz", "remove_this"] == ["bar", "baz", "remove_this"];
    }
    AddMap(map["message" := Text("foo body")], "bar", map["baz" := Map(BazFields())]);
  }

  lemma InputAndLeaves()
    ensures LeafPaths(map["message" := Text("foo body"), "bar" := Map(map["baz" := Map(BazFields())]),
                          "bev" := Text("third"), "and" := Map(map["remove_this" := Text("fourth")])])
      == {["message"], ["bar", "baz", "buz"], ["bar", "baz", "remove_this"], ["bev"], ["and", "remove_this"]}
  {
    var m2 := map["message" := Text("foo body"), "bar" := Map(map["baz" := Map(BazFields())])];
    var m3 := m2["bev" := Text("third")];
    assert LeafPaths(m3) == {["message"], ["bar", "baz", "buz"], ["bar", "baz", "remove_this"], ["bev"]} by {
      InputBarLeaves();
      AddLeaf(m2, "bev", Text("third"));
    }
    assert Prefixed("and", LeafPaths(map["remove_this" := Text("fourth")])) == {["and", "remove_this"]} by {
      AndLeaves();
      PrefixedOne("and", ["remove_this"]);
      assert ["and"] + ["remove_this"] == ["and", "remove_this"];
    }
    AddMap(m3, "and", map["remove_this" := Text("fourth")]);
  }

  function InputLeafSet(): set<Path> {
    {["message"], ["bar", "baz", "buz"], ["bar", "baz", "remove_this"], ["bev"],
     ["and", "remove_this"], ["nested", "stuff", "here"], ["nested", "and_here"]}
  }

  function OutputLeafSet(): set<Path> {
    {["bar", "baz", "buz"], ["bev"], ["nested", "stuff", "here"], ["nested", "and_here"]}
  }

  lemma InputLeaves()
    ensures LeafPaths(OnlyFieldsInput()) == InputLeafSet()
  {
    var m4 := map["message" := Text("foo body"), "bar" := Map(map["baz" := Map(BazFields())]),
                  "bev" := Text("third"), "and" := Map(map["remove_this" := Text("fourth")])];
    assert OnlyFieldsInput() == m4["nested" := Map(NestedFields())];
    var before := {["message"], ["bar", "baz", "buz"], ["bar", "baz", "remove_this"], ["bev"], ["and", "remove_this"]};
    var below := {["nested", "stuff", "here"], ["nested", "and_here"]};
    assert LeafPaths(m4) == before by {
      InputAndLeaves();
    }
    assert Prefixed("nested", LeafPaths(NestedFields())) == below by {
      NestedPrefixed();
    }
    assert LeafPaths(m4["nested" := Map(NestedFields())]) == before + below by {
      AddMap(m4, "nested", NestedFields());
    }
    assert before + below == InputLeafSet();
  }

  lemma NestedPrefixed()
    ensures Prefixed("nested", LeafPaths(NestedFields())) == {["nested", "stuff", "here"], ["nested", "and_here"]}
  {
    NestedLeaves();
    PrefixedTwo("nested", ["stuff", "here"], ["and_here"]);
    assert ["nested"] + ["stuff", "here"] == ["nested", "stuff", "here"];
    assert ["nested"] + ["and_here"] == ["nested", "and_here"];
  }

  lemma OutputBevLeaves()
    ensures LeafPaths(map["bar" := Map(map["baz" := Map(map["buz" := Text("first")])]), "bev" := Text("third")])
      == {["bar", "baz", "buz"], ["bev"]}
  {
    var baz := map["buz" := Text("first")];
    var bar := map["baz" := Map(baz)];
    assert LeafPaths(bar) == {["baz", "buz"]} by {
      SingleLeaf("buz", Text("first"));
      AddMap(map[], "baz", baz);
      PrefixedOne("baz", ["buz"]);
      assert ["baz"] + ["buz"] == ["baz", "buz"];
    }
    assert LeafPaths(map["bar" := Map(bar)]) == {["bar", "baz", "buz"]} by {
      AddMap(map[], "bar", bar);
      PrefixedOne("bar", ["baz", "buz"]);
      assert ["bar"] + ["baz", "buz"] == ["bar", "baz", "buz"];
    }
    AddLeaf(map["bar" := Map(bar)], "bev", Text("third"));
  }

  lemma OutputLeaves()
    ensures LeafPaths(OnlyFieldsOutput()) == OutputLeafSet()
  {
    var m2 := map["bar" := Map(map["baz" := Map(map["buz" := Text("first")])]), "bev" := Text("third")];
    OutputBevLeaves();
    NestedPrefixed();
    AddMap(m2, "nested", NestedFields());
  }

  lemma NotCovered(q: Path)
    requires q == ["message"] || q == ["bar", "baz", "remove_this"] || q == ["and", "remove_this"]
    ensures !Covered(q, Keep())
  {
    var keep := Keep();
    var j := if q == ["bar", "baz", "remove_this"] then 2 else 0;
    assert keep[0][j] != q[j] by {
      assert keep[0][j][0] != q[j][0];
    }
    assert keep[1][0] != q[0] by {
      assert keep[1][0][0] != q[0][0] || keep[1][0][1] != q[0][1];
    }
    assert keep[2][0] != q[0];
    assert keep[3][0] != q[0];
  }

  /** The leaves kept are exactly those with a keep-path as prefix. */
  lemma KeptLeaves(q: Path)
    ensures q in InputLeafSet() && Covered(q, Keep()) <==> q in OutputLeafSet()
  {
    var keep := Keep();
    if q == ["bar", "baz", "buz"] {
      assert keep[0] <= q;
    } else if q == ["bev"] {
      assert keep[1] <= q;
    } else if q == ["nested", "stuff", "here"] || q == ["nested", "and_here"] {
      assert keep[3] <= q;
    } else if q == ["message"] || q == ["bar", "baz", "remove_this"] || q == ["and", "remove_this"] {
      NotCovered(q);
    }
  }

  /** The record `out` is what only_fields leaves of `m` when its leaves are
      the covered leaves of `m`, holding the same values. */
  lemma ProjectionIs(keep: seq<Path>, m: Fields, out: Fields)
    requires forall q: Path {:trigger IsLeaf(out, q)} ::
      (IsLeaf(m, q) && Covered(q, keep) <==> IsLeaf(out, q))
    requires forall q: Path {:trigger IsLeaf(out, q)} :: IsLeaf(out, q) ==> Get(m, q) == Get(out, q)
    ensures Step(OnlyFields(keep), m).fields == out
  {
    var r := Step(OnlyFields(keep), m).fields;
    forall q: Path
      ensures (IsLeaf(r, q) <==> IsLeaf(out, q)) && (IsLeaf(r, q) ==> Get(r, q) == Get(out, q))
    {
      OnlyFieldsProjects(keep, m, q);
    }
    LeavesDetermine(r, out);
  }

  lemma KeptValues(q: Path)
    requires q in OutputLeafSet()
    ensures Get(OnlyFieldsInput(), q) == Get(OnlyFieldsOutput(), q)
  {
  }

  lemma OnlyFieldsKeepsCovered()
    ensures Run([OnlyFields(Keep())], OnlyFieldsInput()) == Effect(Ok(()), OnlyFieldsOutput(), [])
  {
    var m := OnlyFieldsInput();
    var out := OnlyFieldsOutput();
    forall q: Path
      ensures IsLeaf(m, q) && Covered(q, Keep()) <==> IsLeaf(out, q)
      ensures IsLeaf(out, q) ==> Get(m, q) == Get(out, q)
    {
      LeafPathsExact(m, q);
      LeafPathsExact(out, q);
      InputLeaves();
      OutputLeaves();
      KeptLeaves(q);
      if q in OutputLeafSet() {
        KeptValues(q);
      }
    }
    ProjectionIs(Keep(), m, out);
    RunSingle(OnlyFields(Keep()), m);
  }
}
