/**
 * The record the mapping engine transforms: a log event whose fields form a
 * tree of string-keyed maps with opaque leaves, addressed by paths of field
 * names. Only the capabilities the engine uses are modelled (get, insert,
 * remove with or without pruning of emptied ancestors, and the recursive
 * enumeration of leaf paths), each as a function on the field map.
 */
module Events {
  import opened Wrappers

  /** Only booleans and maps are inspected by the engine; every other kind
      (bytes, integers, timestamps, arrays, ...) is an opaque `Other` leaf. */
  datatype Value = Boolean(b: bool) | Map(fields: map<string, Value>) | Other(payload: string)

  /** The top-level fields of an event. */
  type Fields = map<string, Value>

  /** A field locator: a non-empty sequence of field names. */
  type Path = p: seq<string> | |p| > 0 witness ["message"]

  /** A leaf is a value the enumeration does not descend into: anything but a
      non-empty map. */
  predicate IsLeafValue(v: Value) {
    !v.Map? || v.fields == map[]
  }

  /** The value stored at `p`, if every step of `p` exists. */
  function Get(m: Fields, p: Path): Option<Value>
    decreases |p|
  {
    if p[0] !in m then None
    else if |p| == 1 then Some(m[p[0]])
    else match m[p[0]]
      case Map(child) => Get(child, p[1..])
      case _ => None
  }

  /** Writes `v` at `p`, creating missing intermediate maps and replacing an
      intermediate that is not a map by a map. */
  function Inserted(m: Fields, p: Path, v: Value): Fields
    decreases |p|
  {
    if |p| == 1 then m[p[0] := v]
    else
      var child := if p[0] in m && m[p[0]].Map? then m[p[0]].fields else map[];
      m[p[0] := Map(Inserted(child, p[1..], v))]
  }

  /** Removes the node at `p` if it exists. With `compact`, an ancestor map
      that this removal leaves empty is removed as well. */
  function Removed(m: Fields, p: Path, compact: bool): Fields
    decreases |p|
  {
    if p[0] !in m then m
    else if |p| == 1 then m - {p[0]}
    else match m[p[0]]
      case Map(child) =>
        if Get(child, p[1..]).None? then m
        else
          var c := Removed(child, p[1..], compact);
          if compact && c == map[] then m - {p[0]} else m[p[0] := Map(c)]
      case _ => m
  }

  /** `p` addresses a leaf of `m`. */
  predicate IsLeaf(m: Fields, p: Path) {
    Get(m, p).Some? && IsLeafValue(Get(m, p).value)
  }

  /** The recursive key enumeration: every leaf path of `m`. */
  function LeafPaths(m: Fields): set<Path>
    decreases Map(m), 0
  {
    set k, q | k in m && q in Leaves(m[k]) :: [k] + q
  }

  /** Leaf paths below `v`, relative to `v`; `[]` when `v` is itself a leaf. */
  function Leaves(v: Value): set<seq<string>>
    decreases v, 1
  {
    if IsLeafValue(v) then {[]} else LeafPaths(v.fields)
  }

  /** Two field maps agree on which paths are leaves and on the leaf values. */
  ghost predicate SameLeaves(a: Fields, b: Fields) {
    forall p: Path {:trigger IsLeaf(a, p)} {:trigger IsLeaf(b, p)} ::
      (IsLeaf(a, p) <==> IsLeaf(b, p)) && (IsLeaf(a, p) ==> Get(a, p) == Get(b, p))
  }

  //----------------------------------------------------------------------------
  // Basic facts about paths through a map

  lemma GetCons(m: Fields, k: string, q: Path)
    requires k in m && m[k].Map?
    ensures Get(m, [k] + q) == Get(m[k].fields, q)
  {
    assert ([k] + q)[1..] == q;
  }

  lemma GetOtherHead(m: Fields, m': Fields, p: Path)
    requires p[0] in m <==> p[0] in m'
    requires p[0] in m ==> m[p[0]] == m'[p[0]]
    ensures Get(m, p) == Get(m', p)
  {
  }

  /** A value is found only through maps: every proper prefix of a path
      that is found holds a map. */
  lemma {:induction false} FoundThroughMaps(m: Fields, p: Path, j: nat)
    requires Get(m, p).Some? && 1 <= j < |p|
    ensures Get(m, p[..j]).Some? && Get(m, p[..j]).value.Map?
    decreases j
  {
    if j > 1 {
      FoundThroughMaps(m[p[0]].fields, p[1..], j - 1);
      assert p[..j][1..] == p[1..][..j - 1];
    }
  }

  /** Every entry of a map has at least one leaf at or below it. */
  lemma {:induction false} SomeLeafBelow(m: Fields, k: string) returns (p: Path)
    requires k in m
    ensures p[0] == k && IsLeaf(m, p)
    decreases m[k]
  {
    if IsLeafValue(m[k]) {
      p := [k];
    } else {
      var child := m[k].fields;
      var k' :| k' in child;
      var q := SomeLeafBelow(child, k');
      GetCons(m, k, q);
      p := [k] + q;
    }
  }

  /** The enumeration yields exactly the leaf paths. */
  lemma {:induction false} LeafPathsExact(m: Fields, p: Path)
    ensures p in LeafPaths(m) <==> IsLeaf(m, p)
    decreases |p|
  {
    var k, q := p[0], p[1..];
    assert p == [k] + q;
    if k in m {
      if IsLeafValue(m[k]) {
        assert Leaves(m[k]) == {[]};
        if |p| > 1 && m[k].Map? {
          GetCons(m, k, q);
        }
      } else if |p| > 1 {
        LeafPathsExact(m[k].fields, q);
        GetCons(m, k, q);
      }
    }
  }

  /** A field map is determined by its leaves and their values. */
  lemma {:induction false} LeavesDetermine(a: Fields, b: Fields)
    requires SameLeaves(a, b)
    ensures a == b
    decreases Map(a)
  {
    forall k | k in a ensures k in b {
      var p := SomeLeafBelow(a, k);
      assert IsLeaf(b, p);
    }
    forall k | k in b ensures k in a {
      var p := SomeLeafBelow(b, k);
      assert IsLeaf(a, p);
    }
    forall k | k in a ensures a[k] == b[k] {
      assert IsLeaf(a, [k]) <==> IsLeaf(b, [k]);
      if IsLeafValue(a[k]) {
        assert Get(a, [k]) == Get(b, [k]);
      } else {
        var ca, cb := a[k].fields, b[k].fields;
        assert b[k].Map? && cb != map[];
        forall q: Path ensures (IsLeaf(ca, q) <==> IsLeaf(cb, q)) && (IsLeaf(ca, q) ==> Get(ca, q) == Get(cb, q)) {
          GetCons(a, k, q);
          GetCons(b, k, q);
          assert IsLeaf(a, [k] + q) <==> IsLeaf(b, [k] + q);
        }
        LeavesDetermine(ca, cb);
      }
    }
  }

  //----------------------------------------------------------------------------
  // Insert

  /** After an insert, the value at the path is the inserted one. */
  lemma {:induction false} InsertThenGet(m: Fields, p: Path, v: Value)
    ensures Get(Inserted(m, p, v), p) == Some(v)
    decreases |p|
  {
    if |p| > 1 {
      var child := if p[0] in m && m[p[0]].Map? then m[p[0]].fields else map[];
      InsertThenGet(child, p[1..], v);
    }
  }

  /** An insert leaves alone every path that neither contains nor lies inside
      the written one. */
  lemma {:induction false} InsertElsewhere(m: Fields, p: Path, q: Path, v: Value)
    requires !(p <= q) && !(q <= p)
    ensures Get(Inserted(m, p, v), q) == Get(m, q)
    decreases |p|
  {
    var m' := Inserted(m, p, v);
    if p[0] != q[0] {
      GetOtherHead(m, m', q);
    } else {
      assert |p| > 1 && |q| > 1;
      var child := if p[0] in m && m[p[0]].Map? then m[p[0]].fields else map[];
      InsertElsewhere(child, p[1..], q[1..], v);
      assert p[1..] <= q[1..] ==> p <= q;
      assert q[1..] <= p[1..] ==> q <= p;
    }
  }

  //----------------------------------------------------------------------------
  // Remove

  /** Removing a path that is not there changes nothing. */
  lemma {:induction false} RemoveAbsent(m: Fields, p: Path, compact: bool)
    requires Get(m, p).None?
    ensures Removed(m, p, compact) == m
  {
  }

  /** After a removal the path is absent. */
  lemma {:induction false} RemoveThenGet(m: Fields, p: Path, compact: bool)
    ensures Get(Removed(m, p, compact), p).None?
    decreases |p|
  {
    if |p| > 1 && p[0] in m && m[p[0]].Map? && Get(m[p[0]].fields, p[1..]).Some? {
      RemoveThenGet(m[p[0]].fields, p[1..], compact);
    }
  }

  /** A removal never makes a path present. */
  lemma {:induction false} RemoveKeepsAbsent(m: Fields, p: Path, q: Path, compact: bool)
    requires Get(m, q).None?
    ensures Get(Removed(m, p, compact), q).None?
    decreases |p|
  {
    var m' := Removed(m, p, compact);
    if p[0] != q[0] {
      GetOtherHead(m, m', q);
    } else if |p| > 1 && |q| > 1 && p[0] in m && m[p[0]].Map? && Get(m[p[0]].fields, p[1..]).Some? {
      var c := Removed(m[p[0]].fields, p[1..], compact);
      if !(compact && c == map[]) {
        RemoveKeepsAbsent(m[p[0]].fields, p[1..], q[1..], compact);
      }
    }
  }

  /** Without compaction, a removal leaves alone every path that neither
      contains nor lies inside the removed one. */
  lemma {:induction false} RemoveElsewhere(m: Fields, p: Path, q: Path)
    requires !(p <= q) && !(q <= p)
    ensures Get(Removed(m, p, false), q) == Get(m, q)
    decreases |p|
  {
    var m' := Removed(m, p, false);
    if p[0] != q[0] {
      GetOtherHead(m, m', q);
    } else {
      assert |p| > 1 && |q| > 1;
      if p[0] in m && m[p[0]].Map? && Get(m[p[0]].fields, p[1..]).Some? {
        RemoveElsewhere(m[p[0]].fields, p[1..], q[1..]);
        assert p[1..] <= q[1..] ==> p <= q;
        assert q[1..] <= p[1..] ==> q <= p;
      }
    }
  }

  /** Without compaction, the ancestors of a removed path stay in place. */
  lemma {:induction false} RemoveKeepsAncestors(m: Fields, p: Path, q: Path)
    requires q < p && Get(m, q).Some?
    ensures Get(Removed(m, p, false), q).Some?
    decreases |q|
  {
    var m' := Removed(m, p, false);
    assert q[0] == p[0];
    if |q| > 1 {
      assert m[p[0]].Map?;
      assert q[1..] < p[1..];
      if Get(m[p[0]].fields, p[1..]).Some? {
        RemoveKeepsAncestors(m[p[0]].fields, p[1..], q[1..]);
      }
    }
  }

  /** Removing a leaf with compaction removes exactly that leaf: every other
      leaf keeps its value, and no new leaf appears (emptied ancestors are
      pruned instead of becoming empty-map leaves). */
  lemma {:induction false} RemoveLeafCompact(m: Fields, p: Path, q: Path)
    requires IsLeaf(m, p)
    ensures IsLeaf(Removed(m, p, true), q) <==> IsLeaf(m, q) && q != p
    ensures IsLeaf(m, q) && q != p ==> Get(Removed(m, p, true), q) == Get(m, q)
    decreases |p|
  {
    var m' := Removed(m, p, true);
    var k := p[0];
    if q[0] != k {
      GetOtherHead(m, m', q);
    } else if |p| == 1 {
      assert m' == m - {k};
      if |q| > 1 && m[k].Map? {
        assert q == [k] + q[1..];
        GetCons(m, k, q[1..]);
      }
    } else {
      var child := m[k].fields;
      var c := Removed(child, p[1..], true);
      assert child != map[] by { assert p[1..][0] in child; }
      if |q| > 1 {
        RemoveLeafCompact(child, p[1..], q[1..]);
        assert q == [k] + q[1..] && p == [k] + p[1..];
        if c == map[] {
          assert m' == m - {k};
        } else {
          assert m'[k] == Map(c);
          GetCons(m', k, q[1..]);
        }
        GetCons(m, k, q[1..]);
      }
    }
  }

  /** Removes, with compaction, every path of `s`, in no particular order. */
  ghost function RemoveEach(m: Fields, s: set<Path>): Fields
    decreases s
  {
    if s == {} then m
    else
      var p :| p in s;
      RemoveEach(Removed(m, p, true), s - {p})
  }

  /** Removing a set of leaves with compaction removes exactly those leaves. */
  lemma {:induction false} RemoveEachLeaves(m: Fields, s: set<Path>, q: Path)
    requires forall p | p in s :: IsLeaf(m, p)
    ensures IsLeaf(RemoveEach(m, s), q) <==> IsLeaf(m, q) && q !in s
    ensures IsLeaf(m, q) && q !in s ==> Get(RemoveEach(m, s), q) == Get(m, q)
    decreases s
  {
    if s != {} {
      var p :| p in s && RemoveEach(m, s) == RemoveEach(Removed(m, p, true), s - {p});
      var m1 := Removed(m, p, true);
      forall p' | p' in s - {p} ensures IsLeaf(m1, p') {
        RemoveLeafCompact(m, p, p');
      }
      RemoveEachLeaves(m1, s - {p}, q);
      RemoveLeafCompact(m, p, q);
    }
  }

  //----------------------------------------------------------------------------
  // The event object

  /** A log event whose fields the mapping mutates in place. */
  class Event {
    var fields: Fields

    constructor (fields: Fields)
      ensures this.fields == fields
    {
      this.fields := fields;
    }

    /** Mutable access to the value at `p` (read-only use here): the lookup
        walks the path one step at a time, so it finds a value only when every
        proper prefix of `p` holds a map, and finds none as soon as a prefix
        is missing. */
    method GetMut(p: Path) returns (r: Option<Value>)
      ensures r == Get(fields, p)
      ensures p[0] !in fields ==> r.None?
      ensures r.Some? ==> forall j | 1 <= j < |p| :: Get(fields, p[..j]).Some? && Get(fields, p[..j]).value.Map?
      ensures (exists j | 1 <= j < |p| :: Get(fields, p[..j]).None?) ==> r.None?
    {
      r := Get(fields, p);
      if r.Some? {
        forall j | 1 <= j < |p|
          ensures Get(fields, p[..j]).Some? && Get(fields, p[..j]).value.Map?
        {
          FoundThroughMaps(fields, p, j);
        }
      }
    }

    method Insert(p: Path, v: Value)
      modifies this
      ensures fields == Inserted(old(fields), p, v)
    {
      fields := Inserted(fields, p, v);
    }

    method Remove(p: Path, compact: bool)
      modifies this
      ensures fields == Removed(old(fields), p, compact)
    {
      fields := Removed(fields, p, compact);
    }

    /** The recursive key enumeration `keys(true)`. */
    method Keys() returns (r: set<Path>)
      ensures forall p: Path :: p in r <==> IsLeaf(fields, p)
    {
      r := LeafPaths(fields);
      forall p: Path ensures p in r <==> IsLeaf(fields, p) {
        LeafPathsExact(fields, p);
      }
    }
  }
}
