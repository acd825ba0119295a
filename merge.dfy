/**
 * `merge_maps`: merges a second map of values into a first one. Every key of
 * the second map is written into the first; when `deep` holds and both sides
 * hold a map under the same key, the two child maps are merged recursively
 * instead. (The function's doc comment describes the flag the other way
 * round; the code recurses only when `deep` is true, and so does this model.)
 */
module Merge {
  import opened Events

  /** The result of merging `m2` into `m1`. */
  function Merged(m1: Fields, m2: Fields, deep: bool): Fields
    decreases Map(m2)
  {
    map k | k in m1.Keys + m2.Keys ::
      if k !in m2 then m1[k]
      else if deep && k in m1 && m1[k].Map? && m2[k].Map? then Map(Merged(m1[k].fields, m2[k].fields, deep))
      else m2[k]
  }

  /** The loop of `merge_maps`: visits the keys of `map2` one by one and
      updates the first map, recursing for a deep merge of two child maps. */
  method MergeMaps(map1: Fields, map2: Fields, deep: bool) returns (r: Fields)
    ensures r == Merged(map1, map2, deep)
    decreases Map(map2)
  {
    r := map1;
    var todo := map2.Keys;
    while todo != {}
      invariant todo <= map2.Keys
      invariant r.Keys == map1.Keys + (map2.Keys - todo)
      invariant forall k | k in r && k !in todo :: r[k] == Merged(map1, map2, deep)[k]
      invariant forall k | k in todo && k in map1 :: r[k] == map1[k]
      decreases todo
    {
      var key2 :| key2 in todo;
      var value2 := map2[key2];
      if deep && key2 in r && r[key2].Map? && value2.Map? {
        var child := MergeMaps(r[key2].fields, value2.fields, deep);
        r := r[key2 := Map(child)];
      } else {
        r := r[key2 := value2];
      }
      todo := todo - {key2};
    }
  }

  /** The merged keys are the keys of both maps; a key only in the first map
      keeps its value. */
  lemma MergedKeys(m1: Fields, m2: Fields, deep: bool)
    ensures Merged(m1, m2, deep).Keys == m1.Keys + m2.Keys
    ensures forall k | k in m1 && k !in m2 :: Merged(m1, m2, deep)[k] == m1[k]
  {
  }

  /** A shallow merge never recurses: it is the map union in which the second
      map wins, so a nested map of the second replaces the first's wholesale. */
  lemma ShallowMergeIsUnion(m1: Fields, m2: Fields)
    ensures Merged(m1, m2, false) == m1 + m2
  {
  }

  /** A deep merge recurses exactly where both sides hold a map; every other
      key of the second map overwrites. */
  lemma DeepMergeEntries(m1: Fields, m2: Fields, k: string)
    requires k in m2
    ensures k in m1 && m1[k].Map? && m2[k].Map? ==>
      Merged(m1, m2, true)[k] == Map(Merged(m1[k].fields, m2[k].fields, true))
    ensures !(k in m1 && m1[k].Map? && m2[k].Map?) ==> Merged(m1, m2, true)[k] == m2[k]
  {
  }

  /** In a deep merge, every non-map value of the second map, at any depth,
      ends up at the same path of the result. */
  lemma {:induction false} DeepMergeKeepsSourceValues(m1: Fields, m2: Fields, p: Path)
    requires Get(m2, p).Some? && !Get(m2, p).value.Map?
    ensures Get(Merged(m1, m2, true), p) == Get(m2, p)
    decreases |p|
  {
    var r := Merged(m1, m2, true);
    var k := p[0];
    if |p| > 1 {
      var q := p[1..];
      assert p == [k] + q;
      GetCons(m2, k, q);
      if k in m1 && m1[k].Map? {
        DeepMergeKeepsSourceValues(m1[k].fields, m2[k].fields, q);
      }
      GetCons(r, k, q);
    }
  }

  /** In a deep merge, every value of the first map whose path the second map
      does not reach (the path is absent from the second map and every proper
      prefix of it is absent there too or holds a map) stays where it was. */
  lemma {:induction false} DeepMergeKeepsTargetValues(m1: Fields, m2: Fields, p: Path)
    requires Get(m1, p).Some? && Get(m2, p).None?
    requires forall j | 1 <= j < |p| :: Get(m2, p[..j]).None? || Get(m2, p[..j]).value.Map?
    ensures Get(Merged(m1, m2, true), p) == Get(m1, p)
    decreases |p|
  {
    var r := Merged(m1, m2, true);
    var k := p[0];
    if |p| > 1 && k in m2 {
      var q := p[1..];
      assert p == [k] + q;
      assert p[..1] == [k];
      assert m1[k].Map? && m2[k].Map?;
      GetCons(m2, k, q);
      forall j | 1 <= j < |q|
        ensures Get(m2[k].fields, q[..j]).None? || Get(m2[k].fields, q[..j]).value.Map?
      {
        assert p[..j + 1] == [k] + q[..j];
        GetCons(m2, k, q[..j]);
      }
      DeepMergeKeepsTargetValues(m1[k].fields, m2[k].fields, q);
      GetCons(r, k, q);
      GetCons(m1, k, q);
    }
  }

  /** Merging a map into itself, or merging an empty map, changes nothing. */
  lemma {:induction false} MergeIdentities(m: Fields, deep: bool)
    ensures Merged(m, m, deep) == m
    ensures Merged(m, map[], deep) == m
    decreases Map(m)
  {
    forall k | k in m && deep && m[k].Map?
      ensures Merged(m[k].fields, m[k].fields, deep) == m[k].fields
    {
      MergeIdentities(m[k].fields, deep);
    }
  }
}
