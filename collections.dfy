// Sequence and map helpers shared by the model: distinctness, and Guava's
// `ImmutableMap.Builder`, whose `build` rejects a key that was put twice.
module Collections {
  import opened Wrappers

  /** No element occurs twice. */
  predicate Distinct<T(==)>(xs: seq<T>)
  {
    forall i, j :: 0 <= i < j < |xs| ==> xs[i] != xs[j]
  }

  function Firsts<K, V>(entries: seq<(K, V)>): (ks: seq<K>)
    ensures |ks| == |entries|
  {
    seq(|entries|, i requires 0 <= i < |entries| => entries[i].0)
  }

  /** `ImmutableMap.Builder`: the entries are put in order, and `build` fails
      with the offending key when a key was put more than once. */
  function BuildMap<K(==), V>(entries: seq<(K, V)>): Result<map<K, V>, K>
  {
    if entries == [] then Ok(map[])
    else
      var last := entries[|entries| - 1];
      match BuildMap(entries[..|entries| - 1])
      case Err(k) => Err(k)
      case Ok(m) => if last.0 in m then Err(last.0) else Ok(m[last.0 := last.1])
  }

  /** The build succeeds exactly when the keys are distinct; the map then holds
      every entry and nothing else, and a failed build names a repeated key. */
  lemma {:induction false} BuildMapSpec<K, V>(entries: seq<(K, V)>)
    ensures BuildMap(entries).Ok? <==> Distinct(Firsts(entries))
    ensures BuildMap(entries).Ok? ==>
      && BuildMap(entries).value.Keys == (set e | e in entries :: e.0)
      && forall i :: 0 <= i < |entries| ==> BuildMap(entries).value[entries[i].0] == entries[i].1
    ensures BuildMap(entries).Err? ==>
      exists i, j :: 0 <= i < j < |entries| && entries[i].0 == BuildMap(entries).error && entries[j].0 == BuildMap(entries).error
  {
    if entries != [] {
      var n := |entries| - 1;
      var init := entries[..n];
      var last := entries[n];
      BuildMapSpec(init);
      assert Firsts(init) == Firsts(entries)[..n];
      assert entries == init + [last];
      match BuildMap(init)
      case Err(k) =>
        var i, j :| 0 <= i < j < |init| && init[i].0 == k && init[j].0 == k;
        assert entries[i] == init[i] && entries[j] == init[j];
        assert !Distinct(Firsts(entries)) by {
          assert Firsts(entries)[i] == Firsts(entries)[j];
        }
      case Ok(m) =>
        if last.0 in m {
          var e :| e in init && e.0 == last.0;
          var i :| 0 <= i < |init| && init[i] == e;
          assert entries[i].0 == entries[n].0;
          assert Firsts(entries)[i] == Firsts(entries)[n];
        } else {
          forall i, j | 0 <= i < j < |entries|
            ensures Firsts(entries)[i] != Firsts(entries)[j]
          {
            if j == n {
              assert init[i] in init;
            } else {
              assert Firsts(init)[i] != Firsts(init)[j];
            }
          }
          assert (set e | e in entries :: e.0) == (set e | e in init :: e.0) + {last.0};
        }
    }
  }

  /** A sequence without repetitions has as many distinct elements as entries. */
  lemma {:induction false} DistinctCard<T>(xs: seq<T>)
    requires Distinct(xs)
    ensures |set x | x in xs| == |xs|
  {
    if xs != [] {
      var init := xs[..|xs| - 1];
      DistinctCard(init);
      assert (set x | x in xs) == (set x | x in init) + {xs[|xs| - 1]};
      assert xs[|xs| - 1] !in (set x | x in init);
    }
  }
}
