/** Turning one row of a database projection into a map from each projected
    property path to its value. */
module ProjectionUtils {
  import opened JavaText

  /** The map built by putting property i with value results[i] (null past the
      end of the row) for i = 0, 1, ..., in order. */
  function PathMap<V>(results: seq<V>, properties: seq<string>): map<string, Option<V>>
  {
    if properties == [] then map[]
    else
      var i := |properties| - 1;
      PathMap(results, properties[..i])[properties[i] := ValueAt(results, i)]
  }

  /** `i < resultSize ? results[i] : null`. */
  function ValueAt<V>(results: seq<V>, i: nat): Option<V>
  {
    if i < |results| then Some(results[i]) else None
  }

  /** mapResultsToPaths: null for a null row, otherwise a new map filled
      property by property. */
  method MapResultsToPaths<V>(results: Option<seq<V>>, properties: seq<string>)
    returns (r: Option<map<string, Option<V>>>)
    ensures results.None? ==> r.None?
    ensures results.Some? ==> r == Some(PathMap(results.value, properties))
  {
    if results.None? {
      return None;
    }
    var row := results.value;
    var pathValueMap: map<string, Option<V>> := map[];
    var resultSize := |row|;
    for i := 0 to |properties|
      invariant pathValueMap == PathMap(row, properties[..i])
    {
      var value := if i < resultSize then Some(row[i]) else None;
      assert properties[..i + 1][..i] == properties[..i];
      pathValueMap := pathValueMap[properties[i] := value];
    }
    assert properties[..|properties|] == properties;
    return Some(pathValueMap);
  }

  /** The keys are exactly the property names. */
  lemma {:induction false} PathMapKeys<V>(results: seq<V>, properties: seq<string>)
    ensures PathMap(results, properties).Keys == set i | 0 <= i < |properties| :: properties[i]
  {
    if properties != [] {
      var n := |properties| - 1;
      PathMapKeys(results, properties[..n]);
      var before := set i | 0 <= i < n :: properties[..n][i];
      var all := set i | 0 <= i < |properties| :: properties[i];
      assert all == before + {properties[n]} by {
        forall x | x in all ensures x in before + {properties[n]} {
          var i :| 0 <= i < |properties| && properties[i] == x;
          if i < n {
            assert properties[..n][i] == x;
          }
        }
        forall x | x in before ensures x in all {
          var i :| 0 <= i < n && properties[..n][i] == x;
          assert properties[i] == x;
        }
      }
    }
  }

  /** The value under a name is that of its last occurrence in the property
      list: results[i], or null when the row is shorter than i + 1. Later
      duplicates overwrite earlier ones. */
  lemma {:induction false} PathMapValue<V>(results: seq<V>, properties: seq<string>, i: nat)
    requires i < |properties|
    requires forall l :: i < l < |properties| ==> properties[l] != properties[i]
    ensures properties[i] in PathMap(results, properties)
    ensures PathMap(results, properties)[properties[i]] == if i < |results| then Some(results[i]) else None
  {
    var n := |properties| - 1;
    if i < n {
      var init := properties[..n];
      assert init[i] == properties[i];
      assert forall l :: i < l < n ==> init[l] == properties[l];
      PathMapValue(results, init, i);
    }
  }
}
