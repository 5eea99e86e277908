/** A java.util.HashMap filled by a run of `put` calls, some entries of the run skipped. */
module MapPuts {
  import opened Wrappers

  /** The map left by calling `put(k, v)` for every `Some((k, v))` of `ps`, in order, on an
      empty map; a `None` is a skipped entry. */
  function PutAll<K, V>(ps: seq<Option<(K, V)>>): map<K, V>
  {
    if ps == [] then map[]
    else
      var m := PutAll(ps[..|ps| - 1]);
      match ps[|ps| - 1]
      case None => m
      case Some(kv) => m[kv.0 := kv.1]
  }

  /** A key is present exactly when some entry put it. */
  lemma {:induction false} PutAllKeys<K, V>(ps: seq<Option<(K, V)>>, k: K)
    ensures k in PutAll(ps) <==> exists i :: 0 <= i < |ps| && ps[i].Some? && ps[i].value.0 == k
  {
    if ps != [] {
      var init := ps[..|ps| - 1];
      PutAllKeys(init, k);
      if exists i :: 0 <= i < |init| && init[i].Some? && init[i].value.0 == k {
        var i :| 0 <= i < |init| && init[i].Some? && init[i].value.0 == k;
        assert ps[i] == init[i];
      }
      if exists i :: 0 <= i < |ps| && ps[i].Some? && ps[i].value.0 == k {
        var i :| 0 <= i < |ps| && ps[i].Some? && ps[i].value.0 == k;
        if i < |init| { assert init[i] == ps[i]; }
      }
    }
  }

  /** The value of a key is the one of the LAST entry that put it. */
  lemma {:induction false} PutAllLastWins<K, V>(ps: seq<Option<(K, V)>>, i: nat)
    requires i < |ps| && ps[i].Some?
    requires forall j :: i < j < |ps| ==> ps[j].None? || ps[j].value.0 != ps[i].value.0
    ensures ps[i].value.0 in PutAll(ps) && PutAll(ps)[ps[i].value.0] == ps[i].value.1
  {
    if i < |ps| - 1 {
      var init := ps[..|ps| - 1];
      PutAllLastWins(init, i);
    }
  }

  /** Every entry of the map is one of the pairs put. */
  lemma {:induction false} PutAllEntry<K, V>(ps: seq<Option<(K, V)>>, k: K)
    requires k in PutAll(ps)
    ensures exists i :: 0 <= i < |ps| && ps[i] == Some((k, PutAll(ps)[k]))
  {
    var n := |ps| - 1;
    if ps[n].Some? && ps[n].value.0 == k {
      assert ps[n] == Some((k, PutAll(ps)[k]));
    } else {
      var init := ps[..n];
      PutAllEntry(init, k);
      var i :| 0 <= i < |init| && init[i] == Some((k, PutAll(init)[k]));
      assert ps[i] == init[i];
    }
  }
}
