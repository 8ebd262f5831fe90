/** The Python dict operations the handler relies on: d[key] lookup,
    and filling a dict by assigning d[k] = v for a sequence of pairs in order
    (a loop of assignments, dict.update, and dict(zip(keys, values))). */
module Dicts {
  import opened Errors

  /** d[key]: the value, or KeyError naming the key. */
  function Get<V>(d: map<string, V>, key: string): (r: Result<V>)
    ensures r.Ok? <==> key in d
    ensures r.Ok? ==> r.value == d[key]
    ensures r.Err? ==> r.error == KeyError(key)
  {
    if key in d then Ok(d[key]) else Err(KeyError(key))
  }

  /** d after `for k, v in pairs: d[k] = v`. */
  function Assign<K(==), V>(d: map<K, V>, pairs: seq<(K, V)>): map<K, V>
  {
    if |pairs| == 0 then d
    else
      var last := pairs[|pairs| - 1];
      Assign(d, pairs[..|pairs| - 1])[last.0 := last.1]
  }

  /** The keys a sequence of pairs assigns. */
  function KeysOf<K(==), V>(pairs: seq<(K, V)>): set<K>
  {
    set i | 0 <= i < |pairs| :: pairs[i].0
  }

  /** Assigning adds exactly the assigned keys to the ones already there. */
  lemma {:induction false} AssignKeys<K, V>(d: map<K, V>, pairs: seq<(K, V)>)
    ensures Assign(d, pairs).Keys == d.Keys + KeysOf(pairs)
  {
    if |pairs| > 0 {
      var init := pairs[..|pairs| - 1];
      AssignKeys(d, init);
      assert KeysOf(pairs) == KeysOf(init) + {pairs[|pairs| - 1].0} by {
        forall k | k in KeysOf(pairs) ensures k in KeysOf(init) + {pairs[|pairs| - 1].0} {
          var i :| 0 <= i < |pairs| && pairs[i].0 == k;
          if i < |pairs| - 1 {
            assert init[i].0 == k;
          }
        }
        forall k | k in KeysOf(init) ensures k in KeysOf(pairs) {
          var i :| 0 <= i < |init| && init[i].0 == k;
          assert pairs[i].0 == k;
        }
      }
    }
  }

  /** A key holds the value of the last pair that assigns it. */
  lemma {:induction false} AssignLastWins<K, V>(d: map<K, V>, pairs: seq<(K, V)>, i: nat)
    requires i < |pairs|
    requires forall j :: i < j < |pairs| ==> pairs[j].0 != pairs[i].0
    ensures pairs[i].0 in Assign(d, pairs)
    ensures Assign(d, pairs)[pairs[i].0] == pairs[i].1
  {
    if i < |pairs| - 1 {
      var init := pairs[..|pairs| - 1];
      AssignLastWins(d, init, i);
    }
  }

  /** A key no pair assigns keeps its presence and its value. */
  lemma {:induction false} AssignUntouched<K, V>(d: map<K, V>, pairs: seq<(K, V)>, k: K)
    requires forall i :: 0 <= i < |pairs| ==> pairs[i].0 != k
    ensures k in Assign(d, pairs) <==> k in d
    ensures k in d ==> Assign(d, pairs)[k] == d[k]
  {
    if |pairs| > 0 {
      AssignUntouched(d, pairs[..|pairs| - 1], k);
    }
  }

  /** Every value of the result is an old value or an assigned one, so a property
      all of those have holds of every value of the result. */
  lemma {:induction false} AssignValues<K, V>(d: map<K, V>, pairs: seq<(K, V)>, P: V -> bool)
    requires forall k :: k in d ==> P(d[k])
    requires forall i :: 0 <= i < |pairs| ==> P(pairs[i].1)
    ensures forall k :: k in Assign(d, pairs) ==> P(Assign(d, pairs)[k])
  {
    if |pairs| > 0 {
      AssignValues(d, pairs[..|pairs| - 1], P);
    }
  }

  /** Pairs with distinct keys, none already present, add one entry each. */
  lemma {:induction false} AssignSize<K, V>(d: map<K, V>, pairs: seq<(K, V)>)
    requires forall i, j :: 0 <= i < j < |pairs| ==> pairs[i].0 != pairs[j].0
    requires forall i :: 0 <= i < |pairs| ==> pairs[i].0 !in d
    ensures |Assign(d, pairs)| == |d| + |pairs|
  {
    if |pairs| > 0 {
      var init := pairs[..|pairs| - 1];
      var last := pairs[|pairs| - 1];
      AssignSize(d, init);
      AssignUntouched(d, init, last.0);
    }
  }

  /** zip(xs, ys): pairs up the two sequences, as long as the shorter one. */
  function Zip<A, B>(xs: seq<A>, ys: seq<B>): (r: seq<(A, B)>)
    ensures |r| == if |xs| < |ys| then |xs| else |ys|
    ensures forall i :: 0 <= i < |r| ==> r[i] == (xs[i], ys[i])
  {
    if |xs| == 0 || |ys| == 0 then [] else [(xs[0], ys[0])] + Zip(xs[1..], ys[1..])
  }

  /** How many leading items have a key before `keyOf` first fails. */
  function KeyedCount<K, V>(items: seq<V>, keyOf: V -> Result<K>): (n: nat)
    ensures n <= |items|
    ensures forall i :: 0 <= i < n ==> keyOf(items[i]).Ok?
    ensures n < |items| ==> keyOf(items[n]).Err?
  {
    if |items| == 0 || keyOf(items[0]).Err? then 0
    else 1 + KeyedCount(items[1..], keyOf)
  }

  /** Each item paired with its key, for items that all have one. */
  function Keyed<K, V>(items: seq<V>, keyOf: V -> Result<K>): (r: seq<(K, V)>)
    requires forall i :: 0 <= i < |items| ==> keyOf(items[i]).Ok?
    ensures |r| == |items|
    ensures forall i :: 0 <= i < |items| ==> r[i] == (keyOf(items[i]).value, items[i])
  {
    seq(|items|, i requires 0 <= i < |items| => (keyOf(items[i]).value, items[i]))
  }
}
