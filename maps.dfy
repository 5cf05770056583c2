/** Dictionary writes in sequence: `dict[key] = value` for each pair in
    turn, as every loop that fills a C# Dictionary from a list does.  A
    later pair with the same key overwrites the earlier one. */
module Maps {

  function Assign<K, V>(acc: map<K, V>, pairs: seq<(K, V)>): (m: map<K, V>)
    ensures m.Keys == acc.Keys + (set j | 0 <= j < |pairs| :: pairs[j].0)
    decreases |pairs|
  {
    if pairs == [] then acc
    else
      var m := Assign(acc[pairs[0].0 := pairs[0].1], pairs[1..]);
      assert forall j | 0 < j < |pairs| :: pairs[j].0 == pairs[1..][j - 1].0;
      m
  }

  /** The value under a key is the one of the last pair with that key. */
  lemma {:induction false} AssignLastWins<K, V>(acc: map<K, V>, pairs: seq<(K, V)>, j: nat)
    requires j < |pairs|
    requires forall l :: j < l < |pairs| ==> pairs[l].0 != pairs[j].0
    ensures pairs[j].0 in Assign(acc, pairs) && Assign(acc, pairs)[pairs[j].0] == pairs[j].1
    decreases |pairs|
  {
    if j == 0 {
      AssignUntouched(acc[pairs[0].0 := pairs[0].1], pairs[1..], pairs[0].0);
    } else {
      forall l | j - 1 < l < |pairs| - 1 ensures pairs[1..][l].0 != pairs[1..][j - 1].0 {
        assert pairs[1..][l] == pairs[l + 1];
      }
      AssignLastWins(acc[pairs[0].0 := pairs[0].1], pairs[1..], j - 1);
    }
  }

  /** A key no pair mentions keeps its entry, or its absence. */
  lemma {:induction false} AssignUntouched<K, V>(acc: map<K, V>, pairs: seq<(K, V)>, k: K)
    requires forall l :: 0 <= l < |pairs| ==> pairs[l].0 != k
    ensures k in Assign(acc, pairs) <==> k in acc
    ensures k in acc ==> Assign(acc, pairs)[k] == acc[k]
    decreases |pairs|
  {
    if pairs != [] {
      assert pairs[0].0 != k;
      forall l | 0 <= l < |pairs| - 1 ensures pairs[1..][l].0 != k {
        assert pairs[1..][l] == pairs[l + 1];
      }
      AssignUntouched(acc[pairs[0].0 := pairs[0].1], pairs[1..], k);
    }
  }

  /** One more pair is one more dictionary write. */
  lemma {:induction false} AssignSnoc<K, V>(acc: map<K, V>, pairs: seq<(K, V)>, e: (K, V))
    ensures Assign(acc, pairs + [e]) == Assign(acc, pairs)[e.0 := e.1]
    decreases |pairs|
  {
    if pairs == [] {
      assert [] + [e] == [e];
      assert [e][1..] == [];
    } else {
      assert (pairs + [e])[1..] == pairs[1..] + [e];
      AssignSnoc(acc[pairs[0].0 := pairs[0].1], pairs[1..], e);
    }
  }

  /** The last pair with key `k`, when there is one. */
  lemma {:induction false} LastWithKey<K, V>(pairs: seq<(K, V)>, k: K, i: nat) returns (j: nat)
    requires i < |pairs| && pairs[i].0 == k
    ensures j < |pairs| && pairs[j].0 == k
    ensures forall l :: j < l < |pairs| ==> pairs[l].0 != k
    decreases |pairs| - i
  {
    if exists l :: i < l < |pairs| && pairs[l].0 == k {
      var l :| i < l < |pairs| && pairs[l].0 == k;
      j := LastWithKey(pairs, k, l);
    } else {
      j := i;
    }
  }

  /** Writing the same pairs twice gives what writing them once gives. */
  lemma AssignIdempotent<K, V>(acc: map<K, V>, pairs: seq<(K, V)>)
    ensures Assign(Assign(acc, pairs), pairs) == Assign(acc, pairs)
  {
    var once := Assign(acc, pairs);
    var twice := Assign(once, pairs);
    forall k | k in twice ensures k in once && twice[k] == once[k] {
      if i :| 0 <= i < |pairs| && pairs[i].0 == k {
        var j := LastWithKey(pairs, k, i);
        AssignLastWins(acc, pairs, j);
        AssignLastWins(once, pairs, j);
      } else {
        AssignUntouched(once, pairs, k);
      }
    }
  }
}
