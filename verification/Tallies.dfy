/**
 Grouped sums: one row a key, its credited difficulty and its share count.
 */
module Tallies {
  datatype Tally<K> = Tally(key: K, difficulty: real, count: nat)

  function Add<K(==)>(ts: seq<Tally<K>>, key: K, difficulty: real, count: nat): seq<Tally<K>>
  {
    if ts == [] then [Tally(key, difficulty, count)]
    else if ts[0].key == key then [Tally(key, ts[0].difficulty + difficulty, ts[0].count + count)] + ts[1..]
    else [ts[0]] + Add(ts[1..], key, difficulty, count)
  }

  function Total<K>(ts: seq<Tally<K>>): real
  {
    if ts == [] then 0.0 else ts[0].difficulty + Total(ts[1..])
  }

  function Count<K>(ts: seq<Tally<K>>): nat
  {
    if ts == [] then 0 else ts[0].count + Count(ts[1..])
  }

  /** The sum of a key's rows; zero when it has none. */
  function Of<K(==)>(ts: seq<Tally<K>>, key: K): real
  {
    if ts == [] then 0.0 else (if ts[0].key == key then ts[0].difficulty else 0.0) + Of(ts[1..], key)
  }

  ghost predicate DistinctKeys<K(!new)>(ts: seq<Tally<K>>)
  {
    forall i, j :: 0 <= i < j < |ts| ==> ts[i].key != ts[j].key
  }

  ghost predicate HasKey<K(!new)>(ts: seq<Tally<K>>, key: K)
  {
    exists i :: 0 <= i < |ts| && ts[i].key == key
  }

  ghost predicate NonNegative<K(!new)>(ts: seq<Tally<K>>)
  {
    forall t :: t in ts ==> t.difficulty >= 0.0
  }

  lemma {:induction false} AddSums<K>(ts: seq<Tally<K>>, key: K, difficulty: real, count: nat, k: K)
    ensures Total(Add(ts, key, difficulty, count)) == Total(ts) + difficulty
    ensures Count(Add(ts, key, difficulty, count)) == Count(ts) + count
    ensures Of(Add(ts, key, difficulty, count), k) == Of(ts, k) + (if k == key then difficulty else 0.0)
  {
    if ts == [] {
      assert Add(ts, key, difficulty, count)[1..] == [];
    } else if ts[0].key == key {
      assert Add(ts, key, difficulty, count)[1..] == ts[1..];
    } else {
      AddSums(ts[1..], key, difficulty, count, k);
      assert Add(ts, key, difficulty, count)[1..] == Add(ts[1..], key, difficulty, count);
    }
  }

  lemma {:induction false} AddKeys<K(!new)>(ts: seq<Tally<K>>, key: K, difficulty: real, count: nat, k: K)
    ensures HasKey(Add(ts, key, difficulty, count), k) <==> HasKey(ts, k) || k == key
  {
    var r := Add(ts, key, difficulty, count);
    if ts == [] {
      assert r[0].key == key;
    } else if ts[0].key == key {
      assert r[0].key == key;
      assert forall i :: 0 <= i < |ts| ==> r[i].key == ts[i].key;
    } else {
      AddKeys(ts[1..], key, difficulty, count, k);
      HeadKeys(ts, k);
      HeadKeys(r, k);
      assert r[1..] == Add(ts[1..], key, difficulty, count);
    }
  }

  lemma HeadKeys<K(!new)>(ts: seq<Tally<K>>, k: K)
    requires ts != []
    ensures HasKey(ts, k) <==> ts[0].key == k || HasKey(ts[1..], k)
  {
    if HasKey(ts, k) && ts[0].key != k {
      var i :| 0 <= i < |ts| && ts[i].key == k;
      assert ts[1..][i - 1].key == k;
    }
  }

  lemma {:induction false} AddDistinct<K(!new)>(ts: seq<Tally<K>>, key: K, difficulty: real, count: nat)
    requires DistinctKeys(ts)
    ensures DistinctKeys(Add(ts, key, difficulty, count))
  {
    if ts != [] && ts[0].key != key {
      var rest := Add(ts[1..], key, difficulty, count);
      AddDistinct(ts[1..], key, difficulty, count);
      AddKeys(ts[1..], key, difficulty, count, ts[0].key);
      forall i | 0 <= i < |ts[1..]| ensures ts[1..][i].key != ts[0].key {
        assert ts[1..][i] == ts[i + 1];
      }
    }
  }

  lemma {:induction false} AddNonNegative<K(!new)>(ts: seq<Tally<K>>, key: K, difficulty: real, count: nat)
    requires NonNegative(ts) && difficulty >= 0.0
    ensures NonNegative(Add(ts, key, difficulty, count))
  {
    if ts != [] {
      assert ts[0] in ts;
      if ts[0].key != key { AddNonNegative(ts[1..], key, difficulty, count); }
    }
  }

  // ---- HAVING SUM > 0 ----

  function Positive<K>(ts: seq<Tally<K>>): (r: seq<Tally<K>>)
    ensures forall t :: t in r ==> t in ts && t.difficulty > 0.0
  {
    if ts == [] then []
    else if ts[0].difficulty > 0.0 then [ts[0]] + Positive(ts[1..])
    else Positive(ts[1..])
  }

  /** Dropping the keys without work drops no work. */
  lemma {:induction false} PositiveKeepsSums<K(!new)>(ts: seq<Tally<K>>, k: K)
    requires NonNegative(ts)
    ensures Total(Positive(ts)) == Total(ts)
    ensures Of(Positive(ts), k) == Of(ts, k)
  {
    if ts != [] {
      assert ts[0] in ts;
      PositiveKeepsSums(ts[1..], k);
      if ts[0].difficulty > 0.0 { assert Positive(ts)[1..] == Positive(ts[1..]); }
    }
  }

  lemma {:induction false} PositiveDistinct<K(!new)>(ts: seq<Tally<K>>)
    requires DistinctKeys(ts)
    ensures DistinctKeys(Positive(ts))
  {
    if ts != [] {
      PositiveDistinct(ts[1..]);
      forall t | t in Positive(ts[1..]) ensures t.key != ts[0].key {
        var i :| 0 <= i < |ts[1..]| && ts[1..][i] == t;
        assert ts[i + 1] == t;
      }
    }
  }
}
