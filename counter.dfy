/**
 * `collections.Counter` with string keys, as an association list whose entries
 * keep insertion order (order stands in for dictionary iteration order).
 */
module Counters {
  import opened Strings

  type Counter = seq<(string, int)>

  /** No key is listed twice. */
  predicate Distinct(c: Counter) {
    forall i, j :: 0 <= i < j < |c| ==> c[i].0 != c[j].0
  }

  /** The keys, in iteration order: what `for key in c` visits. */
  function Keys(c: Counter): seq<string> {
    seq(|c|, i requires 0 <= i < |c| => c[i].0)
  }

  predicate HasKey(c: Counter, k: string) {
    exists i :: 0 <= i < |c| && c[i].0 == k
  }

  /** `c[k]`: the count of `k`, 0 when `k` is missing. */
  function Get(c: Counter, k: string): int {
    if |c| == 0 then 0 else if c[0].0 == k then c[0].1 else Get(c[1..], k)
  }

  /** The sum of all counts. */
  function Total(c: Counter): int {
    if |c| == 0 then 0 else c[0].1 + Total(c[1..])
  }

  /** `c[k] += n`: a missing key is added at the end with count `n`. */
  function Inc(c: Counter, k: string, n: int): (r: Counter)
    ensures Get(r, k) == Get(c, k) + n
    ensures forall j :: j != k ==> Get(r, j) == Get(c, j)
    ensures Total(r) == Total(c) + n
    ensures Distinct(c) ==> Distinct(r)
    ensures HasKey(r, k) && forall j :: HasKey(r, j) <==> HasKey(c, j) || j == k
    ensures |r| == if HasKey(c, k) then |c| else |c| + 1
  {
    if |c| == 0 then [(k, n)]
    else if c[0].0 == k then [(k, c[0].1 + n)] + c[1..]
    else
      var t := Inc(c[1..], k, n);
      var r := [c[0]] + t;
      assert r[1..] == t;
      ConsKeys(c);
      ConsKeys(r);
      r
  }

  /** The keys of a non-empty counter are its first key and the keys of the rest. */
  lemma ConsKeys(c: Counter)
    requires |c| > 0
    ensures forall j :: HasKey(c, j) <==> c[0].0 == j || HasKey(c[1..], j)
    ensures Distinct(c) <==> Distinct(c[1..]) && !HasKey(c[1..], c[0].0)
  {
    forall j | HasKey(c, j) ensures c[0].0 == j || HasKey(c[1..], j) {
      var i :| 0 <= i < |c| && c[i].0 == j;
      if i > 0 { assert c[1..][i - 1] == c[i]; }
    }
    forall j | HasKey(c[1..], j) ensures HasKey(c, j) {
      var i :| 0 <= i < |c[1..]| && c[1..][i].0 == j;
      assert c[i + 1] == c[1..][i];
    }
    if Distinct(c[1..]) && !HasKey(c[1..], c[0].0) {
      forall i, j | 0 <= i < j < |c| ensures c[i].0 != c[j].0 {
        assert c[j] == c[1..][j - 1];
        if i > 0 { assert c[i] == c[1..][i - 1]; }
      }
    }
    if Distinct(c) {
      forall i, j | 0 <= i < j < |c[1..]| ensures c[1..][i].0 != c[1..][j].0 {
        assert c[1..][i] == c[i + 1] && c[1..][j] == c[j + 1];
      }
      forall i | 0 <= i < |c[1..]| ensures c[1..][i].0 != c[0].0 {
        assert c[1..][i] == c[i + 1];
      }
    }
  }

  /** `c.most_common(1)`: the first entry of largest count, none for an empty counter. */
  function MostCommon(c: Counter): (r: Option<(string, int)>)
    ensures r.None? <==> |c| == 0
    ensures r.Some? ==> exists i :: 0 <= i < |c| && c[i] == r.value && forall j :: 0 <= j < i ==> c[j].1 < r.value.1
    ensures r.Some? ==> forall i :: 0 <= i < |c| ==> c[i].1 <= r.value.1
  {
    if |c| == 0 then None
    else
      var rest := MostCommon(c[1..]);
      assert forall i :: 1 <= i < |c| ==> c[1..][i - 1] == c[i];
      if rest.None? || c[0].1 >= rest.value.1 then Some(c[0])
      else
        assert exists i :: 1 <= i < |c| && c[i] == rest.value && forall j :: 0 <= j < i ==> c[j].1 < rest.value.1 by {
          var i' :| 0 <= i' < |c[1..]| && c[1..][i'] == rest.value && forall j :: 0 <= j < i' ==> c[1..][j].1 < rest.value.1;
          assert c[i' + 1] == rest.value;
          forall j | 0 <= j < i' + 1 ensures c[j].1 < rest.value.1 {
            if j > 0 { assert c[j] == c[1..][j - 1]; }
          }
        }
        rest
  }

  /** In a counter without repeated keys, the count of an entry is what `Get` reports for its key. */
  lemma {:induction false} GetEntry(c: Counter, i: int)
    requires Distinct(c) && 0 <= i < |c|
    ensures Get(c, c[i].0) == c[i].1
    decreases |c|
  {
    if i > 0 {
      assert c[1..][i - 1] == c[i];
      GetEntry(c[1..], i - 1);
    }
  }

  /** A missing key counts 0. */
  lemma {:induction false} GetMissing(c: Counter, k: string)
    requires !HasKey(c, k)
    ensures Get(c, k) == 0
    decreases |c|
  {
    if |c| > 0 {
      assert !HasKey(c[1..], k) by {
        forall i | 0 <= i < |c[1..]| ensures c[1..][i].0 != k {
          assert c[1..][i] == c[i + 1];
        }
      }
      GetMissing(c[1..], k);
    }
  }

  /** The most common entry of a counter without repeated keys has the largest `Get` of all keys. */
  lemma MostCommonIsMax(c: Counter, k: string)
    requires Distinct(c) && |c| > 0
    ensures var m := MostCommon(c).value;
      HasKey(c, m.0) && Get(c, m.0) == m.1 && (HasKey(c, k) ==> Get(c, k) <= m.1)
  {
    var m := MostCommon(c).value;
    var i :| 0 <= i < |c| && c[i] == m && forall j :: 0 <= j < i ==> c[j].1 < m.1;
    GetEntry(c, i);
    if HasKey(c, k) {
      var j :| 0 <= j < |c| && c[j].0 == k;
      GetEntry(c, j);
    }
  }
  /** Counting one more entry at the end of a counter without repeated keys. */
  lemma {:induction false} GetSnoc(c: Counter, e: (string, int), k: string)
    requires Distinct(c + [e])
    ensures Get(c + [e], k) == Get(c, k) + (if e.0 == k then e.1 else 0)
    decreases |c|
  {
    if |c| == 0 {
      assert Get([e], k) == (if e.0 == k then e.1 else 0) by {
        assert [e][1..] == [];
      }
    } else {
      assert (c + [e])[1..] == c[1..] + [e];
      assert (c + [e])[0] == c[0];
      assert Distinct(c[1..] + [e]) by {
        forall i, j | 0 <= i < j < |c[1..] + [e]| ensures (c[1..] + [e])[i].0 != (c[1..] + [e])[j].0 {
          assert (c[1..] + [e])[i] == (c + [e])[i + 1] && (c[1..] + [e])[j] == (c + [e])[j + 1];
        }
      }
      if c[0].0 == k {
        assert e.0 != k by {
          assert (c + [e])[|c|] == e;
        }
      } else {
        GetSnoc(c[1..], e, k);
      }
    }
  }

  /** The total of a counter with one more entry at the end. */
  lemma {:induction false} TotalSnoc(c: Counter, e: (string, int))
    ensures Total(c + [e]) == Total(c) + e.1
    decreases |c|
  {
    if |c| == 0 {
      assert [e][1..] == [];
    } else {
      assert (c + [e])[1..] == c[1..] + [e];
      TotalSnoc(c[1..], e);
    }
  }
}
