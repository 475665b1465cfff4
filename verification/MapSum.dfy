/** Sums over finite maps, in no particular order. */
module MapSum {
  import opened CheckedMath

  ghost function Pick(m: map<u64, nat>): (k: u64)
    requires m != map[]
    ensures k in m
  {
    var k :| k in m;
    k
  }

  /** The sum of all values, whatever key is taken first. */
  ghost function Sum(m: map<u64, nat>): nat
    decreases |m|
  {
    if m == map[] then 0
    else
      var k := Pick(m);
      m[k] + Sum(m - {k})
  }

  lemma {:induction false} SumRemove(m: map<u64, nat>, k: u64)
    requires k in m
    ensures Sum(m) == m[k] + Sum(m - {k})
    decreases |m|
  {
    var p := Pick(m);
    if p != k {
      SumRemove(m - {p}, k);
      SumRemove(m - {k}, p);
      assert m - {p} - {k} == m - {k} - {p};
    }
  }

  lemma SumUpdate(m: map<u64, nat>, k: u64, v: nat)
    ensures Sum(m[k := v]) == Sum(m) + v - (if k in m then m[k] else 0)
  {
    SumRemove(m[k := v], k);
    if k in m {
      SumRemove(m, k);
      assert m[k := v] - {k} == m - {k};
    } else {
      assert m[k := v] - {k} == m;
    }
  }

  /** Pointwise comparison carries over to the sums, with a constant factor. */
  lemma {:induction false} SumCompare(m: map<u64, nat>, n: map<u64, nat>, factor: nat)
    requires m.Keys == n.Keys
    requires forall k :: k in m ==> m[k] <= n[k] * factor
    ensures Sum(m) <= Sum(n) * factor
    decreases |m|
  {
    hide Sum;
    if m != map[] {
      var k := Pick(m);
      SumRemove(m, k);
      SumRemove(n, k);
      SumCompare(m - {k}, n - {k}, factor);
      Factored(n[k], Sum(n - {k}), factor);
    } else {
      assert n == map[];
      SumOfZeros(m);
    }
  }

  lemma Factored(a: nat, b: nat, factor: nat)
    ensures (a + b) * factor == a * factor + b * factor
  {
  }

  lemma SumAtLeast(m: map<u64, nat>, k: u64)
    requires k in m
    ensures m[k] <= Sum(m)
  {
    SumRemove(m, k);
  }

  lemma {:induction false} SumOfZeros(m: map<u64, nat>)
    requires forall k :: k in m ==> m[k] == 0
    ensures Sum(m) == 0
    decreases |m|
  {
    if m != map[] {
      SumOfZeros(m - {Pick(m)});
    }
  }

  /** Entries of zero may be left out of a sum. */
  lemma {:induction false} SumWithoutZeros(m: map<u64, nat>, n: map<u64, nat>)
    requires n.Keys <= m.Keys
    requires forall k :: k in m ==> if k in n then n[k] == m[k] else m[k] == 0
    ensures Sum(m) == Sum(n)
    decreases |m|
  {
    hide Sum;
    if m == map[] {
      assert n == map[];
    } else {
      var k := Pick(m);
      SumRemove(m, k);
      if k in n {
        SumRemove(n, k);
        SumWithoutZeros(m - {k}, n - {k});
      } else {
        SumWithoutZeros(m - {k}, n);
      }
    }
  }
}
