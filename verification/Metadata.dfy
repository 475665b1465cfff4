/**
 Tagged metadata values and the comparison that makes a usage retry recognisable
 (src/qhw_usage.c, src/qhw_metadata.c).
 */
module Metadata {
  import opened CheckedMath

  type i64 = x: int | -0x8000_0000_0000_0000 <= x <= 0x7FFF_FFFF_FFFF_FFFF

  /** The union of the source, by type tag. A double is kept as its 64 bits. */
  datatype Payload =
    | U64(u64: u64)
    | I64(i64: i64)
    | F64(bits: u64)
    | Bool(boolean: u32)
    | Text(text: Option<string>)
    | Ptr(address: u64)
    | Unknown(tag: u32)

  datatype Value = Value(payload: Payload, flags: u32)

  datatype KeyValue = KeyValue(key: u64, value: Value)

  const EXPONENT_ALL_ONES: int := 0x7FF0_0000_0000_0000
  const SIGN_BIT: int := 0x8000_0000_0000_0000

  predicate IsNaN(bits: u64) {
    bits % SIGN_BIT > EXPONENT_ALL_ONES
  }

  /** The == of C on doubles: NaN equals nothing, the two zeros are equal. */
  predicate DoubleEqual(a: u64, b: u64) {
    && !IsNaN(a)
    && !IsNaN(b)
    && (a == b || (a % SIGN_BIT == 0 && b % SIGN_BIT == 0))
  }

  predicate ValueEqual(a: Value, b: Value) {
    && a.flags == b.flags
    && match (a.payload, b.payload)
       case (U64(x), U64(y)) => x == y
       case (I64(x), I64(y)) => x == y
       case (F64(x), F64(y)) => DoubleEqual(x, y)
       case (Bool(x), Bool(y)) => x == y
       case (Text(x), Text(y)) => x == y
       case (Ptr(x), Ptr(y)) => x == y
       case _ => false
  }

  /** Whether a value compares equal to itself: not so for NaN and for an unknown type tag. */
  predicate SelfEqual(v: Value) {
    && !v.payload.Unknown?
    && (v.payload.F64? ==> !IsNaN(v.payload.bits))
  }

  predicate UniqueKeys(kvs: seq<KeyValue>) {
    forall i, j :: 0 <= i < j < |kvs| ==> kvs[i].key != kvs[j].key
  }

  predicate Contains(kvs: seq<KeyValue>, kv: KeyValue) {
    exists j :: 0 <= j < |kvs| && kv.key == kvs[j].key && ValueEqual(kv.value, kvs[j].value)
  }

  /** What the nested-loop comparison answers, as a specification for MetadataEqual. */
  predicate SameMetadata(a: seq<KeyValue>, b: seq<KeyValue>) {
    && |a| == |b|
    && UniqueKeys(a)
    && UniqueKeys(b)
    && forall i :: 0 <= i < |a| ==> Contains(b, a[i])
  }

  method HasUniqueKeys(kvs: seq<KeyValue>) returns (unique: bool)
    ensures unique <==> UniqueKeys(kvs)
  {
    for i := 0 to |kvs|
      invariant forall k, j :: 0 <= k < i && k < j < |kvs| ==> kvs[k].key != kvs[j].key
    {
      for j := i + 1 to |kvs|
        invariant forall k :: i < k < j ==> kvs[i].key != kvs[k].key
      {
        if kvs[i].key == kvs[j].key {
          return false;
        }
      }
    }
    return true;
  }

  method MetadataEqual(a: seq<KeyValue>, b: seq<KeyValue>) returns (equal: bool)
    ensures equal <==> SameMetadata(a, b)
  {
    if |a| != |b| {
      return false;
    }
    var uniqueA := HasUniqueKeys(a);
    var uniqueB := HasUniqueKeys(b);
    if !uniqueA || !uniqueB {
      return false;
    }
    for i := 0 to |a|
      invariant forall k :: 0 <= k < i ==> Contains(b, a[k])
    {
      var found := false;
      for j := 0 to |b|
        invariant !found
        invariant forall k :: 0 <= k < j ==> !(a[i].key == b[k].key && ValueEqual(a[i].value, b[k].value))
      {
        if a[i].key == b[j].key && ValueEqual(a[i].value, b[j].value) {
          found := true;
          break;
        }
      }
      if !found {
        return false;
      }
    }
    return true;
  }

  // ---------------------------------------------------------------------------
  // The comparison decides equality of finite maps.

  function AsMap(kvs: seq<KeyValue>): map<u64, Value> {
    if |kvs| == 0 then map[]
    else
      var last := kvs[|kvs| - 1];
      AsMap(kvs[..|kvs| - 1])[last.key := last.value]
  }

  predicate MapsAgree(m: map<u64, Value>, n: map<u64, Value>) {
    && m.Keys == n.Keys
    && forall k :: k in m ==> ValueEqual(m[k], n[k])
  }

  lemma {:induction false} AsMapKeys(kvs: seq<KeyValue>, key: u64)
    ensures key in AsMap(kvs) <==> exists i :: 0 <= i < |kvs| && kvs[i].key == key
  {
    if |kvs| != 0 {
      var front := kvs[..|kvs| - 1];
      AsMapKeys(front, key);
      if i :| 0 <= i < |kvs| && kvs[i].key == key {
        assert i < |front| ==> front[i].key == key;
      }
      if i :| 0 <= i < |front| && front[i].key == key {
        assert kvs[i].key == key;
      }
    }
  }

  lemma {:induction false} AsMapIsFaithful(kvs: seq<KeyValue>)
    requires UniqueKeys(kvs)
    ensures |AsMap(kvs)| == |kvs|
    ensures forall i :: 0 <= i < |kvs| ==> kvs[i].key in AsMap(kvs) && AsMap(kvs)[kvs[i].key] == kvs[i].value
  {
    if |kvs| != 0 {
      var front := kvs[..|kvs| - 1];
      var last := kvs[|kvs| - 1];
      AsMapIsFaithful(front);
      AsMapKeys(front, last.key);
      assert last.key !in AsMap(front);
      forall i | 0 <= i < |kvs|
        ensures kvs[i].key in AsMap(kvs) && AsMap(kvs)[kvs[i].key] == kvs[i].value
      {
        if i < |front| {
          assert front[i] == kvs[i];
        }
      }
    }
  }

  /** Two sets of equal size, one inside the other, are the same set. */
  lemma SubsetOfEqualSize(s: set<u64>, t: set<u64>)
    requires s <= t && |s| == |t|
    ensures s == t
  {
    assert |t - s| == |t| - |s|;
    assert t - s == {};
  }

  /** On lists with unique keys, of any length and in any order, the nested loops decide map equality. */
  lemma ComparisonDecidesMapEquality(a: seq<KeyValue>, b: seq<KeyValue>)
    requires UniqueKeys(a) && UniqueKeys(b)
    ensures SameMetadata(a, b) <==> MapsAgree(AsMap(a), AsMap(b))
  {
    var m, n := AsMap(a), AsMap(b);
    AsMapIsFaithful(a);
    AsMapIsFaithful(b);
    assert |m.Keys| == |m| && |n.Keys| == |n|;
    if SameMetadata(a, b) {
      forall k | k in m
        ensures k in n && ValueEqual(m[k], n[k])
      {
        AsMapKeys(a, k);
        var i :| 0 <= i < |a| && a[i].key == k;
        assert Contains(b, a[i]);
      }
      SubsetOfEqualSize(m.Keys, n.Keys);
    }
    if MapsAgree(m, n) {
      forall i | 0 <= i < |a|
        ensures Contains(b, a[i])
      {
        assert a[i].key in n;
        AsMapKeys(b, a[i].key);
        var j :| 0 <= j < |b| && b[j].key == a[i].key;
      }
    }
  }

  lemma ComparisonSymmetric(a: seq<KeyValue>, b: seq<KeyValue>)
    ensures SameMetadata(a, b) <==> SameMetadata(b, a)
  {
    if UniqueKeys(a) && UniqueKeys(b) {
      ComparisonDecidesMapEquality(a, b);
      ComparisonDecidesMapEquality(b, a);
    }
  }

  lemma ComparisonTransitive(a: seq<KeyValue>, b: seq<KeyValue>, c: seq<KeyValue>)
    requires SameMetadata(a, b) && SameMetadata(b, c)
    ensures SameMetadata(a, c)
  {
    ComparisonDecidesMapEquality(a, b);
    ComparisonDecidesMapEquality(b, c);
    ComparisonDecidesMapEquality(a, c);
  }

  /** A list equals itself exactly when its keys are unique and every value equals itself. */
  lemma ComparisonReflexiveIff(a: seq<KeyValue>)
    ensures SameMetadata(a, a) <==> UniqueKeys(a) && forall i :: 0 <= i < |a| ==> SelfEqual(a[i].value)
  {
    if SameMetadata(a, a) {
      forall i | 0 <= i < |a|
        ensures SelfEqual(a[i].value)
      {
        assert Contains(a, a[i]);
      }
    }
    if UniqueKeys(a) && forall i :: 0 <= i < |a| ==> SelfEqual(a[i].value) {
      forall i | 0 <= i < |a|
        ensures Contains(a, a[i])
      {
        assert ValueEqual(a[i].value, a[i].value);
      }
    }
  }

  // ---------------------------------------------------------------------------

  /** First value under a key, which must then be an unsigned integer; the fallback when the key is absent. */
  function GetU64(kvs: seq<KeyValue>, key: u64, fallback: u64): Result<u64> {
    if |kvs| == 0 then Success(fallback)
    else if kvs[0].key == key then
      if kvs[0].value.payload.U64? then Success(kvs[0].value.payload.u64) else Failure(Inval)
    else GetU64(kvs[1..], key, fallback)
  }
}
