/** The attribute list of a tag: a PHP associative array from name to value,
    kept as a sequence of pairs in insertion order, which is the order in
    which the attributes are rendered. The map operations are stated for any
    key and value types; Tag uses them with strings. */
module Attributes {
  import opened Ascii
  import opened Results

  type Attr = (string, string)

  /** The keys, in order. */
  function Keys<K, V>(entries: seq<(K, V)>): (ks: seq<K>)
    ensures |ks| == |entries|
    ensures forall i :: 0 <= i < |entries| ==> ks[i] == entries[i].0
  {
    if entries == [] then [] else [entries[0].0] + Keys(entries[1..])
  }

  /** No key occurs twice: a PHP array is a map. */
  ghost predicate Distinct<K, V>(entries: seq<(K, V)>) {
    forall i, j :: 0 <= i < j < |entries| ==> entries[i].0 != entries[j].0
  }

  /** Every name is lower-case. */
  predicate LowerKeys(attrs: seq<Attr>) {
    forall i :: 0 <= i < |attrs| ==> IsLower(attrs[i].0)
  }

  /** The invariant Tag keeps: names are distinct and lower-case. */
  ghost predicate WellFormed(attrs: seq<Attr>) {
    Distinct(attrs) && LowerKeys(attrs)
  }

  /** `$attributes[$k] ?? null`. */
  function Get<K(==), V>(entries: seq<(K, V)>, k: K): (r: Option<V>)
    ensures r.None? <==> k !in Keys(entries)
    ensures r.Some? ==> exists i :: 0 <= i < |entries| && entries[i] == (k, r.value)
  {
    if entries == [] then None
    else if entries[0].0 == k then Some(entries[0].1)
    else Get(entries[1..], k)
  }

  /** `$attributes[$k] = $v`: a present key keeps its place and takes the new
      value; an absent one is added at the end (see PutAppends and PutInPlace). */
  function Put<K(==), V>(entries: seq<(K, V)>, k: K, v: V): (r: seq<(K, V)>)
    ensures |entries| <= |r| <= |entries| + 1
  {
    if entries == [] then [(k, v)]
    else if entries[0].0 == k then [(k, v)] + entries[1..]
    else [entries[0]] + Put(entries[1..], k, v)
  }

  /** A key that is not there yet goes to the end. */
  lemma {:induction false} PutAppends<K, V>(entries: seq<(K, V)>, k: K, v: V)
    requires k !in Keys(entries)
    ensures Put(entries, k, v) == entries + [(k, v)]
  {
    if entries != [] {
      assert Keys(entries)[0] == entries[0].0;
      assert k !in Keys(entries[1..]);
      PutAppends(entries[1..], k, v);
      assert entries == [entries[0]] + entries[1..];
    }
  }

  /** A key that is there keeps its place and takes the new value; every other
      entry stays as it was. */
  lemma {:induction false} PutInPlace<K, V>(entries: seq<(K, V)>, k: K, v: V, i: nat)
    requires Distinct(entries) && i < |entries| && entries[i].0 == k
    ensures Put(entries, k, v) == entries[i := (k, v)]
  {
    if i == 0 {
      assert entries[0 := (k, v)] == [(k, v)] + entries[1..];
    } else {
      var tail := entries[1..];
      assert entries[0].0 != k;
      DistinctTail(entries);
      PutInPlace(tail, k, v, i - 1);
      assert entries[i := (k, v)] == [entries[0]] + tail[i - 1 := (k, v)];
    }
  }

  /** Storing keeps keys distinct. */
  lemma PutDistinct<K, V>(entries: seq<(K, V)>, k: K, v: V)
    requires Distinct(entries)
    ensures Distinct(Put(entries, k, v))
    ensures Keys(Put(entries, k, v)) == if k in Keys(entries) then Keys(entries) else Keys(entries) + [k]
  {
    if k in Keys(entries) {
      var i :| 0 <= i < |entries| && Keys(entries)[i] == k;
      PutKeysInPlace(entries, k, v, i);
    } else {
      PutKeysAppend(entries, k, v);
    }
  }

  lemma PutKeysInPlace<K, V>(entries: seq<(K, V)>, k: K, v: V, i: nat)
    requires Distinct(entries) && i < |entries| && entries[i].0 == k
    ensures Distinct(Put(entries, k, v)) && Keys(Put(entries, k, v)) == Keys(entries)
  {
    PutInPlace(entries, k, v, i);
    KeysUpdate(entries, i, v);
  }

  /** Replacing a value in place keeps every key where it was. */
  lemma KeysUpdate<K, V>(entries: seq<(K, V)>, i: nat, v: V)
    requires i < |entries|
    ensures Keys(entries[i := (entries[i].0, v)]) == Keys(entries)
    ensures Distinct(entries) ==> Distinct(entries[i := (entries[i].0, v)])
  {
    var r := entries[i := (entries[i].0, v)];
    assert forall j :: 0 <= j < |r| ==> r[j].0 == entries[j].0;
  }

  lemma PutKeysAppend<K, V>(entries: seq<(K, V)>, k: K, v: V)
    requires Distinct(entries) && k !in Keys(entries)
    ensures Distinct(Put(entries, k, v)) && Keys(Put(entries, k, v)) == Keys(entries) + [k]
  {
    PutAppends(entries, k, v);
    KeysSnoc(entries, (k, v));
    DistinctSnoc(entries, (k, v));
  }

  lemma KeysSnoc<K, V>(entries: seq<(K, V)>, e: (K, V))
    ensures Keys(entries + [e]) == Keys(entries) + [e.0]
  {
    var r := entries + [e];
    assert forall j :: 0 <= j < |entries| ==> r[j] == entries[j];
  }

  lemma DistinctSnoc<K, V>(entries: seq<(K, V)>, e: (K, V))
    requires Distinct(entries) && e.0 !in Keys(entries)
    ensures Distinct(entries + [e])
  {
    var r := entries + [e];
    assert forall j :: 0 <= j < |entries| ==> r[j] == entries[j] && Keys(entries)[j] != e.0;
  }

  /** `unset($attributes[$k])`: drops the entry for `k`, if any, and keeps the
      order of the others. */
  function Remove<K(==), V>(entries: seq<(K, V)>, k: K): (r: seq<(K, V)>)
    ensures multiset(r) <= multiset(entries)
    ensures |r| <= |entries| <= |r| + 1
  {
    if entries == [] then []
    else
      assert entries == [entries[0]] + entries[1..];
      if entries[0].0 == k then entries[1..]
      else [entries[0]] + Remove(entries[1..], k)
  }

  /** The `foreach` of `setAttributes`: each pair in turn, its name lower-cased. */
  function PutAll(attrs: seq<Attr>, pairs: seq<Attr>): (r: seq<Attr>)
    ensures |attrs| <= |r| <= |attrs| + |pairs|
    decreases |pairs|
  {
    if pairs == [] then attrs
    else PutAll(Put(attrs, Lower(pairs[0].0), pairs[0].1), pairs[1..])
  }

  /** The value the last pair whose lower-cased name is `k` carries, if any. */
  function LastFor(pairs: seq<Attr>, k: string): Option<string> {
    if pairs == [] then None
    else match LastFor(pairs[1..], k)
      case Some(v) => Some(v)
      case None => if Lower(pairs[0].0) == k then Some(pairs[0].1) else None
  }

  /** Storing under a lower-case name keeps every name lower-case and distinct. */
  lemma PutWellFormed(attrs: seq<Attr>, k: string, v: string)
    requires WellFormed(attrs) && IsLower(k)
    ensures WellFormed(Put(attrs, k, v))
  {
    var r := Put(attrs, k, v);
    PutDistinct(attrs, k, v);
    assert LowerKeys(r) by {
      forall j | 0 <= j < |r| ensures IsLower(r[j].0) {
        assert r[j].0 == Keys(r)[j];
        if j == |attrs| {
          assert r[j].0 == k;
        } else {
          assert r[j].0 == Keys(attrs)[j] == attrs[j].0;
        }
      }
    }
  }

  /** Removing keeps every name lower-case and distinct. */
  lemma RemoveWellFormed(attrs: seq<Attr>, k: string)
    requires WellFormed(attrs)
    ensures WellFormed(Remove(attrs, k))
  {
    RemoveDistinct(attrs, k);
    RemoveLowerKeys(attrs, k);
  }

  lemma {:induction false} RemoveLowerKeys(attrs: seq<Attr>, k: string)
    requires LowerKeys(attrs)
    ensures LowerKeys(Remove(attrs, k))
  {
    if attrs != [] {
      var tail := attrs[1..];
      assert LowerKeys(tail) by {
        forall j | 0 <= j < |tail| ensures IsLower(tail[j].0) {
          assert tail[j] == attrs[j + 1];
        }
      }
      RemoveLowerKeys(tail, k);
    }
  }

  /** Removing keeps the remaining keys distinct. */
  lemma RemoveDistinct<K, V>(entries: seq<(K, V)>, k: K)
    requires Distinct(entries)
    ensures Distinct(Remove(entries, k))
  {
    if k !in Keys(entries) {
      RemoveAbsent(entries, k);
    } else {
      var i :| 0 <= i < |entries| && Keys(entries)[i] == k;
      RemoveAt(entries, k, i);
      DistinctDrop(entries, i);
    }
  }

  /** Dropping one entry keeps the others distinct. */
  lemma DistinctDrop<K, V>(entries: seq<(K, V)>, i: nat)
    requires Distinct(entries) && i < |entries|
    ensures Distinct(entries[..i] + entries[i + 1..])
  {
    var r := entries[..i] + entries[i + 1..];
    assert forall a :: 0 <= a < |r| ==> r[a] == entries[if a < i then a else a + 1];
  }

  lemma DistinctTail<K, V>(entries: seq<(K, V)>)
    requires Distinct(entries) && entries != []
    ensures Distinct(entries[1..])
  {
    var tail := entries[1..];
    forall a, b | 0 <= a < b < |tail| ensures tail[a].0 != tail[b].0 {
      assert tail[a] == entries[a + 1] && tail[b] == entries[b + 1];
    }
  }

  /** Removing a key that is not there changes nothing. */
  lemma {:induction false} RemoveAbsent<K, V>(entries: seq<(K, V)>, k: K)
    requires k !in Keys(entries)
    ensures Remove(entries, k) == entries
  {
    if entries != [] {
      assert Keys(entries)[0] == entries[0].0;
      assert k !in Keys(entries[1..]);
      RemoveAbsent(entries[1..], k);
      assert entries == [entries[0]] + entries[1..];
    }
  }

  /** Removing a key closes the gap its first occurrence leaves. */
  lemma {:induction false} RemoveAt<K, V>(entries: seq<(K, V)>, k: K, i: nat)
    requires i < |entries| && entries[i].0 == k
    requires forall j :: 0 <= j < i ==> entries[j].0 != k
    ensures Remove(entries, k) == entries[..i] + entries[i + 1..]
  {
    if i == 0 {
      assert entries[..0] + entries[1..] == entries[1..];
    } else {
      var tail := entries[1..];
      assert entries[0].0 != k && tail[i - 1].0 == k;
      assert Remove(entries, k) == [entries[0]] + Remove(tail, k);
      RemoveAt(tail, k, i - 1);
      DropAfterHead(entries, i);
    }
  }

  /** Dropping the element at a positive index commutes with taking the head off. */
  lemma DropAfterHead<T>(s: seq<T>, i: nat)
    requires 0 < i < |s|
    ensures [s[0]] + (s[1..][..i - 1] + s[1..][i..]) == s[..i] + s[i + 1..]
  {
    assert s[..i] == [s[0]] + s[1..][..i - 1];
    assert s[i + 1..] == s[1..][i..];
  }

  /** `setAttributes` keeps every name lower-case and distinct. */
  lemma {:induction false} PutAllWellFormed(attrs: seq<Attr>, pairs: seq<Attr>)
    requires WellFormed(attrs)
    ensures WellFormed(PutAll(attrs, pairs))
    decreases |pairs|
  {
    if pairs != [] {
      PutWellFormed(attrs, Lower(pairs[0].0), pairs[0].1);
      PutAllWellFormed(Put(attrs, Lower(pairs[0].0), pairs[0].1), pairs[1..]);
    }
  }

  /** In a list without repeated keys, a key's value is the one paired with it. */
  lemma GetDistinct<K, V>(entries: seq<(K, V)>, q: K)
    requires Distinct(entries)
    ensures forall i :: 0 <= i < |entries| && entries[i].0 == q ==> Get(entries, q) == Some(entries[i].1)
  {
    if entries != [] {
      GetDistinct(entries[1..], q);
      forall i | 0 <= i < |entries| && entries[i].0 == q
        ensures Get(entries, q) == Some(entries[i].1)
      {
        if i > 0 {
          assert entries[1..][i - 1] == entries[i];
        }
      }
    }
  }

  /** Map laws of `Put`: the stored key reads back the new value, every other
      key reads back what it did before. */
  lemma {:induction false} GetPut<K, V>(entries: seq<(K, V)>, k: K, v: V, q: K)
    ensures Get(Put(entries, k, v), q) == if q == k then Some(v) else Get(entries, q)
  {
    if entries == [] {
      assert [(k, v)][1..] == [];
    } else if entries[0].0 == k {
      assert ([(k, v)] + entries[1..])[1..] == entries[1..];
    } else {
      GetPut(entries[1..], k, v, q);
      assert ([entries[0]] + Put(entries[1..], k, v))[1..] == Put(entries[1..], k, v);
    }
  }

  /** Map laws of `Remove`: the removed key is gone, every other key reads
      back what it did before. */
  lemma {:induction false} GetRemove<K, V>(entries: seq<(K, V)>, k: K, q: K)
    requires Distinct(entries)
    ensures Get(Remove(entries, k), q) == if q == k then None else Get(entries, q)
  {
    if entries != [] {
      var tail := entries[1..];
      DistinctTail(entries);
      if entries[0].0 == k {
        assert Keys(entries)[0] == k;
        assert k !in Keys(tail) by {
          forall j | 0 <= j < |tail| ensures Keys(tail)[j] != k {
            assert tail[j] == entries[j + 1];
          }
        }
      } else {
        GetRemove(tail, k, q);
        assert ([entries[0]] + Remove(tail, k))[1..] == Remove(tail, k);
      }
    }
  }

  /** `setAttributes` as a whole: a name reads back the value of the last pair
      that spells it in any case, and otherwise what it read before. */
  lemma {:induction false} GetPutAll(attrs: seq<Attr>, pairs: seq<Attr>, q: string)
    requires Distinct(attrs)
    ensures Get(PutAll(attrs, pairs), q) ==
      match LastFor(pairs, q)
        case Some(v) => Some(v)
        case None => Get(attrs, q)
    decreases |pairs|
  {
    if pairs != [] {
      var next := Put(attrs, Lower(pairs[0].0), pairs[0].1);
      PutDistinct(attrs, Lower(pairs[0].0), pairs[0].1);
      GetPutAll(next, pairs[1..], q);
      GetPut(attrs, Lower(pairs[0].0), pairs[0].1, q);
    }
  }

  /** `setAttributes` never moves a name that was already there: the old
      names are, in order, the first names of the new list. */
  lemma {:induction false} PutAllKeepsOrder(attrs: seq<Attr>, pairs: seq<Attr>)
    requires Distinct(attrs)
    ensures |attrs| <= |PutAll(attrs, pairs)|
    ensures Keys(PutAll(attrs, pairs))[..|attrs|] == Keys(attrs)
    decreases |pairs|
  {
    if pairs != [] {
      var next := Put(attrs, Lower(pairs[0].0), pairs[0].1);
      PutDistinct(attrs, Lower(pairs[0].0), pairs[0].1);
      PutAllKeepsOrder(next, pairs[1..]);
      assert Keys(next)[..|attrs|] == Keys(attrs);
    }
  }
}
