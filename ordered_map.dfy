/**
 * Insertion-ordered maps as a list of entries: the semantics shared by a
 * JavaScript `Map` and a Python `dict`. Setting a key that is already present
 * replaces its value where it stands; setting a new key appends it. Building a
 * map from a list of entries sets them one after the other, so a key keeps the
 * position of its first entry and the value of its last.
 */
module OrderedMap {
  import opened Wrappers

  function Keys<K, V>(m: seq<(K, V)>): (ks: seq<K>)
    ensures |ks| == |m|
    ensures forall i :: 0 <= i < |m| ==> ks[i] == m[i].0
  {
    if m == [] then [] else [m[0].0] + Keys(m[1..])
  }

  /** The keys of all entries but the last, followed by the last key. */
  lemma KeysOfPrefix<K, V>(es: seq<(K, V)>)
    requires es != []
    ensures Keys(es) == Keys(es[..|es| - 1]) + [es[|es| - 1].0]
  {
    var pre := es[..|es| - 1];
    var a, b := Keys(es), Keys(pre) + [es[|es| - 1].0];
    assert |a| == |b|;
    forall i | 0 <= i < |a| ensures a[i] == b[i] {
      if i < |pre| {
        assert b[i] == Keys(pre)[i] == pre[i].0;
      }
    }
  }

  predicate Distinct<T(==)>(s: seq<T>) {
    forall i, j :: 0 <= i < j < |s| ==> s[i] != s[j]
  }

  /** The value stored under `k` (the first entry with that key), if any. */
  function Get<K(==), V>(m: seq<(K, V)>, k: K): (r: Option<V>)
    ensures r.None? <==> k !in Keys(m)
  {
    if m == [] then None
    else if m[0].0 == k then Some(m[0].1)
    else Get(m[1..], k)
  }

  /** Sets `k` to `v`: in place when `k` is present, appended otherwise. */
  function Put<K(==), V>(m: seq<(K, V)>, k: K, v: V): seq<(K, V)> {
    if m == [] then [(k, v)]
    else if m[0].0 == k then [(k, v)] + m[1..]
    else [m[0]] + Put(m[1..], k, v)
  }

  /** Setting a key keeps the keys in place and appends the key when it is new. */
  lemma {:induction false} PutKeys<K, V>(m: seq<(K, V)>, k: K, v: V)
    ensures Keys(Put(m, k, v)) == if k in Keys(m) then Keys(m) else Keys(m) + [k]
  {
    if m != [] {
      var r := Put(m, k, v);
      assert r[1..] == if m[0].0 == k then m[1..] else Put(m[1..], k, v);
      assert Keys(r) == [k] + Keys(r[1..]) || Keys(r) == [m[0].0] + Keys(r[1..]);
      assert Keys(m) == [m[0].0] + Keys(m[1..]);
      if m[0].0 != k {
        PutKeys(m[1..], k, v);
        assert k in Keys(m) <==> k in Keys(m[1..]);
      }
    }
  }

  /** After setting `k` to `v`, `k` maps to `v` and every other key to what it mapped to before. */
  lemma {:induction false} PutGet<K, V>(m: seq<(K, V)>, k: K, v: V, key: K)
    ensures Get(Put(m, k, v), key) == if key == k then Some(v) else Get(m, key)
  {
    if m != [] && m[0].0 != k {
      var r := Put(m, k, v);
      assert r[0] == m[0] && r[1..] == Put(m[1..], k, v);
      PutGet(m[1..], k, v, key);
    } else if m != [] {
      var r := Put(m, k, v);
      assert r[1..] == m[1..];
    }
  }

  /** The map obtained by setting the entries one after the other (`new Map(entries)`, `dict(pairs)`). */
  function FromEntries<K(==), V>(es: seq<(K, V)>): (m: seq<(K, V)>)
    ensures Distinct(Keys(m))
  {
    if es == [] then []
    else
      var last := es[|es| - 1];
      var pre := FromEntries(es[..|es| - 1]);
      PutKeys(pre, last.0, last.1);
      assert last.0 !in Keys(pre) ==> Distinct(Keys(pre) + [last.0]) by {
        if last.0 !in Keys(pre) {
          var ks := Keys(pre) + [last.0];
          forall i, j | 0 <= i < j < |ks| ensures ks[i] != ks[j] {
            assert ks[i] == Keys(pre)[i] && Keys(pre)[i] in Keys(pre);
            if j < |ks| - 1 {
              assert ks[j] == Keys(pre)[j];
            }
          }
        }
      }
      Put(pre, last.0, last.1)
  }

  /** The position of the first occurrence of `x` in `s`. */
  function FirstIndex<T(==)>(s: seq<T>, x: T): (i: nat)
    requires x in s
    ensures i < |s| && s[i] == x && x !in s[..i]
  {
    if s[0] == x then 0
    else
      var i := FirstIndex(s[1..], x);
      assert s[..i + 1] == [s[0]] + s[1..][..i];
      i + 1
  }

  /** Appending an element does not move the first occurrence of one already present. */
  lemma {:induction false} FirstIndexAppend<T>(s: seq<T>, y: T, x: T)
    requires x in s
    ensures FirstIndex(s + [y], x) == FirstIndex(s, x)
  {
    if s[0] != x {
      assert (s + [y])[1..] == s[1..] + [y];
      FirstIndexAppend(s[1..], y, x);
    }
  }

  /** A new element appended first occurs at the end. */
  lemma {:induction false} FirstIndexAppendNew<T>(s: seq<T>, x: T)
    requires x !in s
    ensures FirstIndex(s + [x], x) == |s|
  {
    if s != [] {
      assert (s + [x])[0] == s[0];
      assert (s + [x])[1..] == s[1..] + [x];
      FirstIndexAppendNew(s[1..], x);
    }
  }

  /** A map built from entries has exactly the keys that the entries mention. */
  lemma {:induction false} FromEntriesKeySet<K(!new), V>(es: seq<(K, V)>)
    ensures forall k :: k in Keys(FromEntries(es)) <==> k in Keys(es)
  {
    if es != [] {
      var pre := es[..|es| - 1];
      FromEntriesKeySet(pre);
      PutKeys(FromEntries(pre), es[|es| - 1].0, es[|es| - 1].1);
      KeysOfPrefix(es);
    }
  }

  /** Every element of `ks` occurs in `src`, and `ks` lists them by increasing first occurrence in `src`. */
  predicate ListedByFirstOccurrence<T(==)>(ks: seq<T>, src: seq<T>) {
    && (forall i :: 0 <= i < |ks| ==> ks[i] in src)
    && forall i, j :: 0 <= i < j < |ks| ==> FirstIndex(src, ks[i]) < FirstIndex(src, ks[j])
  }

  /** Appending an element moves the first occurrence of nothing already present. */
  lemma FirstIndexAppendAll<T>(src: seq<T>, k: T)
    ensures forall x :: x in src ==> FirstIndex(src + [k], x) == FirstIndex(src, x)
  {
    forall x | x in src
      ensures FirstIndex(src + [k], x) == FirstIndex(src, x)
    {
      FirstIndexAppend(src, k, x);
    }
  }

  /** Appending an element to the source keeps a listing by first occurrence. */
  lemma ListedAfterAppend<T>(ks: seq<T>, src: seq<T>, k: T)
    requires ListedByFirstOccurrence(ks, src)
    ensures ListedByFirstOccurrence(ks, src + [k])
  {
    FirstIndexAppendAll(src, k);
    forall i | 0 <= i < |ks| ensures ks[i] in src + [k] && FirstIndex(src + [k], ks[i]) == FirstIndex(src, ks[i]) {
    }
  }

  /** An element new to the source, appended to both, is listed last. */
  lemma ListedAfterAppendNew<T>(ks: seq<T>, src: seq<T>, k: T)
    requires ListedByFirstOccurrence(ks, src) && k !in src
    ensures ListedByFirstOccurrence(ks + [k], src + [k])
  {
    ListedAfterAppend(ks, src, k);
    FirstIndexAppendNew(src, k);
    var after := ks + [k];
    forall i, j | 0 <= i < j < |after|
      ensures FirstIndex(src + [k], after[i]) < FirstIndex(src + [k], after[j])
    {
      assert after[i] == ks[i];
      if j < |ks| {
        assert after[j] == ks[j];
      }
    }
  }

  /** One `Put` step keeps the keys listed by first occurrence among the entries so far. */
  lemma ListedByFirstOccurrenceStep<T>(ks: seq<T>, src: seq<T>, k: T)
    requires ListedByFirstOccurrence(ks, src)
    requires k in ks ==> k in src
    requires k !in ks ==> k !in src
    ensures ListedByFirstOccurrence(if k in ks then ks else ks + [k], src + [k])
  {
    if k in ks {
      ListedAfterAppend(ks, src, k);
    } else {
      ListedAfterAppendNew(ks, src, k);
    }
  }

  /**
   * The keys of a map built from entries are listed in the order in which
   * each first occurs among the entries.
   */
  lemma {:induction false} FromEntriesKeyOrder<K(!new), V>(es: seq<(K, V)>)
    ensures ListedByFirstOccurrence(Keys(FromEntries(es)), Keys(es))
  {
    if es != [] {
      var pre := es[..|es| - 1];
      var k := es[|es| - 1].0;
      var m := FromEntries(pre);
      FromEntriesKeyOrder(pre);
      FromEntriesKeySet(pre);
      var after := if k in Keys(m) then Keys(m) else Keys(m) + [k];
      PutKeys(m, k, es[|es| - 1].1);
      KeysOfPrefix(es);
      assert k in Keys(m) <==> k in Keys(pre);
      ListedByFirstOccurrenceStep(Keys(m), Keys(pre), k);
    }
  }

  /** An entry that no later entry overrides decides the value of its key. */
  lemma {:induction false} FromEntriesLast<K(!new), V>(es: seq<(K, V)>, i: nat)
    requires i < |es|
    requires forall j :: i < j < |es| ==> es[j].0 != es[i].0
    ensures Get(FromEntries(es), es[i].0) == Some(es[i].1)
  {
    var pre := es[..|es| - 1];
    PutGet(FromEntries(pre), es[|es| - 1].0, es[|es| - 1].1, es[i].0);
    if i < |es| - 1 {
      assert pre[i] == es[i];
      FromEntriesLast(pre, i);
    }
  }

  /** A key that no entry mentions is absent. */
  lemma FromEntriesAbsent<K(!new), V>(es: seq<(K, V)>, k: K)
    requires k !in Keys(es)
    ensures Get(FromEntries(es), k).None?
  {
    FromEntriesKeySet(es);
  }
}
