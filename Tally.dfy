/**
 * The plain objects the pages fill in `forEach` loops and read back with
 * `Object.entries` / `Object.keys` / `Object.values`: the counters
 * `m[k] = (m[k] || 0) + x` and the records created on first sight of a key.
 *
 * An object is an association list in insertion order: assigning to a key that is
 * present replaces its value where it stands, assigning to a new key appends it.
 */
module Tally {
  import opened Types

  datatype Entry<K, V> = Entry(key: K, value: V)

  function Keys<K, V>(e: seq<Entry<K, V>>): (r: seq<K>)
    ensures |r| == |e|
    ensures forall i :: 0 <= i < |e| ==> r[i] == e[i].key
  {
    if e == [] then [] else [e[0].key] + Keys(e[1..])
  }

  function Values<K, V>(e: seq<Entry<K, V>>): (r: seq<V>)
    ensures |r| == |e|
    ensures forall i :: 0 <= i < |e| ==> r[i] == e[i].value
  {
    if e == [] then [] else [e[0].value] + Values(e[1..])
  }

  predicate Distinct<K(==)>(s: seq<K>) {
    forall i, j :: 0 <= i < j < |s| ==> s[i] != s[j]
  }

  /** `m[k]`: the value stored under `k`, if any. */
  function Find<K(==), V>(e: seq<Entry<K, V>>, k: K): Option<V> {
    if e == [] then None
    else if e[0].key == k then Some(e[0].value)
    else Find(e[1..], k)
  }

  /** A key is found exactly when it is one of the keys. */
  lemma {:induction false} FindKeys<K, V>(e: seq<Entry<K, V>>, k: K)
    ensures Find(e, k).Some? <==> k in Keys(e)
  {
    if e != [] {
      assert Keys(e) == [e[0].key] + Keys(e[1..]);
      FindKeys(e[1..], k);
    }
  }

  /** A value that a key finds is one of the values. */
  lemma {:induction false} FindValue<K, V>(e: seq<Entry<K, V>>, k: K)
    requires Find(e, k).Some?
    ensures Find(e, k).value in Values(e)
  {
    if e[0].key != k {
      FindValue(e[1..], k);
      var i :| 0 <= i < |e| - 1 && Values(e[1..])[i] == Find(e, k).value;
      assert Values(e)[i + 1] == Find(e, k).value;
    }
  }

  /** `m[k] = v` */
  function Put<K(==), V>(e: seq<Entry<K, V>>, k: K, v: V): seq<Entry<K, V>> {
    if e == [] then [Entry(k, v)]
    else if e[0].key == k then [Entry(k, v)] + e[1..]
    else [e[0]] + Put(e[1..], k, v)
  }

  /** A present key keeps its place; a new key goes at the end. */
  lemma {:induction false} PutKeys<K, V>(e: seq<Entry<K, V>>, k: K, v: V)
    ensures k in Keys(e) ==> Keys(Put(e, k, v)) == Keys(e)
    ensures k !in Keys(e) ==> Keys(Put(e, k, v)) == Keys(e) + [k]
  {
    if e != [] {
      assert Keys(e) == [e[0].key] + Keys(e[1..]);
      if e[0].key == k {
        assert Keys([Entry(k, v)] + e[1..]) == [k] + Keys(e[1..]);
      } else {
        var rest := Put(e[1..], k, v);
        PutKeys(e[1..], k, v);
        assert Keys([e[0]] + rest) == [e[0].key] + Keys(rest);
      }
    }
  }

  /** After `m[k] = v`, `k` holds `v` and every other key holds what it did before. */
  lemma {:induction false} PutFind<K, V>(e: seq<Entry<K, V>>, k: K, v: V, j: K)
    ensures Find(Put(e, k, v), j) == if j == k then Some(v) else Find(e, j)
  {
    if e != [] && e[0].key != k {
      PutFind(e[1..], k, v, j);
    }
  }

  lemma PutDistinct<K, V>(e: seq<Entry<K, V>>, k: K, v: V)
    requires Distinct(Keys(e))
    ensures Distinct(Keys(Put(e, k, v)))
  {
    var before := Keys(e);
    var after := Keys(Put(e, k, v));
    PutKeys(e, k, v);
    if k !in before {
      forall i, j | 0 <= i < j < |after| ensures after[i] != after[j] {
        if j == |before| {
          assert after[j] == k && after[i] == before[i];
        } else {
          assert after[i] == before[i] && after[j] == before[j];
        }
      }
    }
  }

  /** Writing a key twice keeps only the second write. */
  lemma {:induction false} PutPut<K, V>(e: seq<Entry<K, V>>, k: K, v: V, w: V)
    ensures Put(Put(e, k, v), k, w) == Put(e, k, w)
  {
    if e != [] && e[0].key != k {
      PutPut(e[1..], k, v, w);
      assert ([e[0]] + Put(e[1..], k, v))[1..] == Put(e[1..], k, v);
    }
  }

  /** Writing back the value a key already holds changes nothing. */
  lemma {:induction false} PutSame<K, V>(e: seq<Entry<K, V>>, k: K, v: V)
    requires Find(e, k) == Some(v)
    ensures Put(e, k, v) == e
  {
    if e != [] && e[0].key != k {
      PutSame(e[1..], k, v);
      assert e == [e[0]] + e[1..];
    } else if e != [] {
      assert e == [e[0]] + e[1..];
    }
  }

  /** With distinct keys, each entry is what its key finds. */
  lemma {:induction false} FindAt<K, V>(e: seq<Entry<K, V>>, i: int)
    requires Distinct(Keys(e)) && 0 <= i < |e|
    ensures Find(e, e[i].key) == Some(e[i].value)
  {
    if i > 0 {
      assert Distinct(Keys(e[1..])) by {
        forall a, b | 0 <= a < b < |e| - 1 ensures Keys(e[1..])[a] != Keys(e[1..])[b] {
          assert Keys(e)[a + 1] != Keys(e)[b + 1];
        }
      }
      assert Keys(e)[0] != Keys(e)[i];
      FindAt(e[1..], i - 1);
    }
  }

  // ----- counters -----

  /** `m[k] || 0` */
  function Get<K(==)>(e: seq<Entry<K, int>>, k: K): int {
    match Find(e, k)
    case Some(v) => v
    case None => 0
  }

  /** A key that is not there reads 0. */
  lemma GetAbsent<K>(e: seq<Entry<K, int>>, k: K)
    requires k !in Keys(e)
    ensures Get(e, k) == 0
  {
    FindKeys(e, k);
  }

  /** After `m[k] = v`, `k` reads `v` and every other key reads what it did before. */
  lemma PutGet<K>(e: seq<Entry<K, int>>, k: K, v: int, j: K)
    ensures Get(Put(e, k, v), j) == if j == k then v else Get(e, j)
  {
    PutFind(e, k, v, j);
  }

  /** `m[k] = (m[k] || 0) + d` */
  function Bump<K(==)>(e: seq<Entry<K, int>>, k: K, d: int): seq<Entry<K, int>> {
    Put(e, k, Get(e, k) + d)
  }

  /** The object after the loop has bumped, in order, the key of each pair by its value. */
  function TallyOf<K(==)>(pairs: seq<Entry<K, int>>): seq<Entry<K, int>> {
    if pairs == [] then []
    else Bump(TallyOf(pairs[..|pairs| - 1]), pairs[|pairs| - 1].key, pairs[|pairs| - 1].value)
  }

  /** One more pair bumps its key once more. */
  lemma TallyOfSnoc<K>(pairs: seq<Entry<K, int>>, e: Entry<K, int>)
    ensures TallyOf(pairs + [e]) == Bump(TallyOf(pairs), e.key, e.value)
  {
    assert (pairs + [e])[..|pairs|] == pairs;
  }

  /** The sum of the values of the pairs whose key is `k`. */
  function SumFor<K(==)>(pairs: seq<Entry<K, int>>, k: K): int {
    if pairs == [] then 0
    else SumFor(pairs[..|pairs| - 1], k) + (if pairs[|pairs| - 1].key == k then pairs[|pairs| - 1].value else 0)
  }

  /** The sum of all values. */
  function Total<K(==)>(e: seq<Entry<K, int>>): int {
    if e == [] then 0 else Total(e[..|e| - 1]) + e[|e| - 1].value
  }

  /** Each key's value is the sum of the values bumped into it; an unseen key reads 0. */
  lemma {:induction false} TallyGet<K>(pairs: seq<Entry<K, int>>, k: K)
    ensures Get(TallyOf(pairs), k) == SumFor(pairs, k)
  {
    if pairs != [] {
      TallyGet(pairs[..|pairs| - 1], k);
      TallyGetStep(pairs, k);
    }
  }

  lemma {:induction false} TallyGetStep<K>(pairs: seq<Entry<K, int>>, k: K)
    requires pairs != []
    requires Get(TallyOf(pairs[..|pairs| - 1]), k) == SumFor(pairs[..|pairs| - 1], k)
    ensures Get(TallyOf(pairs), k) == SumFor(pairs, k)
  {
    var init := pairs[..|pairs| - 1];
    var last := pairs[|pairs| - 1];
    var before := TallyOf(init);
    var v := Get(before, last.key) + last.value;
    var after := TallyOf(pairs);
    assert Get(after, k) == (if last.key == k then v else Get(before, k)) by {
      assert after == Put(before, last.key, v);
      PutGet(before, last.key, v, k);
    }
    assert SumFor(pairs, k) == SumFor(init, k) + (if last.key == k then last.value else 0);
  }

  /** The keys are exactly the keys seen, each once, in the order first seen. */
  lemma {:induction false} TallyKeys<K>(pairs: seq<Entry<K, int>>)
    ensures Distinct(Keys(TallyOf(pairs)))
    ensures forall k :: k in Keys(TallyOf(pairs)) <==> k in Keys(pairs)
  {
    if pairs != [] {
      var init := pairs[..|pairs| - 1];
      var last := pairs[|pairs| - 1];
      TallyKeys(init);
      var before := TallyOf(init);
      var v := Get(before, last.key) + last.value;
      assert TallyOf(pairs) == Put(before, last.key, v);
      PutDistinct(before, last.key, v);
      PutKeys(before, last.key, v);
      assert pairs == init + [last];
      assert Keys(pairs) == Keys(init) + [last.key];
      assert forall k :: k in Keys(TallyOf(pairs)) <==> k in Keys(before) || k == last.key;
      forall k ensures k in Keys(TallyOf(pairs)) <==> k in Keys(pairs) {
        assert k in Keys(pairs) <==> k in Keys(init) || k == last.key;
      }
    }
  }

  lemma {:induction false} TotalAppend<K>(a: seq<Entry<K, int>>, b: seq<Entry<K, int>>)
    ensures Total(a + b) == Total(a) + Total(b)
    decreases |b|
  {
    if b == [] {
      assert a + b == a;
    } else {
      assert (a + b)[..|a + b| - 1] == a + b[..|b| - 1];
      assert (a + b)[|a + b| - 1] == b[|b| - 1];
      TotalAppend(a, b[..|b| - 1]);
    }
  }

  /** Replacing the value of a key present once changes the total by the difference. */
  lemma {:induction false} PutTotal<K>(e: seq<Entry<K, int>>, k: K, v: int)
    requires Distinct(Keys(e))
    ensures Total(Put(e, k, v)) == Total(e) - Get(e, k) + v
  {
    if e == [] {
      assert Total([Entry(k, v)]) == Total(e) + v;
    } else {
      var rest := e[1..];
      assert e == [e[0]] + rest;
      TotalAppend([e[0]], rest);
      assert Total([e[0]]) == e[0].value by {
        assert [e[0]][..0] == [];
      }
      if e[0].key == k {
        TotalAppend([Entry(k, v)], rest);
        assert Total([Entry(k, v)]) == v by {
          assert [Entry(k, v)][..0] == [];
        }
      } else {
        assert Distinct(Keys(rest)) by {
          forall i, j | 0 <= i < j < |rest| ensures Keys(rest)[i] != Keys(rest)[j] {
            assert Keys(e)[i + 1] != Keys(e)[j + 1];
          }
        }
        PutTotal(rest, k, v);
        TotalAppend([e[0]], Put(rest, k, v));
      }
    }
  }

  /** Nothing is lost: the values of the object add up to the sum of everything bumped. */
  lemma {:induction false} TallyTotal<K>(pairs: seq<Entry<K, int>>)
    ensures Total(TallyOf(pairs)) == Total(pairs)
  {
    if pairs != [] {
      TallyTotal(pairs[..|pairs| - 1]);
      TallyTotalStep(pairs);
    }
  }

  lemma {:induction false} TallyTotalStep<K>(pairs: seq<Entry<K, int>>)
    requires pairs != []
    requires Total(TallyOf(pairs[..|pairs| - 1])) == Total(pairs[..|pairs| - 1])
    ensures Total(TallyOf(pairs)) == Total(pairs)
  {
    var init := pairs[..|pairs| - 1];
    var last := pairs[|pairs| - 1];
    var before := TallyOf(init);
    var v := Get(before, last.key) + last.value;
    assert Total(TallyOf(pairs)) == Total(before) - Get(before, last.key) + v by {
      assert TallyOf(pairs) == Put(before, last.key, v);
      TallyKeys(init);
      PutTotal(before, last.key, v);
    }
  }
  // ----- `Array.from(new Set(xs))` -----

  /** The distinct elements of `s`, each where it first occurs. */
  function Dedup<K(==)>(s: seq<K>): seq<K> {
    if s == [] then []
    else
      var rest := Dedup(s[..|s| - 1]);
      if s[|s| - 1] in rest then rest else rest + [s[|s| - 1]]
  }

  /** The same elements, each once; an already distinct prefix comes first unchanged. */
  lemma {:induction false} DedupLaws<K>(s: seq<K>)
    ensures Distinct(Dedup(s))
    ensures forall x :: x in Dedup(s) <==> x in s
  {
    if s != [] {
      var init := s[..|s| - 1];
      DedupLaws(init);
      assert s == init + [s[|s| - 1]];
      var rest := Dedup(init);
      if s[|s| - 1] !in rest {
        var r := rest + [s[|s| - 1]];
        forall i, j | 0 <= i < j < |r| ensures r[i] != r[j] {
          if j == |rest| {
            assert r[i] == rest[i];
          } else {
            assert r[i] == rest[i] && r[j] == rest[j];
          }
        }
      }
    }
  }

  /** Deduplicating `a + b` for a distinct `a` starts with `a` unchanged. */
  lemma {:induction false} DedupOfDistinct<K>(a: seq<K>, b: seq<K>)
    requires Distinct(a)
    ensures |a| <= |Dedup(a + b)| && Dedup(a + b)[..|a|] == a
    decreases |b|
  {
    if b == [] {
      assert a + b == a;
      DedupFixed(a);
    } else {
      var init := b[..|b| - 1];
      assert (a + b)[..|a + b| - 1] == a + init;
      DedupOfDistinct(a, init);
      var rest := Dedup(a + init);
      assert rest[..|a|] == a;
      if (a + b)[|a + b| - 1] !in rest {
        assert (rest + [(a + b)[|a + b| - 1]])[..|a|] == rest[..|a|];
      }
    }
  }

  /** A distinct sequence is its own dedup. */
  lemma {:induction false} DedupFixed<K>(a: seq<K>)
    requires Distinct(a)
    ensures Dedup(a) == a
  {
    if a != [] {
      var init := a[..|a| - 1];
      assert Distinct(init) by {
        forall i, j | 0 <= i < j < |init| ensures init[i] != init[j] {
          assert init[i] == a[i] && init[j] == a[j];
        }
      }
      DedupFixed(init);
      assert a[|a| - 1] !in init by {
        forall k | 0 <= k < |init| ensures init[k] != a[|a| - 1] {
          assert init[k] == a[k];
        }
      }
      assert init + [a[|a| - 1]] == a;
    }
  }
}
