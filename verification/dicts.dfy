/** Python's `dict` as an ordered association list: entries keep insertion order, an
    assignment to an existing key keeps its position, and `Distinct` holds of every dict
    the program can build. */
module Dicts {
  import opened Wrappers

  type Dict<V> = seq<(string, V)>

  function Keys<V>(d: Dict<V>): (ks: seq<string>)
    ensures |ks| == |d|
  {
    if |d| == 0 then [] else [d[0].0] + Keys(d[1..])
  }

  lemma {:induction false} KeyAt<V>(d: Dict<V>, i: nat)
    requires i < |d|
    ensures Keys(d)[i] == d[i].0
    decreases i
  {
    if i > 0 {
      KeyAt(d[1..], i - 1);
    }
  }

  /** No key occurs twice. */
  ghost predicate Distinct<V>(d: Dict<V>) {
    |d| == 0 || (d[0].0 !in Keys(d[1..]) && Distinct(d[1..]))
  }

  /** `d.get(k)`: the value of the first entry with key `k`. */
  function Get<V>(d: Dict<V>, k: string): (r: Option<V>)
    ensures r.Some? <==> k in Keys(d)
    ensures r.Some? ==> (k, r.value) in d
  {
    if |d| == 0 then None
    else if d[0].0 == k then Some(d[0].1)
    else
      assert Keys(d) == [d[0].0] + Keys(d[1..]);
      Get(d[1..], k)
  }

  /** `d[k] = v`: overwrite in place when the key exists, otherwise append. */
  function Set<V>(d: Dict<V>, k: string, v: V): (r: Dict<V>)
    ensures Get(r, k) == Some(v)
    ensures forall k' :: k' != k ==> Get(r, k') == Get(d, k')
    ensures k in Keys(d) ==> Keys(r) == Keys(d)
    ensures k !in Keys(d) ==> Keys(r) == Keys(d) + [k]
    ensures Distinct(d) ==> Distinct(r)
  {
    if |d| == 0 then [(k, v)]
    else
      assert Keys(d) == [d[0].0] + Keys(d[1..]);
      if d[0].0 == k then [(k, v)] + d[1..]
      else [d[0]] + Set(d[1..], k, v)
  }

  /** The dict left by `d.pop(k, None)`: every entry with key `k` dropped, the rest in order. */
  function Remove<V>(d: Dict<V>, k: string): (r: Dict<V>)
    ensures Get(r, k) == None
    ensures forall k' :: k' != k ==> Get(r, k') == Get(d, k')
    ensures forall k' :: k' in Keys(r) <==> k' in Keys(d) && k' != k
    ensures k !in Keys(d) ==> r == d
    ensures Distinct(d) ==> Distinct(r)
    ensures Distinct(d) && k in Keys(d) ==> |r| == |d| - 1
  {
    if |d| == 0 then []
    else
      assert Keys(d) == [d[0].0] + Keys(d[1..]);
      var rest := Remove(d[1..], k);
      if d[0].0 == k then
        assert Distinct(d) ==> k !in Keys(d[1..]);
        rest
      else
        var r := [d[0]] + rest;
        assert Keys(r) == [d[0].0] + Keys(rest);
        r
  }

  /** `d.update(e)`: the entries of `e` assigned into `d` one after another. */
  function Update<V>(d: Dict<V>, e: Dict<V>): (r: Dict<V>)
    ensures Distinct(d) ==> Distinct(r)
    decreases |e|
  {
    if |e| == 0 then d
    else
      assert Keys(e) == [e[0].0] + Keys(e[1..]);
      Update(Set(d, e[0].0, e[0].1), e[1..])
  }

  /** A dict built from a sequence of pairs, as `dict(pairs)` or a dict comprehension does. */
  function FromPairs<V>(e: Dict<V>): (r: Dict<V>)
    ensures Distinct(r)
  {
    Update([], e)
  }

  /** The value `d.update(e)` holds for `k`: `e`'s when `e` has the key, otherwise `d`'s. */
  lemma {:induction false} UpdateGet<V>(d: Dict<V>, e: Dict<V>, k: string)
    requires Distinct(e)
    ensures Get(Update(d, e), k) == if k in Keys(e) then Get(e, k) else Get(d, k)
    decreases |e|
  {
    if |e| > 0 {
      assert Keys(e) == [e[0].0] + Keys(e[1..]);
      assert Distinct(e[1..]);
      UpdateGet(Set(d, e[0].0, e[0].1), e[1..], k);
      if e[0].0 == k {
        assert k !in Keys(e[1..]);
      }
    }
  }

  /** Building a dict from pairs whose keys are already distinct gives back the same pairs. */
  lemma {:induction false} FromDistinctPairs<V>(e: Dict<V>)
    requires Distinct(e)
    ensures FromPairs(e) == e
  {
    UpdateAppendsFresh([], e);
  }

  lemma {:induction false} UpdateAppendsFresh<V>(d: Dict<V>, e: Dict<V>)
    requires Distinct(e)
    requires forall k :: k in Keys(e) ==> k !in Keys(d)
    ensures Update(d, e) == d + e
    decreases |e|
  {
    if |e| > 0 {
      var d' := d + [e[0]];
      assert Update(d, e) == Update(d', e[1..]) by {
        assert e[0].0 in Keys(e);
        SetAppendsFresh(d, e[0].0, e[0].1);
      }
      assert forall k :: k in Keys(e[1..]) ==> k !in Keys(d') by {
        KeysConcat(d, [e[0]]);
        forall k | k in Keys(e[1..])
          ensures k !in Keys(d')
        {
          assert k in Keys(e);
        }
      }
      UpdateAppendsFresh(d', e[1..]);
      AppendShift(d, e);
    }
  }

  lemma {:induction false} SetAppendsFresh<V>(d: Dict<V>, k: string, v: V)
    requires k !in Keys(d)
    ensures Set(d, k, v) == d + [(k, v)]
    decreases |d|
  {
    if |d| > 0 {
      var tail := d[1..];
      assert d[0].0 != k && k !in Keys(tail) by {
        assert Keys(d) == [d[0].0] + Keys(tail);
      }
      SetAppendsFresh(tail, k, v);
      assert [d[0]] + (tail + [(k, v)]) == d + [(k, v)] by {
        assert [d[0]] + tail == d;
      }
    }
  }

  lemma AppendShift<T>(d: seq<T>, e: seq<T>)
    requires |e| > 0
    ensures d + e == (d + [e[0]]) + e[1..]
  {
    assert e == [e[0]] + e[1..];
  }

  lemma {:induction false} KeysConcat<V>(a: Dict<V>, b: Dict<V>)
    ensures Keys(a + b) == Keys(a) + Keys(b)
    decreases |a|
  {
    if |a| > 0 {
      assert (a + b)[1..] == a[1..] + b;
      KeysConcat(a[1..], b);
      calc {
        Keys(a + b);
        [a[0].0] + Keys(a[1..] + b);
        [a[0].0] + (Keys(a[1..]) + Keys(b));
        ([a[0].0] + Keys(a[1..])) + Keys(b);
        Keys(a) + Keys(b);
      }
    } else {
      assert a + b == b;
    }
  }

  /** After `d[key] = v` the keys are those of `d` and `key`. */
  lemma SetKeysIn<V>(d: Dict<V>, key: string, v: V, k: string)
    ensures k in Keys(Set(d, key, v)) <==> k in Keys(d) || k == key
  {
    if key !in Keys(d) {
      assert Keys(Set(d, key, v)) == Keys(d) + [key];
    }
  }

  /** The keys of a non-empty dict: those before its last entry, and the last entry's. */
  lemma KeysInit<V>(d: Dict<V>, k: string)
    requires |d| > 0
    ensures k in Keys(d) <==> k in Keys(d[..|d| - 1]) || k == d[|d| - 1].0
  {
    var n := |d| - 1;
    assert d[..n] + d[n..] == d;
    KeysConcat(d[..n], d[n..]);
    assert Keys(d[n..]) == [d[n].0] + Keys(d[n..][1..]);
  }

  /** After `d.update(e)` the keys are exactly those of `d` and of `e`. */
  lemma {:induction false} UpdateKeys<V>(d: Dict<V>, e: Dict<V>, k: string)
    ensures k in Keys(Update(d, e)) <==> k in Keys(d) || k in Keys(e)
    decreases |e|
  {
    if |e| > 0 {
      UpdateKeys(Set(d, e[0].0, e[0].1), e[1..], k);
    }
  }

  /** Every entry of `d.update(e)` was an entry of `d` or of `e`. */
  lemma {:induction false} UpdateEntries<V>(d: Dict<V>, e: Dict<V>, p: (string, V))
    requires p in Update(d, e)
    ensures p in d || p in e
    decreases |e|
  {
    if |e| > 0 {
      var d' := Set(d, e[0].0, e[0].1);
      UpdateEntries(d', e[1..], p);
      if p in d' {
        SetEntries(d, e[0].0, e[0].1, p);
      }
    }
  }

  lemma {:induction false} SetEntries<V>(d: Dict<V>, k: string, v: V, p: (string, V))
    requires p in Set(d, k, v)
    ensures p in d || p == (k, v)
    decreases |d|
  {
    if |d| > 0 && d[0].0 != k && p != d[0] {
      SetEntries(d[1..], k, v, p);
    }
  }
  /** A key is present exactly when some entry carries it. */
  lemma {:induction false} InKeys<V>(d: Dict<V>, k: string)
    ensures k in Keys(d) <==> exists i :: 0 <= i < |d| && d[i].0 == k
    decreases |d|
  {
    if |d| > 0 {
      InKeys(d[1..], k);
      assert Keys(d) == [d[0].0] + Keys(d[1..]);
      assert forall i :: 1 <= i < |d| ==> d[i] == d[1..][i - 1];
      if exists i :: 0 <= i < |d[1..]| && d[1..][i].0 == k {
        var i :| 0 <= i < |d[1..]| && d[1..][i].0 == k;
        assert d[i + 1].0 == k;
      }
    }
  }

  /** Lookup finds entry `i` when no earlier entry carries its key. */
  lemma {:induction false} GetAt<V>(d: Dict<V>, i: nat)
    requires i < |d|
    requires forall j :: 0 <= j < i ==> d[j].0 != d[i].0
    ensures Get(d, d[i].0) == Some(d[i].1)
    decreases i
  {
    if i > 0 {
      GetAt(d[1..], i - 1);
    }
  }

  /** Pairwise different keys make a dict. */
  lemma {:induction false} DistinctByIndex<V>(d: Dict<V>)
    requires forall i, j :: 0 <= i < j < |d| ==> d[i].0 != d[j].0
    ensures Distinct(d)
    decreases |d|
  {
    if |d| > 0 {
      DistinctByIndex(d[1..]);
      InKeys(d[1..], d[0].0);
    }
  }
  /** The value of the last entry with key `k`: what a sequence of assignments leaves. */
  function LastValue<V>(e: Dict<V>, k: string): (r: Option<V>)
    ensures r.Some? ==> (k, r.value) in e
    ensures r.None? ==> forall i :: 0 <= i < |e| ==> e[i].0 != k
    decreases |e|
  {
    if |e| == 0 then None
    else if e[|e| - 1].0 == k then Some(e[|e| - 1].1)
    else
      assert forall i :: 0 <= i < |e| - 1 ==> e[..|e| - 1][i] == e[i];
      LastValue(e[..|e| - 1], k)
  }

  /** The last value in a concatenation comes from the second part when it has the key. */
  lemma {:induction false} LastValueConcat<V>(a: Dict<V>, b: Dict<V>, k: string)
    ensures LastValue(a + b, k) == if LastValue(b, k).Some? then LastValue(b, k) else LastValue(a, k)
    decreases |b|
  {
    if |b| == 0 {
      assert a + b == a;
    } else {
      var n := |b| - 1;
      assert (a + b)[..|a + b| - 1] == a + b[..n];
      LastValueConcat(a, b[..n], k);
    }
  }

  /** Mapping every value of a sequence of pairs maps the last value of each key. */
  lemma {:induction false} LastValueMap<U, V>(e: Dict<U>, f: U -> V, mapped: Dict<V>, k: string)
    requires |mapped| == |e|
    requires forall i :: 0 <= i < |e| ==> mapped[i] == (e[i].0, f(e[i].1))
    ensures LastValue(mapped, k) == if LastValue(e, k).Some? then Some(f(LastValue(e, k).value)) else None
    decreases |e|
  {
    if |e| > 0 {
      var n := |e| - 1;
      assert forall i :: 0 <= i < n ==> mapped[..n][i] == mapped[i] && e[..n][i] == e[i];
      LastValueMap(e[..n], f, mapped[..n], k);
      assert mapped[n].0 == e[n].0;
    }
  }

  /** Entry `i` supplies the last value of its key when no later entry carries that key. */
  lemma {:induction false} LastValueAt<V>(e: Dict<V>, i: nat)
    requires i < |e|
    requires forall j :: i < j < |e| ==> e[j].0 != e[i].0
    ensures LastValue(e, e[i].0) == Some(e[i].1)
    decreases |e|
  {
    var n := |e| - 1;
    if i < n {
      assert forall j :: i < j < n ==> e[..n][j] == e[j];
      LastValueAt(e[..n], i);
    }
  }

  /** In a dict the last value of a key is the one lookup finds. */
  lemma DistinctLastValue<V>(e: Dict<V>, k: string)
    requires Distinct(e)
    ensures LastValue(e, k) == Get(e, k)
  {
    FromDistinctPairs(e);
    FromPairsLast(e, k);
  }

  /** A dict built from pairs holds, for each key, the last value the pairs give it. */
  lemma FromPairsLast<V>(e: Dict<V>, k: string)
    ensures Get(FromPairs(e), k) == LastValue(e, k)
  {
    UpdateLast([], e, k);
  }

  /** Assigning after an update is updating with one more entry. */
  lemma {:induction false} UpdateSnoc<V>(d: Dict<V>, e: Dict<V>, k: string, v: V)
    ensures Update(d, e + [(k, v)]) == Set(Update(d, e), k, v)
    decreases |e|
  {
    if |e| == 0 {
      assert e + [(k, v)] == [(k, v)];
    } else {
      assert (e + [(k, v)])[1..] == e[1..] + [(k, v)];
      UpdateSnoc(Set(d, e[0].0, e[0].1), e[1..], k, v);
    }
  }

  /** Two updates in a row are one update with both sets of entries. */
  lemma {:induction false} UpdateConcat<V>(d: Dict<V>, a: Dict<V>, b: Dict<V>)
    ensures Update(Update(d, a), b) == Update(d, a + b)
    decreases |a|
  {
    if |a| == 0 {
      assert a + b == b;
    } else {
      assert (a + b)[1..] == a[1..] + b;
      UpdateConcat(Set(d, a[0].0, a[0].1), a[1..], b);
    }
  }

  /** After `d.update(e)` a key holds the last value `e` gives it, or else `d`'s value:
      later assignments win, whether or not `e` repeats keys. */
  lemma {:induction false} UpdateLast<V>(d: Dict<V>, e: Dict<V>, k: string)
    ensures Get(Update(d, e), k) == if LastValue(e, k).Some? then LastValue(e, k) else Get(d, k)
    decreases |e|
  {
    if |e| > 0 {
      var n := |e| - 1;
      assert e == e[..n] + [(e[n].0, e[n].1)];
      UpdateSnoc(d, e[..n], e[n].0, e[n].1);
      UpdateLast(d, e[..n], k);
    }
  }
  /** Lookup in a concatenation looks in the first part first. */
  lemma {:induction false} GetConcat<V>(a: Dict<V>, b: Dict<V>, k: string)
    ensures Get(a + b, k) == if k in Keys(a) then Get(a, k) else Get(b, k)
    decreases |a|
  {
    if |a| == 0 {
      assert a + b == b;
    } else {
      assert (a + b)[1..] == a[1..] + b;
      assert Keys(a) == [a[0].0] + Keys(a[1..]);
      GetConcat(a[1..], b, k);
    }
  }

  /** Two dicts with no key in common concatenate to a dict. */
  lemma {:induction false} DistinctConcat<V>(a: Dict<V>, b: Dict<V>)
    requires Distinct(a) && Distinct(b)
    requires forall k :: k in Keys(a) ==> k !in Keys(b)
    ensures Distinct(a + b)
    decreases |a|
  {
    if |a| == 0 {
      assert a + b == b;
    } else {
      assert (a + b)[1..] == a[1..] + b;
      assert Keys(a) == [a[0].0] + Keys(a[1..]);
      DistinctConcat(a[1..], b);
      KeysConcat(a[1..], b);
    }
  }

  /** `d[k] = v` when there is a value to assign, `d` otherwise. */
  function Assign<V>(d: Dict<V>, k: string, v: Option<V>): (r: Dict<V>)
    ensures Get(r, k) == if v.Some? then v else Get(d, k)
    ensures forall k' :: k' != k ==> Get(r, k') == Get(d, k')
    ensures Distinct(d) ==> Distinct(r)
  {
    if v.Some? then Set(d, k, v.value) else d
  }

  /** The assignments `d[keys[i]] = values[i]`, in order, of the values there are. */
  function AssignAll<V>(d: Dict<V>, keys: seq<string>, values: seq<Option<V>>): (r: Dict<V>)
    requires |keys| == |values|
    ensures Distinct(d) ==> Distinct(r)
    decreases |keys|
  {
    if |keys| == 0 then d
    else
      var n := |keys| - 1;
      Assign(AssignAll(d, keys[..n], values[..n]), keys[n], values[n])
  }

  /** No key is listed twice. */
  predicate DistinctKeys(keys: seq<string>)
    decreases |keys|
  {
    |keys| == 0 || (keys[|keys| - 1] !in keys[..|keys| - 1] && DistinctKeys(keys[..|keys| - 1]))
  }

  /** Pairwise different keys are distinct keys. */
  lemma {:induction false} DistinctKeysByIndex(keys: seq<string>)
    requires forall i, j :: 0 <= i < j < |keys| ==> keys[i] != keys[j]
    ensures DistinctKeys(keys)
    decreases |keys|
  {
    if |keys| > 0 {
      var n := |keys| - 1;
      assert forall i :: 0 <= i < n ==> keys[..n][i] == keys[i];
      DistinctKeysByIndex(keys[..n]);
    }
  }

  /** The last of distinct keys differs from every earlier one, and the earlier ones are
      distinct among themselves. */
  lemma DistinctKeysLast(keys: seq<string>)
    requires |keys| > 0 && DistinctKeys(keys)
    ensures DistinctKeys(keys[..|keys| - 1])
    ensures forall i :: 0 <= i < |keys| - 1 ==> keys[i] != keys[|keys| - 1]
  {
    var n := |keys| - 1;
    assert forall i :: 0 <= i < n ==> keys[..n][i] == keys[i];
  }

  /** A key other than the last one is found, if at all, among the earlier ones, at the
      same position and with the same value. */
  lemma KeyBeforeLast<V>(keys: seq<string>, values: seq<V>, k: string)
    requires |keys| == |values| > 0 && k != keys[|keys| - 1]
    ensures var n := |keys| - 1;
      && (k !in keys ==> k !in keys[..n])
      && forall i :: 0 <= i < |keys| && keys[i] == k ==>
           i < n && keys[..n][i] == k && values[..n][i] == values[i]
  {
  }

  /** With distinct keys, each key ends up with its value when it has one and keeps its
      old value otherwise; every other key is left alone. */
  lemma {:induction false} AssignAllGet<V>(d: Dict<V>, keys: seq<string>, values: seq<Option<V>>, k: string)
    requires |keys| == |values|
    requires DistinctKeys(keys)
    ensures k !in keys ==> Get(AssignAll(d, keys, values), k) == Get(d, k)
    ensures forall i :: 0 <= i < |keys| && keys[i] == k ==>
      Get(AssignAll(d, keys, values), k) == if values[i].Some? then values[i] else Get(d, k)
    decreases |keys|
  {
    if |keys| > 0 {
      var n := |keys| - 1;
      var ks, vs := keys[..n], values[..n];
      DistinctKeysLast(keys);
      var prev := AssignAll(d, ks, vs);
      var r := AssignAll(d, keys, values);
      assert r == Assign(prev, keys[n], values[n]);
      AssignAllGet(d, ks, vs, k);
      if k == keys[n] {
        assert k !in ks by {
          forall j | 0 <= j < n ensures ks[j] != k {
            assert ks[j] == keys[j];
          }
        }
        assert Get(r, k) == if values[n].Some? then values[n] else Get(d, k);
      } else {
        assert Get(r, k) == Get(prev, k);
        KeyBeforeLast(keys, values, k);
      }
    }
  }

  /** The lookup of the `i`-th key after the assignments. */
  lemma AssignAllGetAt<V>(d: Dict<V>, keys: seq<string>, values: seq<Option<V>>, i: nat)
    requires |keys| == |values| && i < |keys|
    requires DistinctKeys(keys)
    ensures Get(AssignAll(d, keys, values), keys[i]) == if values[i].Some? then values[i] else Get(d, keys[i])
  {
    AssignAllGet(d, keys, values, keys[i]);
  }

  /** A property of every element holds of a non-empty sequence exactly when it holds of
      all but the last element and of the last one. */
  lemma AllStep<T>(s: seq<T>, p: T -> bool)
    requires |s| > 0
    ensures var n := |s| - 1;
      (forall i :: 0 <= i < |s| ==> p(s[i])) <==> (forall i :: 0 <= i < n ==> p(s[..n][i])) && p(s[n])
  {
    var n := |s| - 1;
    assert forall i :: 0 <= i < n ==> s[..n][i] == s[i];
  }

  /** A prefix agrees with the sequence on its indices. */
  lemma PrefixAgrees<T>(s: seq<T>, n: nat)
    requires n <= |s|
    ensures forall j :: 0 <= j < n ==> s[..n][j] == s[j]
  {
  }
}
