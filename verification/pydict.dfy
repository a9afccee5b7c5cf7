/** A Python `dict` with string keys. Python dicts remember insertion order,
    and that order is observable in this system (iteration over decoded
    fields, device modules, converter output), so a dict is a sequence of
    key/value pairs rather than a Dafny `map`. */
module PyDict {
  import opened Results

  type Dict<V> = seq<(string, V)>

  /** The keys, in insertion order (`list(d.keys())`). */
  function Keys<V>(d: Dict<V>): (ks: seq<string>)
    ensures |ks| == |d|
  {
    if d == [] then [] else [d[0].0] + Keys(d[1..])
  }

  /** The i-th key is the key of the i-th pair. */
  lemma {:induction false} KeysIndex<V>(d: Dict<V>)
    ensures forall i :: 0 <= i < |d| ==> Keys(d)[i] == d[i].0
  {
    if d != [] {
      KeysIndex(d[1..]);
    }
  }

  /** The keys of a concatenation. */
  lemma {:induction false} KeysConcat<V>(a: Dict<V>, b: Dict<V>)
    ensures Keys(a + b) == Keys(a) + Keys(b)
  {
    if a != [] {
      assert (a + b)[1..] == a[1..] + b;
      KeysConcat(a[1..], b);
    } else {
      assert a + b == b;
    }
  }

  /** No key occurs twice: every dict built by `Set` keeps this. */
  predicate UniqueKeys<V>(d: Dict<V>) {
    d == [] || (d[0].0 !in Keys(d[1..]) && UniqueKeys(d[1..]))
  }

  /** No string occurs twice in `ks`. */
  predicate Distinct(ks: seq<string>) {
    forall i, j :: 0 <= i < j < |ks| ==> ks[i] != ks[j]
  }

  /** The recursive uniqueness predicate is distinctness of the key list. */
  lemma {:induction false} UniqueKeysDistinct<V>(d: Dict<V>)
    ensures UniqueKeys(d) <==> Distinct(Keys(d))
  {
    if d != [] {
      UniqueKeysDistinct(d[1..]);
      KeysIndex(d);
      var ks := Keys(d);
      assert ks[1..] == Keys(d[1..]);
      assert Distinct(ks) ==> Distinct(ks[1..]);
    }
  }

  /** `d.get(k)`: the value stored under `k`, if any. */
  function Get<V>(d: Dict<V>, k: string): (r: Option<V>)
    ensures r.Some? <==> k in Keys(d)
    ensures r.Some? ==> exists i :: 0 <= i < |d| && d[i] == (k, r.value)
  {
    if d == [] then None
    else if d[0].0 == k then Some(d[0].1)
    else Get(d[1..], k)
  }

  /** `d[k] = v`: an existing key keeps its position and takes the new value;
      a new key is appended at the end. */
  function Set<V>(d: Dict<V>, k: string, v: V): (r: Dict<V>)
    ensures Keys(r) == if k in Keys(d) then Keys(d) else Keys(d) + [k]
    ensures Get(r, k) == Some(v)
    ensures forall k' :: k' != k ==> Get(r, k') == Get(d, k')
    ensures UniqueKeys(d) ==> UniqueKeys(r)
  {
    if d == [] then [(k, v)]
    else if d[0].0 == k then
      var r := [(k, v)] + d[1..];
      assert r[1..] == d[1..];
      r
    else
      var tail := Set(d[1..], k, v);
      var r := [d[0]] + tail;
      assert r[1..] == tail;
      r
  }

  /** `d.update(e)`, and every loop that stores the pairs of `e` into `d`
      one after another: a later pair overwrites an earlier one. */
  function Update<V>(d: Dict<V>, e: Dict<V>): (r: Dict<V>)
    ensures forall k :: k in Keys(r) <==> k in Keys(d) || k in Keys(e)
    ensures UniqueKeys(d) ==> UniqueKeys(r)
    decreases |e|
  {
    if e == [] then d
    else
      assert Keys(e) == [e[0].0] + Keys(e[1..]);
      Update(Set(d, e[0].0, e[0].1), e[1..])
  }

  /** Updating with a concatenation is updating with each part in turn. */
  lemma {:induction false} UpdateConcat<V>(d: Dict<V>, a: Dict<V>, b: Dict<V>)
    ensures Update(d, a + b) == Update(Update(d, a), b)
    decreases |a|
  {
    if a == [] {
      assert a + b == b;
    } else {
      calc {
        Update(d, a + b);
        { assert (a + b)[0] == a[0] && (a + b)[1..] == a[1..] + b; }
        Update(Set(d, a[0].0, a[0].1), a[1..] + b);
        { UpdateConcat(Set(d, a[0].0, a[0].1), a[1..], b); }
        Update(Update(d, a), b);
      }
    }
  }

  /** The value of the last pair of `e` with key `k`. */
  function LastGet<V>(e: Dict<V>, k: string): (r: Option<V>)
    ensures r.Some? <==> k in Keys(e)
  {
    if e == [] then None
    else
      assert Keys(e) == [e[0].0] + Keys(e[1..]);
      match LastGet(e[1..], k)
      case Some(v) => Some(v)
      case None => if e[0].0 == k then Some(e[0].1) else None
  }

  /** The last value under a key is the value of one of the pairs. */
  lemma {:induction false} LastGetIn<V>(e: Dict<V>, k: string)
    requires k in Keys(e)
    ensures exists i :: 0 <= i < |e| && e[i] == (k, LastGet(e, k).value)
  {
    assert Keys(e) == [e[0].0] + Keys(e[1..]);
    if k in Keys(e[1..]) {
      LastGetIn(e[1..], k);
      var i :| 0 <= i < |e[1..]| && e[1..][i] == (k, LastGet(e[1..], k).value);
      assert e[i + 1] == e[1..][i];
    } else {
      assert e[0] == (k, LastGet(e, k).value);
    }
  }

  /** The pair at `i` is the last one with its key: its value is the last
      value under that key. */
  lemma {:induction false} LastGetAt<V>(e: Dict<V>, i: nat)
    requires i < |e| && forall j :: i < j < |e| ==> e[j].0 != e[i].0
    ensures LastGet(e, e[i].0) == Some(e[i].1)
    decreases i
  {
    var k := e[i].0;
    KeysIndex(e[1..]);
    if i == 0 {
      assert k !in Keys(e[1..]);
    } else {
      assert e[1..][i - 1] == e[i];
      LastGetAt(e[1..], i - 1);
    }
  }

  /** After an update, a key of `e` holds its last value in `e`, and every
      other key keeps its value in `d`. */
  lemma {:induction false} UpdateGet<V>(d: Dict<V>, e: Dict<V>, k: string)
    ensures Get(Update(d, e), k) == if k in Keys(e) then LastGet(e, k) else Get(d, k)
    decreases |e|
  {
    if e != [] {
      assert Keys(e) == [e[0].0] + Keys(e[1..]);
      UpdateGet(Set(d, e[0].0, e[0].1), e[1..], k);
    }
  }

  /** Storing pairs whose keys are distinct and new to `d` appends them. */
  lemma {:induction false} UpdateFresh<V>(d: Dict<V>, e: Dict<V>)
    requires UniqueKeys(e) && forall k :: k in Keys(e) ==> k !in Keys(d)
    ensures Update(d, e) == d + e
    decreases |e|
  {
    if e != [] {
      var d' := d + [e[0]];
      assert Keys(e) == [e[0].0] + Keys(e[1..]);
      assert forall k :: k in Keys(e[1..]) ==> k !in Keys(d') by {
        KeysConcat(d, [e[0]]);
        assert Keys([e[0]]) == [e[0].0];
      }
      calc {
        Update(d, e);
        Update(Set(d, e[0].0, e[0].1), e[1..]);
        { SetNew(d, e[0].0, e[0].1); }
        Update(d', e[1..]);
        { UpdateFresh(d', e[1..]); }
        d' + e[1..];
        { assert d' + e[1..] == d + e; }
        d + e;
      }
    }
  }

  /** A dict built by storing the pairs of `e`, one after another, into an
      empty dict. */
  function FromPairs<V>(e: Dict<V>): (r: Dict<V>)
    ensures forall k :: k in Keys(r) <==> k in Keys(e)
    ensures UniqueKeys(r)
  {
    Update([], e)
  }

  /** With distinct keys nothing is overwritten: the dict keeps every pair,
      in order. */
  lemma FromPairsDistinct<V>(e: Dict<V>)
    ensures Distinct(Keys(e)) ==> FromPairs(e) == e
  {
    if Distinct(Keys(e)) {
      UniqueKeysDistinct(e);
      UpdateFresh([], e);
      assert [] + e == e;
    }
  }

  /** Storing a new key appends its pair. */
  lemma {:induction false} SetNew<V>(d: Dict<V>, k: string, v: V)
    requires k !in Keys(d)
    ensures Set(d, k, v) == d + [(k, v)]
  {
    if d != [] {
      assert Keys(d) == [d[0].0] + Keys(d[1..]);
      assert d[0].0 != k;
      SetNew(d[1..], k, v);
      assert Set(d, k, v) == [d[0]] + Set(d[1..], k, v);
      assert [d[0]] + (d[1..] + [(k, v)]) == d + [(k, v)];
    }
  }

  /** In a dict without repeated keys, the key of the i-th pair finds that pair. */
  lemma {:induction false} GetDistinct<V>(d: Dict<V>, i: nat)
    requires Distinct(Keys(d)) && i < |d|
    ensures Get(d, d[i].0) == Some(d[i].1)
  {
    KeysIndex(d);
    if i > 0 {
      assert d[0].0 != d[i].0 by {
        assert Keys(d)[0] != Keys(d)[i];
      }
      assert d[1..][i - 1] == d[i];
      assert Keys(d[1..]) == Keys(d)[1..];
      GetDistinct(d[1..], i - 1);
    }
  }
}
