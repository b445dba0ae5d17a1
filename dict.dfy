/** PHP arrays with string or integer keys are ordered dictionaries: an
    assignment to an existing key keeps its position, a new key goes last, and
    `unset` removes a key. `Dict` models them as a sequence of pairs. */
module Dict {
  import opened Util

  type Dict<K, V> = seq<(K, V)>

  /** `$a[$k]` with a missing key read as absent. */
  function Get<K(==), V>(d: Dict<K, V>, k: K): Option<V> {
    if d == [] then None else if d[0].0 == k then Some(d[0].1) else Get(d[1..], k)
  }

  /** `array_key_exists($k, $a)`. */
  predicate HasKey<K(==), V>(d: Dict<K, V>, k: K) {
    Get(d, k).Some?
  }

  function Keys<K, V>(d: Dict<K, V>): seq<K> {
    if d == [] then [] else [d[0].0] + Keys(d[1..])
  }

  predicate DistinctKeys<K(==), V>(d: Dict<K, V>) {
    forall i, j :: 0 <= i < j < |d| ==> d[i].0 != d[j].0
  }

  /** `$a[$k] = $v`. */
  function Put<K(==), V>(d: Dict<K, V>, k: K, v: V): Dict<K, V> {
    if d == [] then [(k, v)]
    else if d[0].0 == k then [(k, v)] + d[1..]
    else [d[0]] + Put(d[1..], k, v)
  }

  /** `unset($a[$k])`. */
  function Remove<K(==), V>(d: Dict<K, V>, k: K): Dict<K, V> {
    if d == [] then [] else if d[0].0 == k then Remove(d[1..], k) else [d[0]] + Remove(d[1..], k)
  }

  /** The position of key k, or -1. */
  function IndexOf<K(==), V>(d: Dict<K, V>, k: K): (i: int)
    ensures -1 <= i < |d|
    ensures i >= 0 ==> d[i].0 == k && forall j :: 0 <= j < i ==> d[j].0 != k
    ensures i == -1 ==> forall j :: 0 <= j < |d| ==> d[j].0 != k
  {
    if d == [] then -1
    else if d[0].0 == k then 0
    else
      var i := IndexOf(d[1..], k);
      if i == -1 then -1 else i + 1
  }

  lemma {:induction false} GetIndexOf<K, V>(d: Dict<K, V>, k: K)
    ensures Get(d, k) == if IndexOf(d, k) >= 0 then Some(d[IndexOf(d, k)].1) else None
  {
    if d != [] && d[0].0 != k {
      GetIndexOf(d[1..], k);
    }
  }

  /** After `$a[$k] = $v`, reading k gives v. */
  lemma {:induction false} PutGet<K, V>(d: Dict<K, V>, k: K, v: V)
    ensures Get(Put(d, k, v), k) == Some(v)
  {
    if d != [] && d[0].0 != k {
      PutGet(d[1..], k, v);
    }
  }

  /** `$a[$k] = $v` leaves every other key as it was. */
  lemma {:induction false} PutOther<K, V>(d: Dict<K, V>, k: K, v: V, k': K)
    requires k' != k
    ensures Get(Put(d, k, v), k') == Get(d, k')
  {
    if d != [] && d[0].0 != k {
      PutOther(d[1..], k, v, k');
    }
  }

  /** An existing key keeps its position; a new key is appended. */
  lemma {:induction false} PutKeys<K, V>(d: Dict<K, V>, k: K, v: V)
    ensures Keys(Put(d, k, v)) == if HasKey(d, k) then Keys(d) else Keys(d) + [k]
  {
    if d == [] {
    } else if d[0].0 == k {
      assert Put(d, k, v)[1..] == d[1..];
    } else {
      PutKeys(d[1..], k, v);
      assert Put(d, k, v)[1..] == Put(d[1..], k, v);
    }
  }

  lemma {:induction false} KeysDistinct<K, V>(d: Dict<K, V>, k: K)
    ensures HasKey(d, k) <==> k in Keys(d)
  {
    if d != [] {
      KeysDistinct(d[1..], k);
    }
  }

  /** Assignment keeps the keys distinct. */
  lemma {:induction false} PutDistinct<K, V>(d: Dict<K, V>, k: K, v: V)
    requires DistinctKeys(d)
    ensures DistinctKeys(Put(d, k, v))
    ensures |Put(d, k, v)| == if HasKey(d, k) then |d| else |d| + 1
  {
    if d == [] {
    } else if d[0].0 == k {
      var r := Put(d, k, v);
      forall i, j | 0 <= i < j < |r| ensures r[i].0 != r[j].0 {
        assert r[j] == d[j];
        if i > 0 { assert r[i] == d[i]; }
      }
    } else {
      PutDistinct(d[1..], k, v);
      var r := Put(d, k, v);
      var t := Put(d[1..], k, v);
      assert r == [d[0]] + t;
      PutKeys(d[1..], k, v);
      forall j | 0 <= j < |t| ensures t[j].0 != d[0].0 {
        KeysAt(t, j);
        KeysDistinct(d[1..], t[j].0);
        if t[j].0 == d[0].0 {
          assert t[j].0 != k;
          assert Keys(t)[j] == d[0].0;
          assert d[0].0 in Keys(d[1..]);
          KeysIndex(d[1..], d[0].0);
        }
      }
    }
  }

  lemma {:induction false} KeysAt<K, V>(d: Dict<K, V>, i: nat)
    requires i < |d|
    ensures |Keys(d)| == |d| && Keys(d)[i] == d[i].0
  {
    if i > 0 {
      KeysAt(d[1..], i - 1);
    } else {
      KeysLength(d);
    }
  }

  lemma {:induction false} KeysLength<K, V>(d: Dict<K, V>)
    ensures |Keys(d)| == |d|
  {
    if d != [] {
      KeysLength(d[1..]);
    }
  }

  lemma {:induction false} KeysIndex<K, V>(d: Dict<K, V>, k: K)
    requires k in Keys(d)
    ensures exists i :: 0 <= i < |d| && d[i].0 == k
  {
    if d[0].0 != k {
      KeysIndex(d[1..], k);
      var i :| 0 <= i < |d[1..]| && d[1..][i].0 == k;
      assert d[i + 1].0 == k;
    }
  }

  /** After `unset($a[$k])` the key is gone. */
  lemma {:induction false} RemoveGet<K, V>(d: Dict<K, V>, k: K)
    ensures Get(Remove(d, k), k) == None
  {
    if d != [] {
      RemoveGet(d[1..], k);
    }
  }

  /** `unset($a[$k])` leaves every other key as it was. */
  lemma {:induction false} RemoveOther<K, V>(d: Dict<K, V>, k: K, k': K)
    requires k' != k
    ensures Get(Remove(d, k), k') == Get(d, k')
  {
    if d != [] {
      RemoveOther(d[1..], k, k');
    }
  }

  /** Removing a key keeps the others distinct; on distinct keys the one
      entry with that key is the one taken out. */
  lemma RemoveDistinct<K, V>(d: Dict<K, V>, k: K)
    requires DistinctKeys(d)
    ensures DistinctKeys(Remove(d, k))
    ensures IndexOf(d, k) >= 0 ==> Remove(d, k) == d[..IndexOf(d, k)] + d[IndexOf(d, k) + 1..]
    ensures IndexOf(d, k) == -1 ==> Remove(d, k) == d
  {
    RemoveKeepsDistinct(d, k);
    RemoveAt(d, k);
  }

  lemma {:induction false} RemoveKeepsDistinct<K, V>(d: Dict<K, V>, k: K)
    requires DistinctKeys(d)
    ensures DistinctKeys(Remove(d, k))
  {
    if d != [] {
      assert DistinctKeys(d[1..]) by {
        forall i, j | 0 <= i < j < |d[1..]| ensures d[1..][i].0 != d[1..][j].0 {
          assert d[1..][i] == d[i + 1] && d[1..][j] == d[j + 1];
        }
      }
      RemoveKeepsDistinct(d[1..], k);
      if d[0].0 != k {
        RemoveConsDistinct(d, k);
      }
    }
  }

  lemma {:induction false} RemoveAt<K, V>(d: Dict<K, V>, k: K)
    requires DistinctKeys(d)
    ensures IndexOf(d, k) >= 0 ==> Remove(d, k) == d[..IndexOf(d, k)] + d[IndexOf(d, k) + 1..]
    ensures IndexOf(d, k) == -1 ==> Remove(d, k) == d
  {
    if d != [] {
      assert DistinctKeys(d[1..]) by {
        forall i, j | 0 <= i < j < |d[1..]| ensures d[1..][i].0 != d[1..][j].0 {
          assert d[1..][i] == d[i + 1] && d[1..][j] == d[j + 1];
        }
      }
      RemoveAt(d[1..], k);
      if d[0].0 == k {
        assert IndexOf(d[1..], k) == -1;
      } else if IndexOf(d, k) >= 0 {
        RemoveShift(d, k);
      }
    }
  }

  lemma RemoveConsDistinct<K, V>(d: Dict<K, V>, k: K)
    requires d != [] && d[0].0 != k && DistinctKeys(d) && DistinctKeys(Remove(d[1..], k))
    ensures DistinctKeys([d[0]] + Remove(d[1..], k))
  {
    var t := Remove(d[1..], k);
    RemoveSubset(d[1..], k);
    var r := [d[0]] + t;
    forall i, j | 0 <= i < j < |r| ensures r[i].0 != r[j].0 {
      if i == 0 {
        var m := RemoveFrom(d[1..], k, j - 1);
        assert d[0].0 != d[1..][m].0;
      }
    }
  }

  lemma RemoveShift<K, V>(d: Dict<K, V>, k: K)
    requires d != [] && d[0].0 != k && IndexOf(d, k) >= 0
    requires Remove(d[1..], k) == d[1..][..IndexOf(d[1..], k)] + d[1..][IndexOf(d[1..], k) + 1..]
    ensures Remove(d, k) == d[..IndexOf(d, k)] + d[IndexOf(d, k) + 1..]
  {
    var i := IndexOf(d, k);
    assert IndexOf(d[1..], k) == i - 1;
    ConsSplice(d, i);
  }

  /** Taking out entry i of the tail and putting the head back takes out entry i. */
  lemma ConsSplice<T>(s: seq<T>, i: int)
    requires 1 <= i < |s|
    ensures [s[0]] + (s[1..][..i - 1] + s[1..][i..]) == s[..i] + s[i + 1..]
  {
    var a, b := [s[0]] + (s[1..][..i - 1] + s[1..][i..]), s[..i] + s[i + 1..];
    assert |a| == |b|;
    forall j | 0 <= j < |a| ensures a[j] == b[j] {
      if j == 0 {
      } else if j < i {
        assert a[j] == s[1..][..i - 1][j - 1];
      } else {
        assert a[j] == s[1..][i..][j - i];
      }
    }
  }

  lemma {:induction false} RemoveSubset<K, V>(d: Dict<K, V>, k: K)
    ensures |Remove(d, k)| <= |d|
  {
    if d != [] {
      RemoveSubset(d[1..], k);
    }
  }

  /** Every entry left by Remove is an entry of the input. */
  lemma {:induction false} RemoveFrom<K, V>(d: Dict<K, V>, k: K, j: nat) returns (m: nat)
    requires j < |Remove(d, k)|
    ensures m < |d| && Remove(d, k)[j] == d[m]
  {
    if d[0].0 == k {
      m := RemoveFrom(d[1..], k, j);
      m := m + 1;
    } else if j == 0 {
      m := 0;
    } else {
      m := RemoveFrom(d[1..], k, j - 1);
      m := m + 1;
    }
  }

  /** Assigning a key the array does not hold appends it. */
  lemma {:induction false} PutNew<K, V>(d: Dict<K, V>, k: K, v: V)
    requires forall i :: 0 <= i < |d| ==> d[i].0 != k
    ensures Put(d, k, v) == d + [(k, v)]
  {
    if d != [] {
      PutNew(d[1..], k, v);
      assert d == [d[0]] + d[1..];
    }
  }

  /** `$a[$k] = $v` for each pair in turn, starting from an empty array;
      defined from the end so that a loop extends it by one pair per step. */
  function Assign<K(==), V>(ps: seq<(K, V)>): (r: Dict<K, V>)
    ensures DistinctKeys(r)
  {
    if ps == [] then []
    else
      var d := Assign(ps[..|ps| - 1]);
      PutDistinct(d, ps[|ps| - 1].0, ps[|ps| - 1].1);
      Put(d, ps[|ps| - 1].0, ps[|ps| - 1].1)
  }

  /** A key is present exactly when some pair names it, and then it holds the
      value of the last such pair: a later assignment overwrites. */
  lemma AssignGet<K, V>(ps: seq<(K, V)>, k: K)
    ensures Get(Assign(ps), k).None? <==> forall i :: 0 <= i < |ps| ==> ps[i].0 != k
    ensures forall i :: 0 <= i < |ps| && ps[i].0 == k && (forall j :: i < j < |ps| ==> ps[j].0 != k) ==>
      Get(Assign(ps), k) == Some(ps[i].1)
  {
    AssignAbsent(ps, k);
    forall i | 0 <= i < |ps| && ps[i].0 == k && (forall j :: i < j < |ps| ==> ps[j].0 != k)
      ensures Get(Assign(ps), k) == Some(ps[i].1)
    {
      AssignLast(ps, k, i);
    }
  }

  lemma {:induction false} AssignAbsent<K, V>(ps: seq<(K, V)>, k: K)
    ensures Get(Assign(ps), k).None? <==> forall i :: 0 <= i < |ps| ==> ps[i].0 != k
  {
    if ps != [] {
      var n := |ps| - 1;
      var init := ps[..n];
      AssignAbsent(init, k);
      if ps[n].0 == k {
        PutGet(Assign(init), k, ps[n].1);
      } else {
        PutOther(Assign(init), ps[n].0, ps[n].1, k);
        assert forall i :: 0 <= i < n ==> init[i] == ps[i];
      }
    }
  }

  lemma {:induction false} AssignLast<K, V>(ps: seq<(K, V)>, k: K, i: nat)
    requires i < |ps| && ps[i].0 == k && forall j :: i < j < |ps| ==> ps[j].0 != k
    ensures Get(Assign(ps), k) == Some(ps[i].1)
  {
    var n := |ps| - 1;
    var init := ps[..n];
    if i == n {
      PutGet(Assign(init), k, ps[n].1);
    } else {
      assert init[i] == ps[i];
      forall j | i < j < n ensures init[j].0 != k {
        assert init[j] == ps[j];
      }
      AssignLast(init, k, i);
      PutOther(Assign(init), ps[n].0, ps[n].1, k);
    }
  }

  /** Reading the key at position i gives its value when no earlier pair has that key. */
  lemma GetAt<K, V>(d: Dict<K, V>, i: nat)
    requires i < |d| && forall j :: 0 <= j < i ==> d[j].0 != d[i].0
    ensures Get(d, d[i].0) == Some(d[i].1)
  {
    GetIndexOf(d, d[i].0);
  }
}
