/** A Python `dict`: key/value pairs kept in insertion order, each key at most
    once. Assigning to an existing key replaces its value in place; assigning to
    a new key appends; `pop` removes the key and keeps the order of the rest. */
module PyDict {
  import opened Optional

  /** Keys and values are strings in both dicts of the server: sid to code,
      and query parameter to value. */
  type Key = string
  type Value = string
  type Dict = seq<(Key, Value)>

  /** The dict invariant: no key occurs twice. */
  predicate UniqueKeys(d: Dict) {
    forall i, j :: 0 <= i < j < |d| ==> d[i].0 != d[j].0
  }

  /** True when `k` is one of the keys of `d`. */
  predicate HasKey(d: Dict, k: Key) {
    exists i :: 0 <= i < |d| && d[i].0 == k
  }

  /** Position of the first entry whose key is `k`. */
  function IndexOf(d: Dict, k: Key): (r: Option<nat>)
    ensures r.Some? ==> r.value < |d| && d[r.value].0 == k
    ensures r.Some? ==> forall j :: 0 <= j < r.value ==> d[j].0 != k
    ensures r.None? <==> !HasKey(d, k)
  {
    if |d| == 0 then None
    else if d[0].0 == k then Some(0)
    else
      match IndexOf(d[1..], k)
      case None => None
      case Some(i) => Some(i + 1)
  }

  /** `d.get(k, None)`. */
  function Get(d: Dict, k: Key): (r: Option<Value>)
    ensures r.None? <==> !HasKey(d, k)
    ensures r.Some? ==> exists i :: 0 <= i < |d| && d[i] == (k, r.value)
  {
    match IndexOf(d, k)
    case None => None
    case Some(i) => Some(d[i].1)
  }

  /** In a dict, the entry at any position holding key `k` is the one `Get` finds. */
  lemma GetAt(d: Dict, i: nat)
    requires UniqueKeys(d)
    requires i < |d|
    ensures Get(d, d[i].0) == Some(d[i].1)
  {
  }

  /** `d[k] = v`. */
  function Put(d: Dict, k: Key, v: Value): (r: Dict)
    ensures UniqueKeys(d) ==> UniqueKeys(r)
    ensures Get(r, k) == Some(v)
    ensures forall k' :: k' != k ==> Get(r, k') == Get(d, k')
    // an existing key keeps its place; a new key goes to the end
    ensures HasKey(d, k) ==> |r| == |d| && IndexOf(r, k) == IndexOf(d, k)
    ensures !HasKey(d, k) ==> r == d + [(k, v)]
    // every other entry stays where it was, unchanged
    ensures forall i :: 0 <= i < |d| && d[i].0 != k ==> r[i] == d[i]
    ensures forall i :: 0 <= i < |d| ==> r[i].0 == d[i].0
  {
    match IndexOf(d, k)
    case Some(i) =>
      PutExisting(d, k, v, i);
      d[i := (k, v)]
    case None =>
      PutNew(d, k, v);
      d + [(k, v)]
  }

  /** Overwriting the entry at the first position of `k` changes no other lookup. */
  lemma PutExisting(d: Dict, k: Key, v: Value, i: nat)
    requires IndexOf(d, k) == Some(i)
    ensures IndexOf(d[i := (k, v)], k) == Some(i)
    ensures forall k' :: k' != k ==> Get(d[i := (k, v)], k') == Get(d, k')
  {
    var r := d[i := (k, v)];
    PrefixIndexOf(d, r, k, i);
    forall k' | k' != k ensures Get(r, k') == Get(d, k') {
      SameKeysSameIndex(d, r, k');
    }
  }

  /** Appending an absent key changes no other lookup. */
  lemma PutNew(d: Dict, k: Key, v: Value)
    requires !HasKey(d, k)
    ensures IndexOf(d + [(k, v)], k) == Some(|d|)
    ensures forall k' :: k' != k ==> Get(d + [(k, v)], k') == Get(d, k')
  {
    var r := d + [(k, v)];
    PrefixIndexOf(d, r, k, |d|);
    forall k' | k' != k ensures Get(r, k') == Get(d, k') {
      if HasKey(d, k') {
        SameKeysSameIndex(d, r[..|d|], k');
        PrefixKeepsFirst(r, |d|, k');
      } else {
        forall j | 0 <= j < |r| ensures r[j].0 != k' {
          if j < |d| { assert r[j] == d[j]; }
        }
      }
    }
  }

  /** Two dicts of equal length with the same key at every position find any key at the same place. */
  lemma SameKeysSameIndex(d: Dict, e: Dict, k: Key)
    requires |d| == |e|
    requires forall i :: 0 <= i < |d| ==> d[i].0 == e[i].0
    ensures IndexOf(d, k) == IndexOf(e, k)
    ensures Get(d, k).Some? ==> Get(e, k).Some? && e[IndexOf(e, k).value] == (k, Get(e, k).value)
    ensures (forall i :: 0 <= i < |d| && d[i].0 == k ==> d[i] == e[i]) ==> Get(d, k) == Get(e, k)
  {
  }

  /** A key whose first occurrence lies within a prefix is found at that occurrence. */
  lemma PrefixKeepsFirst(d: Dict, n: nat, k: Key)
    requires n <= |d|
    requires HasKey(d[..n], k)
    ensures IndexOf(d, k) == IndexOf(d[..n], k)
    ensures Get(d, k) == Get(d[..n], k)
  {
  }

  /** When position `i` holds `k` and no earlier position does, `IndexOf` finds `i`. */
  lemma PrefixIndexOf(d: Dict, r: Dict, k: Key, i: nat)
    requires i < |r| && r[i].0 == k
    requires i <= |d|
    requires forall j :: 0 <= j < i ==> d[j].0 != k && r[j] == d[j]
    ensures IndexOf(r, k) == Some(i)
  {
  }

  /** `Get` looks at the first entry, then at the rest. */
  lemma GetCons(d: Dict, k: Key)
    requires |d| > 0
    ensures Get(d, k) == if d[0].0 == k then Some(d[0].1) else Get(d[1..], k)
  {
  }

  /** Reference for removal: the entries of `d` whose key is not `k`, in their original order. */
  function Without(d: Dict, k: Key): (r: Dict)
    ensures |r| <= |d|
  {
    if |d| == 0 then []
    else if d[0].0 == k then Without(d[1..], k)
    else [d[0]] + Without(d[1..], k)
  }

  /** Removing `k` leaves the lookup of every other key alone. */
  lemma {:induction false} GetWithout(d: Dict, k: Key, k': Key)
    requires k' != k
    ensures Get(Without(d, k), k') == Get(d, k')
  {
    if |d| > 0 {
      GetWithout(d[1..], k, k');
      GetCons(d, k');
      if d[0].0 != k {
        var w := Without(d, k);
        assert w[1..] == Without(d[1..], k);
        GetCons(w, k');
      }
    }
  }

  /** Removing a key that is absent changes nothing. */
  lemma {:induction false} WithoutAbsent(d: Dict, k: Key)
    requires !HasKey(d, k)
    ensures Without(d, k) == d
  {
    if |d| > 0 {
      assert d[0].0 != k;
      assert !HasKey(d[1..], k) by {
        forall j | 0 <= j < |d[1..]| ensures d[1..][j].0 != k {
          assert d[1..][j] == d[j + 1];
        }
      }
      WithoutAbsent(d[1..], k);
      assert d == [d[0]] + d[1..];
    }
  }

  /** In a dict, removing the one entry with key `k` is cutting it out at its position. */
  lemma {:induction false} WithoutAt(d: Dict, k: Key, i: nat)
    requires i < |d| && d[i].0 == k
    requires forall j :: 0 <= j < |d| && j != i ==> d[j].0 != k
    ensures Without(d, k) == d[..i] + d[i + 1..]
  {
    if i == 0 {
      assert !HasKey(d[1..], k) by {
        forall j | 0 <= j < |d[1..]| ensures d[1..][j].0 != k {
          assert d[1..][j] == d[j + 1];
        }
      }
      WithoutAbsent(d[1..], k);
    } else {
      var t := d[1..];
      forall j | 0 <= j < |t| && j != i - 1 ensures t[j].0 != k {
        assert t[j] == d[j + 1];
      }
      WithoutAt(t, k, i - 1);
      assert d[..i] == [d[0]] + t[..i - 1];
      assert d[i + 1..] == t[i..];
    }
  }

  /** `d.pop(k, None)`: the dict without `k`, and the value `k` had, if any. */
  function Pop(d: Dict, k: Key): (r: (Dict, Option<Value>))
    ensures r.1 == Get(d, k)
    ensures !HasKey(d, k) ==> r.0 == d
    ensures HasKey(d, k) ==> |r.0| == |d| - 1
    // in a dict: exactly the entry for `k` goes, the rest keep their relative order
    ensures UniqueKeys(d) ==> UniqueKeys(r.0) && r.0 == Without(d, k)
    ensures UniqueKeys(d) ==> !HasKey(r.0, k)
    ensures UniqueKeys(d) ==> forall k' :: k' != k ==> Get(r.0, k') == Get(d, k')
  {
    match IndexOf(d, k)
    case None =>
      WithoutAbsent(d, k);
      (d, None)
    case Some(i) =>
      var rest := d[..i] + d[i + 1..];
      if UniqueKeys(d) then
        WithoutAt(d, k, i);
        assert forall k' :: k' != k ==> Get(rest, k') == Get(d, k') by {
          forall k' | k' != k ensures Get(rest, k') == Get(d, k') {
            GetWithout(d, k, k');
          }
        }
        assert UniqueKeys(rest) by {
          forall a, b | 0 <= a < b < |rest| ensures rest[a].0 != rest[b].0 {
            var a' := if a < i then a else a + 1;
            var b' := if b < i then b else b + 1;
            assert rest[a] == d[a'] && rest[b] == d[b'];
          }
        }
        assert !HasKey(rest, k) by {
          forall j | 0 <= j < |rest| ensures rest[j].0 != k {
            var j' := if j < i then j else j + 1;
            assert rest[j] == d[j'];
          }
        }
        (rest, Some(d[i].1))
      else
        (rest, Some(d[i].1))
  }
}
