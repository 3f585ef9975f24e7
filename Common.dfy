/** Small shared vocabulary: optional values, results, ordered views of sets
    and a mutable list object standing for a .NET `List<T>` instance. */
module Common {

  datatype Option<+T> = None | Some(value: T) {
    function GetOr(default: T): T {
      match this
      case Some(v) => v
      case None => default
    }
  }

  datatype Result<+R, +E> = Success(value: R) | Failure(error: E)

  /** Every integer of `s` is at least `m`. */
  predicate IsLowerBound(s: set<int>, m: int) {
    forall x :: x in s ==> m <= x
  }

  /** A set other than the empty set has an element. */
  lemma NonEmptyHasElement(s: set<int>)
    requires s != {}
    ensures exists y :: y in s
  {
    if forall y :: y !in s {
      assert false;
    }
  }

  lemma {:induction false} MinimumExists(s: set<int>)
    requires s != {}
    ensures exists m :: m in s && IsLowerBound(s, m)
    decreases |s|
  {
    NonEmptyHasElement(s);
    var y :| y in s;
    var rest := s - {y};
    if rest == {} {
      forall x | x in s ensures y <= x {
        assert x == y || x in rest;
      }
      assert IsLowerBound(s, y);
    } else {
      MinimumExists(rest);
      var m :| m in rest && IsLowerBound(rest, m);
      forall x | x in s ensures y <= x || m <= x {
        assert x == y || x in rest;
      }
      if y < m {
        assert IsLowerBound(s, y);
      } else {
        assert IsLowerBound(s, m);
      }
    }
  }

  /** The least element of a non-empty set of integers. */
  function Minimum(s: set<int>): (m: int)
    requires s != {}
    ensures m in s && forall x :: x in s ==> m <= x
  {
    MinimumExists(s);
    var m :| m in s && IsLowerBound(s, m);
    m
  }

  /** The elements of `s` in ascending order; used wherever the model needs a
      fixed order for the keys of a dictionary whose enumeration order is
      unspecified. */
  function SortedKeys(s: set<int>): (r: seq<int>)
    ensures |r| == |s|
    ensures forall i :: 0 <= i < |r| ==> r[i] in s
    ensures forall x :: x in s ==> x in r
    ensures forall i, j :: 0 <= i < j < |r| ==> r[i] < r[j]
    decreases |s|
  {
    if s == {} then []
    else
      var m := Minimum(s);
      var rest := SortedKeys(s - {m});
      ConsAscending(m, rest);
      [m] + rest
  }

  /** A strictly ascending sequence stays so with a smaller element in front. */
  lemma ConsAscending(m: int, rest: seq<int>)
    requires forall j :: 0 <= j < |rest| ==> m < rest[j]
    requires forall i, j :: 0 <= i < j < |rest| ==> rest[i] < rest[j]
    ensures forall i, j :: 0 <= i < j < |[m] + rest| ==> ([m] + rest)[i] < ([m] + rest)[j]
  {
    var r := [m] + rest;
    forall i, j | 0 <= i < j < |r| ensures r[i] < r[j] {
      assert r[j] == rest[j - 1];
      if i > 0 {
        assert r[i] == rest[i - 1];
      }
    }
  }

  /** The integers occurring in `s`. */
  function Elements(s: seq<int>): set<int> {
    set x | x in s
  }

  lemma SortedKeysElements(s: set<int>)
    ensures Elements(SortedKeys(s)) == s
  {
  }

  /** The elements of `s` as a sequence, in ascending order. */
  function KeyList(s: set<int>): (r: seq<int>)
    ensures Elements(r) == s
    ensures forall i :: 0 <= i < |r| ==> r[i] in s
  {
    SortedKeysElements(s);
    SortedKeys(s)
  }

  /** The values of `m` listed by ascending key. */
  function ValuesByKey<V>(m: map<int, V>): seq<V>
    decreases |m|
  {
    if m == map[] then []
    else
      var k := Minimum(m.Keys);
      [m[k]] + ValuesByKey(m - {k})
  }

  /** The values come in the order of the sorted keys, one for each key. */
  lemma {:induction false} ValuesByKeySpec<V>(m: map<int, V>)
    ensures |ValuesByKey(m)| == |m|
    ensures forall i :: 0 <= i < |m| ==> SortedKeys(m.Keys)[i] in m && ValuesByKey(m)[i] == m[SortedKeys(m.Keys)[i]]
    decreases |m|
  {
    assert |m.Keys| == |m|;
    if m != map[] {
      var k := Minimum(m.Keys);
      var rest := m - {k};
      assert rest.Keys == m.Keys - {k};
      assert |rest| == |m| - 1;
      ValuesByKeySpec(rest);
      var ks, vs := SortedKeys(m.Keys), ValuesByKey(m);
      assert ks == [k] + SortedKeys(rest.Keys);
      assert vs == [m[k]] + ValuesByKey(rest);
      forall i | 0 <= i < |m|
        ensures ks[i] in m && vs[i] == m[ks[i]]
      {
        if i > 0 {
          assert ks[i] == SortedKeys(rest.Keys)[i - 1] && vs[i] == ValuesByKey(rest)[i - 1];
        }
      }
    }
  }

  /** A prefix one longer has one element more. */
  lemma ElementsSnoc(s: seq<int>, i: int)
    requires 0 <= i < |s|
    ensures Elements(s[..i + 1]) == Elements(s[..i]) + {s[i]}
  {
    assert s[..i + 1] == s[..i] + [s[i]];
  }

  /** The whole of a sequence as its own prefix. */
  lemma TakeAll<T>(s: seq<T>)
    ensures s[..|s|] == s
  {
  }

  /** The index of the first element whose key is `x`, or `|xs|`: the search
      `FirstOrDefault(e => key(e) == x)` makes. */
  function FirstWithKey<T>(xs: seq<T>, key: T -> int, x: int): (i: nat)
    ensures i <= |xs|
    ensures i < |xs| ==> key(xs[i]) == x
    ensures forall j :: 0 <= j < i ==> key(xs[j]) != x
  {
    if xs == [] then 0
    else if key(xs[0]) == x then 0
    else 1 + FirstWithKey(xs[1..], key, x)
  }

  /** The first `Some` that `f` gives along `xs`, or `None`. */
  function FirstSome<T, U>(xs: seq<T>, f: T -> Option<U>): (r: Option<U>)
    ensures r.Some? ==> exists i :: 0 <= i < |xs| && f(xs[i]) == r && forall j :: 0 <= j < i ==> f(xs[j]).None?
    ensures r.None? ==> forall i :: 0 <= i < |xs| ==> f(xs[i]).None?
  {
    if xs == [] then None
    else if f(xs[0]).Some? then f(xs[0])
    else
      var r := FirstSome(xs[1..], f);
      assert forall i :: 1 <= i < |xs| ==> xs[i] == xs[1..][i - 1];
      r
  }

  /** The keys of the elements of `xs`. */
  function KeySet<T>(xs: seq<T>, key: T -> int): set<int> {
    set i | 0 <= i < |xs| :: key(xs[i])
  }

  /** The keys of a concatenation are those of its two parts. */
  lemma KeySetConcat<T>(a: seq<T>, b: seq<T>, key: T -> int)
    ensures KeySet(a + b, key) == KeySet(a, key) + KeySet(b, key)
  {
    var r := a + b;
    forall x | x in KeySet(r, key) ensures x in KeySet(a, key) + KeySet(b, key) {
      var k :| 0 <= k < |r| && key(r[k]) == x;
      if k < |a| {
        assert r[k] == a[k];
      } else {
        assert r[k] == b[k - |a|];
      }
    }
    forall x | x in KeySet(a, key) + KeySet(b, key) ensures x in KeySet(r, key) {
      if x in KeySet(a, key) {
        var k :| 0 <= k < |a| && key(a[k]) == x;
        assert r[k] == a[k];
      } else {
        var k :| 0 <= k < |b| && key(b[k]) == x;
        assert r[|a| + k] == b[k];
      }
    }
  }

  lemma KeySetSingleton<T>(e: T, key: T -> int)
    ensures KeySet([e], key) == {key(e)}
  {
    assert [e][0] == e;
  }

  /** The position of `k` in `ks`, or |ks| when absent. */
  function KeyIndex(ks: seq<int>, k: int): (i: nat)
    ensures i <= |ks|
    ensures i < |ks| <==> k in ks
    ensures i < |ks| ==> ks[i] == k
  {
    if ks == [] then 0
    else if ks[0] == k then 0
    else 1 + KeyIndex(ks[1..], k)
  }

  /** The later of two writes to one key wins. */
  lemma MapUpdateTwice<V>(m: map<int, V>, k: int, a: V, b: V)
    ensures m[k := a][k := b] == m[k := b]
  {
  }

  /** Writing back the value a key already has changes nothing. */
  lemma MapUpdateSame<V>(m: map<int, V>, k: int)
    requires k in m
    ensures m[k := m[k]] == m
  {
  }

  /** Writing a key leaves the rest of the map as it was. */
  lemma MapUpdateOthers<V>(m: map<int, V>, k: int, a: V)
    ensures m[k := a] - {k} == m - {k}
  {
  }

  /** Removing a key that was just added restores the map. */
  lemma MapRemoveAdded<V>(m: map<int, V>, k: int, a: V)
    requires k !in m
    ensures m[k := a] - {k} == m
  {
  }

  /** Writing a key just removed is writing it. */
  lemma MapRemoveThenSet<V>(m: map<int, V>, k: int, a: V)
    ensures (m - {k})[k := a] == m[k := a]
  {
  }

  /** Removing keys one batch after another. */
  lemma MapRemoveMore<V>(m: map<int, V>, done: set<int>, k: int)
    ensures (m - done) - {k} == m - (done + {k})
  {
  }

  /** `s` with the membership of `x` flipped: how a `Dictionary<int, bool>`
      used as a set is toggled. */
  function Toggle(s: set<int>, x: int): (r: set<int>)
    ensures x in r <==> x !in s
    ensures forall y :: y != x ==> (y in r <==> y in s)
  {
    if x in s then s - {x} else s + {x}
  }

  lemma ToggleTwice(s: set<int>, x: int)
    ensures Toggle(Toggle(s, x), x) == s
  {
  }

  /** A .NET `List<T>` instance: an object whose contents change in place. */
  class MutableList<T> {
    var items: seq<T>

    constructor (initial: seq<T>)
      ensures items == initial
    {
      items := initial;
    }
  }
}
