/** A Python `dict` with string keys, as the list of its items in insertion
    order, which is the order `dict.items()` yields them in. */
module OrderedDict {
  import opened Wrappers

  type Dict<V> = seq<(string, V)>

  /** The keys, in iteration order. */
  function Keys<V>(d: Dict<V>): (ks: seq<string>)
    ensures |ks| == |d|
    ensures forall i :: 0 <= i < |d| ==> ks[i] == d[i].0
  {
    if d == [] then [] else [d[0].0] + Keys(d[1..])
  }

  predicate Distinct(ks: seq<string>) {
    forall i, j :: 0 <= i < j < |ks| ==> ks[i] != ks[j]
  }

  /** A dict holds each key at most once. */
  predicate Valid<V>(d: Dict<V>) {
    Distinct(Keys(d))
  }

  /** `d.get(k)`. */
  function Get<V>(d: Dict<V>, k: string): Option<V>
  {
    if d == [] then None else if d[0].0 == k then Some(d[0].1) else Get(d[1..], k)
  }

  /** `get` finds nothing exactly for an absent key, and what it finds is
      stored with that key. */
  lemma {:induction false} GetKeys<V>(d: Dict<V>, k: string)
    ensures Get(d, k).None? <==> k !in Keys(d)
    ensures Get(d, k).Some? ==> exists i :: 0 <= i < |d| && d[i] == (k, Get(d, k).value)
  {
    if d != [] {
      GetKeys(d[1..], k);
      assert Keys(d) == [d[0].0] + Keys(d[1..]);
      if d[0].0 != k && Get(d, k).Some? {
        var i :| 0 <= i < |d[1..]| && d[1..][i] == (k, Get(d, k).value);
        assert d[i + 1] == d[1..][i];
      }
    }
  }

  /** In a dict, the value stored with a key is the one `get` finds. */
  lemma {:induction false} GetAt<V>(d: Dict<V>, i: nat)
    requires Valid(d) && i < |d|
    ensures Get(d, d[i].0) == Some(d[i].1)
  {
    if i > 0 {
      assert Keys(d[1..]) == Keys(d)[1..];
      GetAt(d[1..], i - 1);
    }
  }

  /** `d[k] = v`: an existing key keeps its place and takes the new value, a
      new key goes to the end. */
  function Insert<V>(d: Dict<V>, k: string, v: V): (r: Dict<V>)
    ensures k in Keys(d) ==> Keys(r) == Keys(d)
    ensures k !in Keys(d) ==> Keys(r) == Keys(d) + [k]
  {
    if d == [] then [(k, v)]
    else if d[0].0 == k then [(k, v)] + d[1..]
    else
      var r := [d[0]] + Insert(d[1..], k, v);
      assert Keys(r) == [d[0].0] + Keys(Insert(d[1..], k, v));
      assert Keys(d) == [d[0].0] + Keys(d[1..]);
      r
  }

  /** After `d[k] = v`, `get(k)` is `v` and every other key reads as before. */
  lemma {:induction false} InsertGet<V>(d: Dict<V>, k: string, v: V, k': string)
    ensures Get(Insert(d, k, v), k') == if k' == k then Some(v) else Get(d, k')
  {
    if d != [] && d[0].0 != k {
      InsertGet(d[1..], k, v, k');
    }
  }

  /** Assignment keeps keys distinct. */
  lemma InsertValid<V>(d: Dict<V>, k: string, v: V)
    requires Valid(d)
    ensures Valid(Insert(d, k, v))
  {
  }

  /** The dict built by starting from `{}` and running `d[k] = v` for each pair
      in turn. */
  function Assign<V>(pairs: seq<(string, V)>): Dict<V>
  {
    if pairs == [] then []
    else
      var last := pairs[|pairs| - 1];
      Insert(Assign(pairs[..|pairs| - 1]), last.0, last.1)
  }

  /** The last pair is the last assignment. */
  lemma AssignLast<V>(pairs: seq<(string, V)>)
    requires pairs != []
    ensures var n := |pairs|;
      Assign(pairs) == Insert(Assign(pairs[..n - 1]), pairs[n - 1].0, pairs[n - 1].1)
  {
  }

  /** The distinct elements of `ks` in the order they first appear. */
  function FirstOccurrences(ks: seq<string>): seq<string>
  {
    if ks == [] then []
    else
      var seen := FirstOccurrences(ks[..|ks| - 1]);
      if ks[|ks| - 1] in seen then seen else seen + [ks[|ks| - 1]]
  }

  lemma {:induction false} AssignValid<V>(pairs: seq<(string, V)>)
    ensures Valid(Assign(pairs))
  {
    if pairs != [] {
      var last := pairs[|pairs| - 1];
      AssignValid(pairs[..|pairs| - 1]);
      InsertValid(Assign(pairs[..|pairs| - 1]), last.0, last.1);
    }
  }

  lemma {:induction false} AssignSize<V>(pairs: seq<(string, V)>)
    ensures |Assign(pairs)| <= |pairs|
  {
    if pairs != [] {
      AssignSize(pairs[..|pairs| - 1]);
    }
  }

  lemma {:induction false} AssignKeys<V>(pairs: seq<(string, V)>, k: string)
    ensures k in Keys(Assign(pairs)) <==> exists i :: 0 <= i < |pairs| && pairs[i].0 == k
  {
    if pairs != [] {
      var n := |pairs|;
      var pre, last := pairs[..n - 1], pairs[n - 1];
      AssignKeys(pre, k);
      var a := Assign(pre);
      AssignLast(pairs);
      if k in Keys(Assign(pairs)) {
        if k != last.0 {
          assert k in Keys(a);
          var i :| 0 <= i < n - 1 && pre[i].0 == k;
          assert pairs[i] == pre[i];
        } else {
          assert pairs[n - 1].0 == k;
        }
      } else {
        assert last.0 in Keys(Insert(a, last.0, last.1));
        assert k !in Keys(a);
        forall i | 0 <= i < n ensures pairs[i].0 != k {
          if i < n - 1 {
            assert pairs[i] == pre[i];
          }
        }
      }
    }
  }

  /** A key assigned several times holds the value of its last assignment. */
  lemma {:induction false} AssignLastWins<V>(pairs: seq<(string, V)>, j: nat)
    requires j < |pairs|
    requires forall i :: j < i < |pairs| ==> pairs[i].0 != pairs[j].0
    ensures Get(Assign(pairs), pairs[j].0) == Some(pairs[j].1)
  {
    var n := |pairs|;
    var pre, last := pairs[..n - 1], pairs[n - 1];
    AssignLast(pairs);
    InsertGet(Assign(pre), last.0, last.1, pairs[j].0);
    if j < n - 1 {
      LastWinsPrefix(pairs, j);
      AssignLastWins(pre, j);
    }
  }

  /** Dropping the last pair keeps pair `j` unshadowed. */
  lemma LastWinsPrefix<V>(pairs: seq<(string, V)>, j: nat)
    requires j < |pairs| - 1
    requires forall i :: j < i < |pairs| ==> pairs[i].0 != pairs[j].0
    ensures var pre := pairs[..|pairs| - 1];
      pre[j] == pairs[j] && forall i :: j < i < |pre| ==> pre[i].0 != pre[j].0
  {
    var pre := pairs[..|pairs| - 1];
    forall i | j < i < |pre| ensures pre[i].0 != pre[j].0 {
      assert pre[i] == pairs[i];
    }
  }

  /** Keys come in the order of their first assignment. */
  lemma {:induction false} AssignKeyOrder<V>(pairs: seq<(string, V)>)
    ensures Keys(Assign(pairs)) == FirstOccurrences(Keys(pairs))
  {
    if pairs != [] {
      var n := |pairs|;
      AssignKeyOrder(pairs[..n - 1]);
      assert Keys(pairs)[..n - 1] == Keys(pairs[..n - 1]);
    }
  }
}
