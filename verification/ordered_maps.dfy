/** Python dictionaries with text keys, as sequences of bindings in
    insertion order, so that "first match in map order" and the order of a
    merge are explicit. A Python dict never holds a key twice; operations
    that rely on that say so with `UniqueKeys`. */
module OrderedMaps {
  import opened Base

  type OrderedMap<V> = seq<(string, V)>

  function Keys<V>(m: OrderedMap<V>): seq<string> {
    seq(|m|, i requires 0 <= i < |m| => m[i].0)
  }

  predicate HasKey<V>(m: OrderedMap<V>, k: string) {
    exists i | 0 <= i < |m| :: m[i].0 == k
  }

  predicate UniqueKeys<V>(m: OrderedMap<V>) {
    forall i, j | 0 <= i < j < |m| :: m[i].0 != m[j].0
  }

  /** Python's `m.get(k)`: the value bound to `k`. */
  function Find<V>(m: OrderedMap<V>, k: string): (r: Option<V>)
    ensures r.None? <==> !HasKey(m, k)
    ensures r.Some? ==> exists i | 0 <= i < |m| :: m[i] == (k, r.value)
  {
    if |m| == 0 then None
    else if m[0].0 == k then Some(m[0].1)
    else
      var r := Find(m[1..], k);
      assert forall i | 1 <= i < |m| :: m[1..][i - 1] == m[i];
      r
  }

  /** In a dict, the binding at position `i` is what `Find` returns. */
  lemma FindAt<V>(m: OrderedMap<V>, i: nat)
    requires UniqueKeys(m) && i < |m|
    ensures Find(m, m[i].0) == Some(m[i].1)
  {
    if i > 0 {
      assert UniqueKeys(m[1..]) by {
        forall a, b | 0 <= a < b < |m[1..]|
          ensures m[1..][a].0 != m[1..][b].0
        {
          assert m[1..][a] == m[a + 1] && m[1..][b] == m[b + 1];
        }
      }
      assert m[1..][i - 1] == m[i];
      FindAt(m[1..], i - 1);
    }
  }

  /** Python's `d[k] = v`: the binding of `k` is replaced in place, or a
      new binding is appended at the end. */
  function Put<V>(m: OrderedMap<V>, k: string, v: V): (r: OrderedMap<V>)
    ensures HasKey(m, k) ==> |r| == |m|
    ensures !HasKey(m, k) ==> r == m + [(k, v)]
    ensures forall i | 0 <= i < |m| :: r[i].0 == m[i].0
  {
    if |m| == 0 then [(k, v)]
    else if m[0].0 == k then [(k, v)] + m[1..]
    else
      var rest := Put(m[1..], k, v);
      assert forall i | 1 <= i < |m| :: m[1..][i - 1] == m[i];
      [m[0]] + rest
  }

  /** `d[k] = v` leaves every other key's value alone. */
  lemma {:induction false} PutKeepsOthers<V>(m: OrderedMap<V>, k: string, v: V, j: string)
    requires j != k
    ensures Find(Put(m, k, v), j) == Find(m, j)
  {
    if |m| > 0 && m[0].0 != k {
      PutKeepsOthers(m[1..], k, v, j);
      assert ([m[0]] + Put(m[1..], k, v))[1..] == Put(m[1..], k, v);
    } else if |m| > 0 {
      assert ([(k, v)] + m[1..])[1..] == m[1..];
    }
  }

  /** The keys after `d[k] = v` are the keys before and `k`. */
  lemma PutHasKey<V>(m: OrderedMap<V>, k: string, v: V)
    ensures forall j :: HasKey(Put(m, k, v), j) <==> HasKey(m, j) || j == k
  {
    var r := Put(m, k, v);
    forall j
      ensures HasKey(r, j) <==> HasKey(m, j) || j == k
    {
      if HasKey(r, j) {
        var i :| 0 <= i < |r| && r[i].0 == j;
        if i < |m| && r[i].0 != m[i].0 {
          assert false;
        }
      }
      if HasKey(m, j) {
        var i :| 0 <= i < |m| && m[i].0 == j;
        assert r[i].0 == j;
      }
      if j == k && !HasKey(m, k) {
        assert r[|m|].0 == k;
      }
    }
    if HasKey(m, k) {
      PutFindsKey(m, k, v);
    }
  }

  /** A key `d[k] = v` replaces in place stays in the dict. */
  lemma PutFindsKey<V>(m: OrderedMap<V>, k: string, v: V)
    requires HasKey(m, k)
    ensures HasKey(Put(m, k, v), k)
  {
    var i :| 0 <= i < |m| && m[i].0 == k;
    assert Put(m, k, v)[i].0 == k;
  }

  /** The keys of a dict are those before its last binding and that one's. */
  lemma HasKeyOfLast<V>(m: OrderedMap<V>)
    requires |m| > 0
    ensures forall j :: HasKey(m, j) <==> HasKey(m[..|m| - 1], j) || j == m[|m| - 1].0
  {
    var n := |m| - 1;
    forall j
      ensures HasKey(m, j) <==> HasKey(m[..n], j) || j == m[n].0
    {
      if HasKey(m[..n], j) {
        var i :| 0 <= i < n && m[..n][i].0 == j;
        assert m[i].0 == j;
      }
      if HasKey(m, j) && j != m[n].0 {
        var i :| 0 <= i < |m| && m[i].0 == j;
        assert m[..n][i].0 == j;
      }
    }
  }

  /** Python's `{**base, **over}`: the bindings of `over` assigned one
      after another onto a copy of `base`. */
  function Merge<V>(base: OrderedMap<V>, over: OrderedMap<V>): OrderedMap<V>
    decreases |over|
  {
    if |over| == 0 then base else Merge(Put(base, over[0].0, over[0].1), over[1..])
  }

  /** `base` in its own order, each value replaced by the one `over` binds
      to the same key, if any. */
  function Overridden<V>(base: OrderedMap<V>, over: OrderedMap<V>): OrderedMap<V> {
    seq(|base|, i requires 0 <= i < |base| => (base[i].0, Find(over, base[i].0).GetOr(base[i].1)))
  }

  /** The bindings of `over` whose keys `base` lacks, in `over`'s order. */
  function Added<V>(base: OrderedMap<V>, over: OrderedMap<V>): OrderedMap<V> {
    if |over| == 0 then []
    else (if HasKey(base, over[0].0) then [] else [over[0]]) + Added(base, over[1..])
  }

  lemma UniqueTail<V>(m: OrderedMap<V>)
    requires UniqueKeys(m) && |m| > 0
    ensures UniqueKeys(m[1..])
    ensures !HasKey(m[1..], m[0].0)
  {
    forall a, b | 0 <= a < b < |m[1..]|
      ensures m[1..][a].0 != m[1..][b].0
    {
      assert m[1..][a] == m[a + 1] && m[1..][b] == m[b + 1];
    }
    forall a | 0 <= a < |m[1..]|
      ensures m[1..][a].0 != m[0].0
    {
      assert m[1..][a] == m[a + 1];
    }
  }

  lemma PutKeepsUnique<V>(m: OrderedMap<V>, k: string, v: V)
    requires UniqueKeys(m)
    ensures UniqueKeys(Put(m, k, v))
    ensures forall j :: HasKey(Put(m, k, v), j) <==> HasKey(m, j) || j == k
  {
    PutHasKey(m, k, v);
    var r := Put(m, k, v);
    if HasKey(m, k) {
      assert forall i | 0 <= i < |r| :: r[i].0 == m[i].0;
    } else {
      assert forall i | 0 <= i < |m| :: r[i].0 != r[|m|].0;
    }
  }

  lemma AddedIgnoresKnownKeys<V>(base: OrderedMap<V>, base': OrderedMap<V>, over: OrderedMap<V>)
    requires forall j | HasKey(over, j) :: HasKey(base, j) <==> HasKey(base', j)
    ensures Added(base, over) == Added(base', over)
  {
    if |over| > 0 {
      assert HasKey(over, over[0].0) by { assert over[0].0 == over[0].0; }
      forall j | HasKey(over[1..], j)
        ensures HasKey(base, j) <==> HasKey(base', j)
      {
        var i :| 0 <= i < |over[1..]| && over[1..][i].0 == j;
        assert over[i + 1].0 == j;
      }
      AddedIgnoresKnownKeys(base, base', over[1..]);
    }
  }

  /** For dicts, `{**base, **over}` keeps `base`'s keys in place with
      `over`'s values winning, then appends `over`'s new keys in order. */
  lemma {:induction false} MergeShape<V>(base: OrderedMap<V>, over: OrderedMap<V>)
    requires UniqueKeys(base) && UniqueKeys(over)
    ensures Merge(base, over) == Overridden(base, over) + Added(base, over)
    ensures UniqueKeys(Merge(base, over))
    decreases |over|
  {
    if |over| == 0 {
      assert Overridden(base, over) == base;
    } else {
      var put := Put(base, over[0].0, over[0].1);
      UniqueTail(over);
      PutKeepsUnique(base, over[0].0, over[0].1);
      MergeShape(put, over[1..]);
      MergeStep(base, over);
    }
  }

  /** One assignment of `{**base, **over}`, given the shape of the rest. */
  lemma MergeStep<V>(base: OrderedMap<V>, over: OrderedMap<V>)
    requires UniqueKeys(base) && UniqueKeys(over) && |over| > 0
    requires var put := Put(base, over[0].0, over[0].1);
             Merge(put, over[1..]) == Overridden(put, over[1..]) + Added(put, over[1..])
    ensures Merge(base, over) == Overridden(base, over) + Added(base, over)
  {
    var put := Put(base, over[0].0, over[0].1);
    assert Merge(base, over) == Merge(put, over[1..]);
    StepShape(base, over);
  }

  /** The shape after the first assignment, in terms of `base`. */
  lemma StepShape<V>(base: OrderedMap<V>, over: OrderedMap<V>)
    requires UniqueKeys(base) && UniqueKeys(over) && |over| > 0
    ensures var put := Put(base, over[0].0, over[0].1);
            Overridden(put, over[1..]) + Added(put, over[1..]) == Overridden(base, over) + Added(base, over)
  {
    AddedAfterPut(base, over);
    if HasKey(base, over[0].0) {
      ReplaceShape(base, over);
    } else {
      AppendShape(base, over);
    }
  }

  lemma ReplaceShape<V>(base: OrderedMap<V>, over: OrderedMap<V>)
    requires UniqueKeys(base) && UniqueKeys(over) && |over| > 0 && HasKey(base, over[0].0)
    ensures Overridden(Put(base, over[0].0, over[0].1), over[1..]) == Overridden(base, over)
    ensures Added(base, over) == Added(base, over[1..])
  {
    OverriddenAfterReplace(base, over[0].0, over[0].1, over);
  }

  lemma AppendShape<V>(base: OrderedMap<V>, over: OrderedMap<V>)
    requires UniqueKeys(over) && |over| > 0 && !HasKey(base, over[0].0)
    ensures Overridden(Put(base, over[0].0, over[0].1), over[1..]) + Added(base, over[1..])
            == Overridden(base, over) + Added(base, over)
  {
    var k, v := over[0].0, over[0].1;
    AddedNewKey(base, over);
    OverriddenAfterAppend(base, k, v, over);
    ConcatAssoc(Overridden(base, over), [(k, v)], Added(base, over[1..]));
  }

  lemma AddedNewKey<V>(base: OrderedMap<V>, over: OrderedMap<V>)
    requires |over| > 0 && !HasKey(base, over[0].0)
    ensures Added(base, over) == [over[0]] + Added(base, over[1..])
  {
  }

  lemma UpdateTail<T>(m: seq<T>, i: nat, x: T)
    requires 0 < i < |m|
    ensures m[i := x] == [m[0]] + m[1..][i - 1 := x]
  {
    var u := m[1..][i - 1 := x];
    assert forall j | 0 <= j < |u| :: u[j] == m[i := x][j + 1];
  }

  /** The first assignment adds no key that the rest of `over` binds. */
  lemma AddedAfterPut<V>(base: OrderedMap<V>, over: OrderedMap<V>)
    requires UniqueKeys(base) && UniqueKeys(over) && |over| > 0
    ensures Added(Put(base, over[0].0, over[0].1), over[1..]) == Added(base, over[1..])
  {
    var k, v := over[0].0, over[0].1;
    var put := Put(base, k, v);
    UniqueTail(over);
    PutKeepsUnique(base, k, v);
    forall j | HasKey(over[1..], j)
      ensures HasKey(put, j) <==> HasKey(base, j)
    {
      assert j != k;
    }
    AddedIgnoresKnownKeys(put, base, over[1..]);
  }

  lemma OverriddenAfterReplace<V>(base: OrderedMap<V>, k: string, v: V, over: OrderedMap<V>)
    requires UniqueKeys(base) && UniqueKeys(over) && |over| > 0 && over[0] == (k, v)
    requires HasKey(base, k)
    ensures Overridden(Put(base, k, v), over[1..]) == Overridden(base, over)
  {
    var put := Put(base, k, v);
    UniqueTail(over);
    var i :| 0 <= i < |base| && base[i].0 == k;
    PutReplaces(base, k, v, i);
    forall x | 0 <= x < |base|
      ensures Overridden(put, over[1..])[x] == Overridden(base, over)[x]
    {
      if x != i {
        assert base[x].0 != k;
      }
    }
  }

  lemma PutReplaces<V>(m: OrderedMap<V>, k: string, v: V, i: nat)
    requires UniqueKeys(m) && i < |m| && m[i].0 == k
    ensures Put(m, k, v) == m[i := (k, v)]
  {
    if i > 0 {
      UniqueTail(m);
      assert m[1..][i - 1] == m[i];
      assert m[0].0 != k;
      PutReplaces(m[1..], k, v, i - 1);
      assert Put(m, k, v) == [m[0]] + Put(m[1..], k, v);
      UpdateTail(m, i, (k, v));
    }
  }

  lemma OverriddenAfterAppend<V>(base: OrderedMap<V>, k: string, v: V, over: OrderedMap<V>)
    requires UniqueKeys(over) && |over| > 0 && over[0] == (k, v)
    requires !HasKey(base, k)
    ensures Overridden(Put(base, k, v), over[1..]) == Overridden(base, over) + [(k, v)]
  {
    UniqueTail(over);
    var put := Put(base, k, v);
    forall x | 0 <= x < |base|
      ensures Overridden(put, over[1..])[x] == Overridden(base, over)[x]
    {
      assert put[x] == base[x];
      assert base[x].0 != k;
    }
  }

  /** Lookup in a merge: `over` wins where it binds the key. */
  lemma MergeFind<V>(base: OrderedMap<V>, over: OrderedMap<V>, k: string)
    requires UniqueKeys(base) && UniqueKeys(over)
    ensures Find(Merge(base, over), k) == if HasKey(over, k) then Find(over, k) else Find(base, k)
  {
    MergeShape(base, over);
    var left, right := Overridden(base, over), Added(base, over);
    var merged := left + right;
    assert Merge(base, over) == merged;
    if HasKey(merged, k) {
      var i :| 0 <= i < |merged| && merged[i].0 == k;
      FindAt(merged, i);
      if i < |base| {
        assert merged[i] == left[i] && base[i].0 == k;
        FindInOverridden(base, over, i);
      } else {
        assert merged[i] == right[i - |base|];
        FindInAdded(base, over, i - |base|);
      }
    } else {
      MergeHasKeys(base, over, k);
    }
  }

  lemma FindInOverridden<V>(base: OrderedMap<V>, over: OrderedMap<V>, i: nat)
    requires UniqueKeys(base) && i < |base|
    ensures Some(Overridden(base, over)[i].1)
         == if HasKey(over, base[i].0) then Find(over, base[i].0) else Find(base, base[i].0)
  {
    FindAt(base, i);
  }

  lemma FindInAdded<V>(base: OrderedMap<V>, over: OrderedMap<V>, i: nat)
    requires UniqueKeys(over) && i < |Added(base, over)|
    ensures var (k, v) := Added(base, over)[i];
            HasKey(over, k) && Find(over, k) == Some(v)
  {
    AddedFrom(base, over, i);
    var j :| 0 <= j < |over| && over[j] == Added(base, over)[i];
    FindAt(over, j);
  }

  lemma MergeHasKeys<V>(base: OrderedMap<V>, over: OrderedMap<V>, k: string)
    ensures HasKey(base, k) || HasKey(over, k) ==> HasKey(Overridden(base, over) + Added(base, over), k)
  {
    var merged := Overridden(base, over) + Added(base, over);
    if HasKey(base, k) {
      var i :| 0 <= i < |base| && base[i].0 == k;
      assert merged[i].0 == k;
    } else if HasKey(over, k) {
      var j :| 0 <= j < |over| && over[j].0 == k;
      AddedHas(base, over, j);
      var i :| 0 <= i < |Added(base, over)| && Added(base, over)[i].0 == k;
      assert merged[|base| + i].0 == k;
    }
  }

  lemma AddedFrom<V>(base: OrderedMap<V>, over: OrderedMap<V>, i: nat)
    requires i < |Added(base, over)|
    ensures exists j | 0 <= j < |over| :: over[j] == Added(base, over)[i] && !HasKey(base, over[j].0)
  {
    if |over| > 0 {
      var head: OrderedMap<V> := if HasKey(base, over[0].0) then [] else [over[0]];
      if i < |head| {
        assert over[0] == Added(base, over)[i];
      } else {
        AddedFrom(base, over[1..], i - |head|);
        var j :| 0 <= j < |over[1..]| && over[1..][j] == Added(base, over[1..])[i - |head|]
                 && !HasKey(base, over[1..][j].0);
        assert over[j + 1] == Added(base, over)[i];
      }
    }
  }

  lemma AddedHas<V>(base: OrderedMap<V>, over: OrderedMap<V>, j: nat)
    requires j < |over| && !HasKey(base, over[j].0)
    ensures HasKey(Added(base, over), over[j].0)
  {
    if j == 0 {
      assert Added(base, over)[0] == over[0];
    } else {
      assert over[1..][j - 1] == over[j];
      AddedHas(base, over[1..], j - 1);
      var head: OrderedMap<V> := if HasKey(base, over[0].0) then [] else [over[0]];
      var i :| 0 <= i < |Added(base, over[1..])| && Added(base, over[1..])[i].0 == over[j].0;
      assert Added(base, over)[|head| + i] == Added(base, over[1..])[i];
    }
  }
}
