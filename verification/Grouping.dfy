/** Insertion-ordered dictionaries of lists, as `setdefault(key, []).append(x)` fills them. */
module Grouping {

  /** A Python dict: its keys in insertion order, and the value of each. */
  datatype Dict<K, V> = Dict(order: seq<K>, at: map<K, V>)

  /** The distinct keys of `xs`, in first-seen order. */
  function KeysInOrder<K(==), V>(key: V -> K, xs: seq<V>): seq<K> {
    if xs == [] then []
    else
      var seen := KeysInOrder(key, xs[..|xs| - 1]);
      var k := key(xs[|xs| - 1]);
      if k in seen then seen else seen + [k]
  }

  /** The elements of `xs` whose key is `k`, in order. */
  function Select<K(==), V>(key: V -> K, k: K, xs: seq<V>): seq<V> {
    if xs == [] then []
    else
      var chosen := Select(key, k, xs[..|xs| - 1]);
      var x := xs[|xs| - 1];
      if key(x) == k then chosen + [x] else chosen
  }

  lemma {:induction false} KeysExact<K, V>(key: V -> K, xs: seq<V>, k: K)
    ensures k in KeysInOrder(key, xs) <==> exists x :: x in xs && key(x) == k
  {
    if xs != [] {
      var init, last := xs[..|xs| - 1], xs[|xs| - 1];
      assert xs == init + [last];
      KeysExact(key, init, k);
      if exists x :: x in xs && key(x) == k {
        var x :| x in xs && key(x) == k;
        assert x in init || x == last;
      }
    }
  }

  lemma {:induction false} KeysDistinct<K, V>(key: V -> K, xs: seq<V>)
    ensures forall i, j :: 0 <= i < j < |KeysInOrder(key, xs)| ==> KeysInOrder(key, xs)[i] != KeysInOrder(key, xs)[j]
  {
    if xs != [] { KeysDistinct(key, xs[..|xs| - 1]); }
  }

  lemma {:induction false} SelectCounts<K, V>(key: V -> K, k: K, xs: seq<V>, x: V)
    ensures multiset(Select(key, k, xs))[x] == if key(x) == k then multiset(xs)[x] else 0
  {
    if xs != [] {
      SelectCounts(key, k, xs[..|xs| - 1], x);
      assert xs == xs[..|xs| - 1] + [xs[|xs| - 1]];
    }
  }

  lemma SelectMembers<K, V>(key: V -> K, k: K, xs: seq<V>)
    ensures forall x :: x in Select(key, k, xs) <==> x in xs && key(x) == k
  {
    forall x ensures x in Select(key, k, xs) <==> x in xs && key(x) == k {
      SelectCounts(key, k, xs, x);
      assert x in Select(key, k, xs) <==> multiset(Select(key, k, xs))[x] > 0;
      assert x in xs <==> multiset(xs)[x] > 0;
    }
  }

  lemma ManyKeys<K, V>(key: V -> K, xs: seq<V>)
    ensures |KeysInOrder(key, xs)| > 1 <==> exists x, y :: x in xs && y in xs && key(x) != key(y)
  {
    var ks := KeysInOrder(key, xs);
    KeysDistinct(key, xs);
    if |ks| > 1 {
      KeysExact(key, xs, ks[0]);
      KeysExact(key, xs, ks[1]);
      var x :| x in xs && key(x) == ks[0];
      var y :| y in xs && key(y) == ks[1];
      assert ks[0] != ks[1];
    }
    if x, y :| x in xs && y in xs && key(x) != key(y) {
      KeysExact(key, xs, key(x));
      KeysExact(key, xs, key(y));
    }
  }

  ghost function Members<K>(ks: seq<K>): set<K> { set k | k in ks }

  lemma {:induction false} DistinctSize<K>(ks: seq<K>)
    requires forall i, j :: 0 <= i < j < |ks| ==> ks[i] != ks[j]
    ensures |Members(ks)| == |ks|
  {
    if ks != [] {
      var init, last := ks[..|ks| - 1], ks[|ks| - 1];
      DistinctSize(init);
      assert Members(ks) == Members(init) + {last};
    }
  }

  /** The set of keys is as large as the list of distinct keys. */
  lemma KeySetSize<K, V>(key: V -> K, xs: seq<V>, keys: set<K>)
    requires forall x :: x in xs ==> key(x) in keys
    requires forall k :: k in keys ==> exists x :: x in xs && key(x) == k
    ensures |keys| == |KeysInOrder(key, xs)|
  {
    var ks := KeysInOrder(key, xs);
    KeysDistinct(key, xs);
    DistinctSize(ks);
    var listed := Members(ks);
    forall k | k in keys ensures k in listed { KeysExact(key, xs, k); }
    forall k | k in listed ensures k in keys {
      KeysExact(key, xs, k);
      var x :| x in xs && key(x) == k;
      assert x in xs;
    }
    assert keys <= listed && listed <= keys;
    assert keys == listed;
  }

  /** The dictionary a grouping loop ends with. */
  function Grouped<K(==), V>(key: V -> K, xs: seq<V>): Dict<K, seq<V>> {
    var order := KeysInOrder(key, xs);
    Dict(order, map k | k in order :: Select(key, k, xs))
  }

  method GroupBy<K(==), V>(key: V -> K, xs: seq<V>) returns (groups: Dict<K, seq<V>>)
    ensures groups == Grouped(key, xs)
  {
    var order: seq<K> := [];
    var at: map<K, seq<V>> := map[];
    for i := 0 to |xs|
      invariant order == KeysInOrder(key, xs[..i])
      invariant at.Keys == set k | k in order
      invariant forall k :: k in order ==> at[k] == Select(key, k, xs[..i])
    {
      var x := xs[i];
      var k := key(x);
      assert xs[..i + 1][..i] == xs[..i];
      if k !in at {
        order := order + [k];
        at := at[k := []];
        SelectNothing(key, k, xs[..i]);
      }
      at := at[k := at[k] + [x]];
    }
    assert xs[..|xs|] == xs;
    groups := Dict(order, at);
  }

  /** The groups named by `ks`, one after another. */
  function ConcatGroups<K(==), V>(key: V -> K, ks: seq<K>, xs: seq<V>): seq<V> {
    if ks == [] then [] else ConcatGroups(key, ks[..|ks| - 1], xs) + Select(key, ks[|ks| - 1], xs)
  }

  /** Equal keys are adjacent. */
  ghost predicate Clustered<K, V>(key: V -> K, xs: seq<V>) {
    forall i, j, k :: 0 <= i < j < k < |xs| && key(xs[i]) == key(xs[k]) ==> key(xs[j]) == key(xs[i])
  }

  lemma {:induction false} ConcatGroupsIgnores<K, V>(key: V -> K, ks: seq<K>, xs: seq<V>, x: V)
    requires key(x) !in ks
    ensures ConcatGroups(key, ks, xs + [x]) == ConcatGroups(key, ks, xs)
  {
    if ks != [] {
      ConcatGroupsIgnores(key, ks[..|ks| - 1], xs, x);
      assert (xs + [x])[..|xs|] == xs;
      assert ks[|ks| - 1] in ks;
    }
  }

  lemma {:induction false} ConcatGroupsAdds<K, V>(key: V -> K, ks: seq<K>, xs: seq<V>, x: V)
    requires key(x) in ks
    requires forall i, j :: 0 <= i < j < |ks| ==> ks[i] != ks[j]
    ensures multiset(ConcatGroups(key, ks, xs + [x])) == multiset(ConcatGroups(key, ks, xs)) + multiset{x}
  {
    var init, last := ks[..|ks| - 1], ks[|ks| - 1];
    assert (xs + [x])[..|xs|] == xs;
    if key(x) == last {
      ConcatGroupsIgnores(key, init, xs, x);
    } else {
      assert ks == init + [last];
      ConcatGroupsAdds(key, init, xs, x);
    }
  }

  /** Grouping keeps every element, with its multiplicity. */
  lemma {:induction false} GroupsConserve<K, V>(key: V -> K, xs: seq<V>)
    ensures multiset(ConcatGroups(key, KeysInOrder(key, xs), xs)) == multiset(xs)
  {
    if xs != [] {
      var init, last := xs[..|xs| - 1], xs[|xs| - 1];
      assert xs == init + [last];
      var seen := KeysInOrder(key, init);
      GroupsConserve(key, init);
      KeysDistinct(key, init);
      if key(last) in seen {
        ConcatGroupsAdds(key, seen, init, last);
      } else {
        ConcatGroupsIgnores(key, seen, init, last);
        assert KeysInOrder(key, xs)[..|seen|] == seen;
        SelectNothing(key, key(last), init);
      }
    }
  }

  lemma {:induction false} SelectNothing<K, V>(key: V -> K, k: K, xs: seq<V>)
    requires k !in KeysInOrder(key, xs)
    ensures Select(key, k, xs) == []
  {
    if xs != [] { SelectNothing(key, k, xs[..|xs| - 1]); }
  }

  lemma {:induction false} LastKeyIsNewest<K, V>(key: V -> K, xs: seq<V>)
    requires xs != [] && Clustered(key, xs)
    ensures KeysInOrder(key, xs) != []
    ensures KeysInOrder(key, xs)[|KeysInOrder(key, xs)| - 1] == key(xs[|xs| - 1])
  {
    var init, last := xs[..|xs| - 1], xs[|xs| - 1];
    if key(last) in KeysInOrder(key, init) {
      KeysExact(key, init, key(last));
      var x :| x in init && key(x) == key(last);
      var i :| 0 <= i < |init| && init[i] == x;
      RepeatedKeyIsAdjacent(key, xs, i);
      LastKeyIsNewest(key, init);
    }
  }

  lemma RepeatedKeyIsAdjacent<K, V>(key: V -> K, xs: seq<V>, i: nat)
    requires i < |xs| - 1 && Clustered(key, xs) && key(xs[i]) == key(xs[|xs| - 1])
    ensures key(xs[|xs| - 2]) == key(xs[|xs| - 1])
    ensures Clustered(key, xs[..|xs| - 1])
  {
  }

  /** Regrouping a list whose equal keys are adjacent, then flattening, changes nothing. */
  lemma {:induction false} RegroupingIsIdentity<K, V>(key: V -> K, xs: seq<V>)
    requires Clustered(key, xs)
    ensures ConcatGroups(key, KeysInOrder(key, xs), xs) == xs
  {
    if xs != [] {
      var init, last := xs[..|xs| - 1], xs[|xs| - 1];
      assert xs == init + [last];
      var seen, now := KeysInOrder(key, init), KeysInOrder(key, xs);
      RegroupingIsIdentity(key, init);
      LastKeyIsNewest(key, xs);
      KeysDistinct(key, xs);
      var older := now[..|now| - 1];
      assert now == older + [key(last)];
      ConcatGroupsIgnores(key, older, init, last);
      if key(last) !in seen {
        assert older == seen;
        SelectNothing(key, key(last), init);
      }
    }
  }
}
