/**
 * Python dictionaries as the source uses them: insertion-ordered, with
 * `d[k] = v` replacing a present key in place and appending a new one, and
 * `collections.defaultdict(list)` whose `d[k].append(x)` / `d[k].extend(xs)`
 * create the key on first use.  A dictionary is the sequence of its entries
 * in insertion order.
 */
module Dicts {
  import opened Wrappers

  type Dict<K, V> = seq<(K, V)>

  /** No key occurs twice: true of every dictionary the operations below build. */
  ghost predicate DistinctKeys<K, V>(d: Dict<K, V>) {
    forall i, j :: 0 <= i < j < |d| ==> d[i].0 != d[j].0
  }

  /** `d.get(k)`. */
  function Get<K(==), V>(d: Dict<K, V>, k: K): Option<V>
  {
    if |d| == 0 then None
    else if d[0].0 == k then Some(d[0].1)
    else Get(d[1..], k)
  }

  /** `d[k] = v`: a present key keeps its position, a new key goes last. */
  function Put<K(==), V>(d: Dict<K, V>, k: K, v: V): Dict<K, V>
  {
    if |d| == 0 then [(k, v)]
    else if d[0].0 == k then [(k, v)] + d[1..]
    else [d[0]] + Put(d[1..], k, v)
  }

  /** `d[k]` of a `defaultdict(list)` read without creating the key. */
  function Lookup<K(==), X>(d: Dict<K, seq<X>>, k: K): seq<X>
  {
    Get(d, k).GetOr([])
  }

  /** `d[k].append(x)` on a `defaultdict(list)`. */
  function Append<K(==), X>(d: Dict<K, seq<X>>, k: K, x: X): Dict<K, seq<X>>
  {
    Put(d, k, Lookup(d, k) + [x])
  }

  /** `d[k].extend(xs)` on a `defaultdict(list)`. */
  function Extend<K(==), X>(d: Dict<K, seq<X>>, k: K, xs: seq<X>): Dict<K, seq<X>>
  {
    Put(d, k, Lookup(d, k) + xs)
  }

  /** The `defaultdict(list)` obtained by appending each item's value under its key, in order. */
  function Group<K(==), X>(items: seq<(K, X)>): Dict<K, seq<X>>
  {
    if |items| == 0 then []
    else
      var last := items[|items| - 1];
      Append(Group(items[..|items| - 1]), last.0, last.1)
  }

  /** The values of the items with key `k`, in order: the reference meaning of one group. */
  function Select<K(==), X>(items: seq<(K, X)>, k: K): seq<X>
  {
    if |items| == 0 then []
    else
      var last := items[|items| - 1];
      Select(items[..|items| - 1], k) + (if last.0 == k then [last.1] else [])
  }

  /** `{k: v for k, v in d.items() if len(v) > 1}`. */
  function Multiples<K, X>(d: Dict<K, seq<X>>): Dict<K, seq<X>>
  {
    if |d| == 0 then []
    else Multiples(d[..|d| - 1]) + (if |d[|d| - 1].1| > 1 then [d[|d| - 1]] else [])
  }

  /** `[x for v in d.values() for x in v]`. */
  function Flatten<K, X>(d: Dict<K, seq<X>>): seq<X>
  {
    if |d| == 0 then [] else Flatten(d[..|d| - 1]) + d[|d| - 1].1
  }

  /** Number of entries whose list has more than one element, each contributing `len - 1`. */
  function Excess<K, X>(d: Dict<K, seq<X>>): nat
  {
    if |d| == 0 then 0
    else Excess(d[..|d| - 1]) + (if |d[|d| - 1].1| > 1 then |d[|d| - 1].1| - 1 else 0)
  }

  // ----- Get and Put -----

  lemma PutGet<K, V>(d: Dict<K, V>, k: K, v: V, k': K)
    ensures Get(Put(d, k, v), k') == if k' == k then Some(v) else Get(d, k')
  {
    if |d| > 0 && d[0].0 != k {
      PutGet(d[1..], k, v, k');
      assert Put(d, k, v)[1..] == Put(d[1..], k, v);
    }
  }

  lemma PutMembers<K, V>(d: Dict<K, V>, k: K, v: V)
    ensures forall e :: e in Put(d, k, v) ==> e in d || e == (k, v)
  {
    if |d| > 0 && d[0].0 != k {
      PutMembers(d[1..], k, v);
    }
  }

  lemma PutKeyMembers<K, V>(d: Dict<K, V>, k: K, v: V)
    ensures forall e :: e in Put(d, k, v) ==> e.0 == k || exists e' :: e' in d && e'.0 == e.0
  {
    PutMembers(d, k, v);
  }

  lemma PutFresh<K, V>(d: Dict<K, V>, k: K, v: V)
    requires Get(d, k) == None
    ensures Put(d, k, v) == d + [(k, v)]
  {
    if |d| > 0 {
      PutFresh(d[1..], k, v);
    }
  }

  lemma PutDistinct<K, V>(d: Dict<K, V>, k: K, v: V)
    requires DistinctKeys(d)
    ensures DistinctKeys(Put(d, k, v))
  {
    if |d| > 0 && d[0].0 != k {
      var t := d[1..];
      assert DistinctKeys(t) by {
        forall i, j | 0 <= i < j < |t| ensures t[i].0 != t[j].0 {
          assert t[i] == d[i + 1] && t[j] == d[j + 1];
        }
      }
      PutDistinct(t, k, v);
      PutMembers(t, k, v);
      var r := Put(d, k, v);
      assert r == [d[0]] + Put(t, k, v);
      forall i, j | 0 <= i < j < |r| ensures r[i].0 != r[j].0 {
        if i == 0 {
          assert r[j] in Put(t, k, v);
          if r[j] != (k, v) {
            assert r[j] in t;
            var m :| 0 <= m < |t| && t[m] == r[j];
            assert d[m + 1] == r[j];
          }
        } else {
          assert r[i] == Put(t, k, v)[i - 1] && r[j] == Put(t, k, v)[j - 1];
        }
      }
    }
  }

  lemma GetMember<K, V>(d: Dict<K, V>, k: K)
    ensures Get(d, k).Some? ==> (k, Get(d, k).value) in d
    ensures Get(d, k).None? <==> forall e :: e in d ==> e.0 != k
  {
    if |d| > 0 && d[0].0 != k {
      GetMember(d[1..], k);
      assert forall e :: e in d ==> e == d[0] || e in d[1..];
    }
  }

  lemma MemberGet<K, V>(d: Dict<K, V>, k: K, v: V)
    requires DistinctKeys(d) && (k, v) in d
    ensures Get(d, k) == Some(v)
  {
    if d[0] != (k, v) {
      var m :| 0 <= m < |d| && d[m] == (k, v);
      assert m > 0 && d[0].0 != d[m].0;
      assert d[1..][m - 1] == (k, v);
      assert DistinctKeys(d[1..]) by {
        forall i, j | 0 <= i < j < |d[1..]| ensures d[1..][i].0 != d[1..][j].0 {
          assert d[1..][i] == d[i + 1] && d[1..][j] == d[j + 1];
        }
      }
      MemberGet(d[1..], k, v);
    }
  }

  // ----- Group -----

  /** Appending one more item is one more `append` on the dictionary. */
  lemma GroupSnoc<K, X>(items: seq<(K, X)>, k: K, x: X)
    ensures Group(items + [(k, x)]) == Append(Group(items), k, x)
  {
    assert (items + [(k, x)])[..|items|] == items;
  }

  lemma GroupGet<K, X>(items: seq<(K, X)>, k: K)
    ensures Get(Group(items), k) == if |Select(items, k)| == 0 then None else Some(Select(items, k))
  {
    if |items| > 0 {
      var init, last := items[..|items| - 1], items[|items| - 1];
      GroupGet(init, k);
      GroupGet(init, last.0);
      assert Lookup(Group(init), last.0) == Select(init, last.0);
      PutGet(Group(init), last.0, Lookup(Group(init), last.0) + [last.1], k);
      assert Group(items) == Put(Group(init), last.0, Lookup(Group(init), last.0) + [last.1]);
      assert Select(items, k) == Select(init, k) + (if last.0 == k then [last.1] else []);
      if k == last.0 {
        assert Get(Group(items), k) == Some(Select(init, k) + [last.1]);
      } else {
        assert Get(Group(items), k) == Get(Group(init), k);
        assert Select(items, k) == Select(init, k);
      }
    }
  }

  lemma GroupDistinct<K, X>(items: seq<(K, X)>)
    ensures DistinctKeys(Group(items))
  {
    if |items| > 0 {
      var init, last := items[..|items| - 1], items[|items| - 1];
      GroupDistinct(init);
      PutDistinct(Group(init), last.0, Lookup(Group(init), last.0) + [last.1]);
    }
  }

  /** Each group is exactly the selection of its key, and is never empty. */
  lemma GroupEntries<K, X>(items: seq<(K, X)>)
    ensures forall e :: e in Group(items) ==> e.1 == Select(items, e.0) && |e.1| > 0
  {
    GroupDistinct(items);
    forall e | e in Group(items) ensures e.1 == Select(items, e.0) && |e.1| > 0 {
      MemberGet(Group(items), e.0, e.1);
      GroupGet(items, e.0);
    }
  }

  lemma SelectMembers<K, X>(items: seq<(K, X)>, k: K)
    ensures forall x :: x in Select(items, k) ==> (k, x) in items
  {
    if |items| > 0 {
      SelectMembers(items[..|items| - 1], k);
    }
  }

  lemma SelectHas<K, X>(items: seq<(K, X)>, i: nat)
    requires i < |items|
    ensures items[i].1 in Select(items, items[i].0)
  {
    if i < |items| - 1 {
      SelectHas(items[..|items| - 1], i);
    }
  }

  /** A key with two items at different positions selects at least two values. */
  lemma MemberSelect<K, X>(items: seq<(K, X)>, k: K, x: X)
    requires (k, x) in items
    ensures x in Select(items, k)
  {
    var i :| 0 <= i < |items| && items[i] == (k, x);
    SelectHas(items, i);
  }

  lemma SelectTwo<K, X>(items: seq<(K, X)>, i: nat, j: nat)
    requires i < j < |items| && items[i].0 == items[j].0
    ensures |Select(items, items[i].0)| >= 2
  {
    var init := items[..|items| - 1];
    if j < |items| - 1 {
      SelectTwo(init, i, j);
    } else {
      SelectHas(init, i);
    }
  }

  lemma SelectLength<K, X>(items: seq<(K, X)>, k: K)
    ensures |Select(items, k)| > 0 <==> exists e :: e in items && e.0 == k
  {
    if |items| > 0 {
      var init := items[..|items| - 1];
      SelectLength(init, k);
      assert forall e :: e in items ==> e in init || e == items[|items| - 1];
    }
  }

  // ----- Multiples and Flatten -----

  lemma MultiplesMembers<K, X>(d: Dict<K, seq<X>>)
    ensures forall e :: e in Multiples(d) <==> e in d && |e.1| > 1
  {
    if |d| > 0 {
      MultiplesMembers(d[..|d| - 1]);
      assert forall e :: e in d <==> e in d[..|d| - 1] || e == d[|d| - 1];
    }
  }

  lemma MultiplesSub<K, X>(d: Dict<K, seq<X>>, e: (K, seq<X>))
    requires e in Multiples(d)
    ensures e in d
  {
    MultiplesMembers(d);
  }

  lemma MultiplesDistinct<K, X>(d: Dict<K, seq<X>>)
    requires DistinctKeys(d)
    ensures DistinctKeys(Multiples(d))
  {
    if |d| > 0 {
      var init, last := d[..|d| - 1], d[|d| - 1];
      assert DistinctKeys(init);
      MultiplesDistinct(init);
      MultiplesMembers(init);
      var r := Multiples(d);
      if |last.1| > 1 {
        assert r == Multiples(init) + [last];
        forall i | 0 <= i < |r| - 1 ensures r[i].0 != last.0 {
          var e := Multiples(init)[i];
          assert e in Multiples(init);
          MultiplesSub(init, e);
          assert e in init;
          var m :| 0 <= m < |init| && init[m] == e;
          assert init[m] == d[m];
        }
      }
    }
  }

  lemma MultiplesGet<K, X>(d: Dict<K, seq<X>>, k: K)
    requires DistinctKeys(d)
    ensures Get(Multiples(d), k) == if Get(d, k).Some? && |Get(d, k).value| > 1 then Get(d, k) else None
  {
    MultiplesMembers(d);
    MultiplesDistinct(d);
    GetMember(d, k);
    GetMember(Multiples(d), k);
    if Get(Multiples(d), k).Some? {
      MemberGet(d, k, Get(Multiples(d), k).value);
    }
    if Get(d, k).Some? && |Get(d, k).value| > 1 {
      MemberGet(Multiples(d), k, Get(d, k).value);
    }
  }

  lemma FlattenMembers<K, X>(d: Dict<K, seq<X>>)
    ensures forall x :: x in Flatten(d) <==> exists e :: e in d && x in e.1
  {
    if |d| > 0 {
      FlattenMembers(d[..|d| - 1]);
      assert forall e :: e in d <==> e in d[..|d| - 1] || e == d[|d| - 1];
    }
  }

  // ----- sizes and contents -----

  /** The values of a sequence of items, in order. */
  function Seconds<K, X>(items: seq<(K, X)>): seq<X>
  {
    if |items| == 0 then [] else Seconds(items[..|items| - 1]) + [items[|items| - 1].1]
  }

  lemma {:induction false} SecondsConcat<K, X>(a: seq<(K, X)>, b: seq<(K, X)>)
    ensures Seconds(a + b) == Seconds(a) + Seconds(b)
  {
    if |b| == 0 {
      assert a + b == a;
    } else {
      SecondsConcat(a, b[..|b| - 1]);
      assert (a + b)[..|a + b| - 1] == a + b[..|b| - 1];
    }
  }

  lemma {:induction false} SecondsLength<K, X>(items: seq<(K, X)>)
    ensures |Seconds(items)| == |items|
  {
    if |items| > 0 {
      SecondsLength(items[..|items| - 1]);
    }
  }

  /** The keys occurring in a sequence of items. */
  ghost function KeySet<K, X>(items: seq<(K, X)>): set<K>
  {
    set it | it in items :: it.0
  }

  lemma {:induction false} FlattenConcat<K, X>(a: Dict<K, seq<X>>, b: Dict<K, seq<X>>)
    ensures Flatten(a + b) == Flatten(a) + Flatten(b)
  {
    if |b| == 0 {
      assert a + b == a;
    } else {
      var butLast := b[..|b| - 1];
      FlattenConcat(a, butLast);
      assert (a + b)[..|a + b| - 1] == a + butLast;
      assert (a + b)[|a + b| - 1] == b[|b| - 1];
    }
  }

  lemma FlattenCons<K, X>(e: (K, seq<X>), d: Dict<K, seq<X>>)
    ensures Flatten([e] + d) == e.1 + Flatten(d)
  {
    FlattenConcat([e], d);
    assert [e][..0] == [];
  }

  lemma {:induction false} PutLength<K, V>(d: Dict<K, V>, k: K, v: V)
    ensures |Put(d, k, v)| == |d| + if Get(d, k).None? then 1 else 0
  {
    if |d| > 0 && d[0].0 != k {
      PutLength(d[1..], k, v);
    }
  }

  lemma {:induction false} PutFlatten<K, X>(d: Dict<K, seq<X>>, k: K, v: seq<X>)
    ensures multiset(Flatten(Put(d, k, v))) + multiset(Lookup(d, k)) == multiset(Flatten(d)) + multiset(v)
  {
    if |d| == 0 {
      FlattenCons((k, v), []);
    } else {
      var rest := d[1..];
      assert d == [d[0]] + rest;
      FlattenCons(d[0], rest);
      if d[0].0 == k {
        FlattenCons((k, v), rest);
        assert Lookup(d, k) == d[0].1;
        var m, n := multiset(d[0].1), multiset(Flatten(rest));
        calc {
          multiset(Flatten(Put(d, k, v))) + multiset(Lookup(d, k));
          multiset(v) + n + m;
          multiset(Flatten(d)) + multiset(v);
        }
      } else {
        PutFlatten(rest, k, v);
        FlattenCons(d[0], Put(rest, k, v));
        assert Lookup(d, k) == Lookup(rest, k);
        var m := multiset(d[0].1);
        calc {
          multiset(Flatten(Put(d, k, v))) + multiset(Lookup(d, k));
          m + multiset(Flatten(Put(rest, k, v))) + multiset(Lookup(rest, k));
          m + (multiset(Flatten(Put(rest, k, v))) + multiset(Lookup(rest, k)));
          m + (multiset(Flatten(rest)) + multiset(v));
          m + multiset(Flatten(rest)) + multiset(v);
          multiset(Flatten(d)) + multiset(v);
        }
      }
    }
  }

  lemma MultisetSnoc<X>(s: seq<X>)
    requires |s| > 0
    ensures multiset(s) == multiset(s[..|s| - 1]) + multiset{s[|s| - 1]}
  {
    assert s == s[..|s| - 1] + [s[|s| - 1]];
  }

  lemma MultisetCancel<X>(a: multiset<X>, b: multiset<X>, c: multiset<X>)
    requires a + c == b + c
    ensures a == b
  {
    assert forall z :: a[z] == (a + c)[z] - c[z] == (b + c)[z] - c[z] == b[z];
  }

  /** Grouping loses and invents nothing: the groups together hold exactly the items' values. */
  lemma {:induction false} GroupFlatten<K, X>(items: seq<(K, X)>)
    ensures multiset(Flatten(Group(items))) == multiset(Seconds(items))
  {
    if |items| > 0 {
      var init, last := items[..|items| - 1], items[|items| - 1];
      GroupFlatten(init);
      var g, prev := Group(init), Lookup(Group(init), last.0);
      assert Group(items) == Put(g, last.0, prev + [last.1]);
      PutFlatten(g, last.0, prev + [last.1]);
      assert Seconds(items) == Seconds(init) + [last.1];
      var l := multiset(prev);
      calc {
        multiset(Flatten(Group(items))) + l;
        multiset(Flatten(g)) + multiset(prev + [last.1]);
        multiset(Seconds(init)) + l + multiset{last.1};
        multiset(Seconds(items)) + l;
      }
      MultisetCancel(multiset(Flatten(Group(items))), multiset(Seconds(items)), l);
    }
  }

  /** There is one group per distinct key. */
  lemma {:induction false} GroupCount<K, X>(items: seq<(K, X)>)
    ensures |Group(items)| == |KeySet(items)|
  {
    if |items| == 0 {
      assert KeySet(items) == {};
    } else {
      var init, last := items[..|items| - 1], items[|items| - 1];
      GroupCount(init);
      PutLength(Group(init), last.0, Lookup(Group(init), last.0) + [last.1]);
      GroupGet(init, last.0);
      SelectLength(init, last.0);
      assert KeySet(items) == KeySet(init) + {last.0} by {
        assert forall it :: it in items <==> it in init || it == last;
      }
      if last.0 in KeySet(init) {
        assert exists e :: e in init && e.0 == last.0;
        assert KeySet(items) == KeySet(init);
      } else {
        assert forall e :: e in init ==> e.0 != last.0;
      }
    }
  }

  /** Summing `len - 1` over the lists of a dictionary without empty lists. */
  lemma {:induction false} ExcessFlatten<K, X>(d: Dict<K, seq<X>>)
    requires forall e :: e in d ==> |e.1| > 0
    ensures Excess(d) == |Flatten(d)| - |d|
  {
    if |d| > 0 {
      assert d[|d| - 1] in d;
      assert forall e :: e in d[..|d| - 1] ==> e in d;
      ExcessFlatten(d[..|d| - 1]);
    }
  }

  /** Grouping, the items beyond the first under each key are the items less the distinct keys. */
  lemma GroupExcess<K, X>(items: seq<(K, X)>)
    ensures Excess(Group(items)) == |items| - |KeySet(items)|
  {
    GroupEntries(items);
    ExcessFlatten(Group(items));
    assert |Flatten(Group(items))| == |items| by {
      GroupFlatten(items);
      SecondsLength(items);
      assert |multiset(Flatten(Group(items)))| == |multiset(Seconds(items))|;
    }
    GroupCount(items);
  }

  // ----- distinct elements -----

  /** No element occurs twice (the paths `os.walk` yields are such a sequence). */
  ghost predicate NoDuplicates<X>(s: seq<X>)
  {
    forall i, j :: 0 <= i < j < |s| ==> s[i] != s[j]
  }

  lemma {:induction false} NoDuplicatesCount<X>(s: seq<X>)
    ensures NoDuplicates(s) <==> forall x :: multiset(s)[x] <= 1
  {
    if NoDuplicates(s) {
      if |s| > 0 {
        var init, last := s[..|s| - 1], s[|s| - 1];
        assert NoDuplicates(init);
        NoDuplicatesCount(init);
        MultisetSnoc(s);
        assert last !in init;
      }
    }
    if forall x :: multiset(s)[x] <= 1 {
      forall i, j | 0 <= i < j < |s| ensures s[i] != s[j] {
        if s[i] == s[j] {
          TwoCopies(s, i, j);
          assert false;
        }
      }
    }
  }

  lemma TwoDistinct<X>(s: seq<X>, x: X, y: X)
    requires x in s && y in s && x != y
    ensures |s| >= 2
  {
  }

  lemma TwoCopies<X>(s: seq<X>, i: nat, j: nat)
    requires i < j < |s| && s[i] == s[j]
    ensures multiset(s)[s[i]] >= 2
  {
    var x := s[i];
    assert s == s[..j] + [x] + s[j + 1..];
    assert x in s[..j];
  }

  lemma {:induction false} MultiplesFlattenSub<K, X>(d: Dict<K, seq<X>>)
    ensures multiset(Flatten(Multiples(d))) <= multiset(Flatten(d))
  {
    if |d| > 0 {
      var init, last := d[..|d| - 1], d[|d| - 1];
      MultiplesFlattenSub(init);
      assert multiset(Flatten(d)) == multiset(Flatten(init)) + multiset(last.1);
      if |last.1| > 1 {
        var m := Multiples(init);
        assert (m + [last])[..|m|] == m;
        assert Flatten(Multiples(d)) == Flatten(m) + last.1;
      } else {
        assert Multiples(d) == Multiples(init);
      }
    }
  }

  /** Multiplication distributes over addition (stated once, so proofs need not rediscover it). */
  lemma Distribute(a: nat, b: nat, c: nat)
    ensures a * (b + c) == a * b + a * c
  {
  }
}
