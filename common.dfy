/**
  Shared vocabulary: optional values, error results, and the insertion-ordered
  dictionary that the services keep their records in.
 */
module Common {

  datatype Option<T> = None | Some(value: T)

  /** The outcome of an operation that returns nothing but may raise. */
  datatype Outcome<E> = Pass | Fail(error: E)

  /** The outcome of an operation that returns a value or raises. */
  datatype Result<T, E> = Success(value: T) | Failure(error: E)

  /** A record identifier (a `uuid4` string): only compared for equality. */
  type Id(==, !new)

  ghost predicate NoDup<T>(s: seq<T>) {
    forall i, j :: 0 <= i < j < |s| ==> s[i] != s[j]
  }

  /** `s` with every occurrence of `x` taken out, the rest in order. */
  function Without<T(==,!new)>(s: seq<T>, x: T): (r: seq<T>)
    ensures forall y :: y in r <==> y in s && y != x
    ensures NoDup(s) ==> NoDup(r)
    ensures NoDup(s) ==> |r| == if x in s then |s| - 1 else |s|
  {
    if s == [] then []
    else
      var init, last := s[..|s| - 1], s[|s| - 1];
      var rest := Without(init, x);
      assert s == init + [last];
      assert forall y :: y in s <==> y in init || y == last;
      assert NoDup(s) ==> last !in init && NoDup(init) by {
        if NoDup(s) {
          forall j | 0 <= j < |init| ensures init[j] != last {
            assert init[j] == s[j];
          }
        }
      }
      if last == x then rest else rest + [last]
  }

  /**
    A dictionary that remembers the order in which its keys were first
    inserted: storing under a present key keeps its place, a new key goes
    last, and deleting a key leaves the others in order.
   */
  datatype Dict<T> = Dict(rows: map<Id, T>, order: seq<Id>) {

    /** `order` lists stored keys, none twice, and as many as are stored:
        so it lists every stored key exactly once (`KeysInOrder`). */
    ghost predicate Valid() {
      && NoDup(order)
      && (forall i :: 0 <= i < |order| ==> order[i] in rows)
      && |order| == |rows.Keys|
    }

    /** The stored values in insertion order. */
    function Values(): (vs: seq<T>)
      requires Valid()
      ensures |vs| == |order|
      ensures forall i :: 0 <= i < |order| ==> vs[i] == rows[order[i]]
    {
      seq(|order|, i requires 0 <= i < |order| => rows[order[i]])
    }

    function Put(k: Id, v: T): (d: Dict<T>)
      requires Valid()
      ensures d.Valid()
      ensures d.rows == rows[k := v]
      ensures d.order == if k in rows then order else order + [k]
    {
      Dict(rows[k := v], if k in rows then order else order + [k])
    }

    function Remove(k: Id): (d: Dict<T>)
      requires Valid()
      ensures d.Valid()
      ensures d.rows == rows - {k}
      ensures d.order == Without(order, k)
    {
      KeysInOrder(this);
      assert (rows - {k}).Keys == rows.Keys - {k};
      Dict(rows - {k}, Without(order, k))
    }
  }

  /** The elements of a sequence without repetitions are as many as its
      length. */
  lemma {:induction false} DistinctCard<T>(s: seq<T>)
    requires NoDup(s)
    ensures |set x | x in s| == |s|
  {
    if s != [] {
      var init, last := s[..|s| - 1], s[|s| - 1];
      assert NoDup(init) by {
        forall i, j | 0 <= i < j < |init| ensures init[i] != init[j] {
          assert init[i] == s[i] && init[j] == s[j];
        }
      }
      assert last !in init by {
        forall j | 0 <= j < |init| ensures init[j] != last {
          assert init[j] == s[j];
        }
      }
      DistinctCard(init);
      assert (set x | x in s) == (set x | x in init) + {last} by {
        assert s == init + [last];
      }
    }
  }

  /** A subset as large as its finite superset is the whole of it. */
  lemma SubsetSameCard<T>(a: set<T>, b: set<T>)
    requires a <= b && |a| == |b|
    ensures a == b
  {
    if x :| x in b && x !in a {
      assert a <= b - {x};
      assert |a| <= |b - {x}| by {
        SubsetCard(a, b - {x});
      }
    }
  }

  lemma {:induction false} SubsetCard<T>(a: set<T>, b: set<T>)
    requires a <= b
    ensures |a| <= |b|
    decreases |a|
  {
    if a != {} {
      var x :| x in a;
      SubsetCard(a - {x}, b - {x});
    }
  }

  /** Pigeonhole: a valid dictionary lists every stored key. */
  lemma KeysInOrder<T>(d: Dict<T>)
    requires d.Valid()
    ensures forall k :: k in d.rows <==> k in d.order
  {
    var listed := set x | x in d.order;
    DistinctCard(d.order);
    assert listed <= d.rows.Keys;
    SubsetSameCard(listed, d.rows.Keys);
  }

  function Empty<T>(): (d: Dict<T>)
    ensures d.Valid() && d.rows == map[] && d.Values() == []
  {
    Dict(map[], [])
  }

  /** Every stored value occurs among the values, and nothing else does. */
  lemma ValuesAreRows<T>(d: Dict<T>)
    requires d.Valid()
    ensures forall x :: x in d.Values() <==> x in d.rows.Values
  {
    var vs := d.Values();
    KeysInOrder(d);
    forall x | x in d.rows.Values ensures x in vs {
      var k :| k in d.rows && d.rows[k] == x;
      var i :| 0 <= i < |d.order| && d.order[i] == k;
      assert vs[i] == x;
    }
  }

  /** Storing a new key appends its value. */
  lemma PutNewValues<T>(d: Dict<T>, k: Id, v: T)
    requires d.Valid() && k !in d.rows
    ensures d.Put(k, v).Values() == d.Values() + [v]
  {
    var before, after := d.Values(), d.Put(k, v).Values();
    assert forall i :: 0 <= i < |d.order| ==> after[i] == before[i];
  }

  /** Storing under the key at position `i` replaces the value in its place. */
  lemma PutExistingValues<T>(d: Dict<T>, i: nat, v: T)
    requires d.Valid() && i < |d.order|
    ensures d.Put(d.order[i], v).Values() == d.Values()[i := v]
  {
    var k := d.order[i];
    var before, after := d.Values(), d.Put(k, v).Values();
    forall j | 0 <= j < |d.order| && j != i ensures after[j] == before[j] {
      assert d.order[j] != k;
    }
  }

  /** Records that carry their own key as id are pairwise distinct values. */
  lemma ValuesDistinct<T>(d: Dict<T>, idOf: T -> Id)
    requires d.Valid()
    requires forall k :: k in d.rows ==> idOf(d.rows[k]) == k
    ensures NoDup(d.Values())
  {
    var vs := d.Values();
    forall i, j | 0 <= i < j < |vs| ensures vs[i] != vs[j] {
      assert idOf(vs[i]) == d.order[i] && idOf(vs[j]) == d.order[j];
    }
  }

  // ---------------------------------------------------------------------
  // Filtering and ordering of query results

  /** The elements of `s` that `keep` accepts, in their order in `s`. */
  function Select<T(!new)>(s: seq<T>, keep: T -> bool): (r: seq<T>)
    ensures |r| <= |s|
    ensures forall x :: x in r <==> x in s && keep(x)
    ensures NoDup(s) ==> NoDup(r)
  {
    if s == [] then []
    else
      var last := s[|s| - 1];
      assert forall y :: y in s <==> y in s[..|s| - 1] || y == last;
      Select(s[..|s| - 1], keep) + if keep(last) then [last] else []
  }

  lemma SelectSnoc<T(!new)>(s: seq<T>, i: nat, keep: T -> bool)
    requires i < |s|
    ensures Select(s[..i + 1], keep) == Select(s[..i], keep) + if keep(s[i]) then [s[i]] else []
  {
    assert s[..i + 1][..i] == s[..i];
  }

  /** One pass over a dictionary's values, in the order given, keeping the
      ones that `keep` accepts. */
  method CollectValues<T(!new)>(vs: seq<T>, keep: T -> bool) returns (found: seq<T>)
    ensures found == Select(vs, keep)
  {
    found := [];
    var i := 0;
    while i < |vs|
      invariant i <= |vs|
      invariant found == Select(vs[..i], keep)
    {
      SelectSnoc(vs, i, keep);
      if keep(vs[i]) {
        found := found + [vs[i]];
      }
      i := i + 1;
    }
    assert vs[..i] == vs;
  }

  /** Newest first: the key never increases along the sequence. */
  ghost predicate Descending<T>(s: seq<T>, key: T -> int) {
    forall i, j :: 0 <= i < j < |s| ==> key(s[i]) >= key(s[j])
  }

  /** `x` placed in front of the first element whose key is not larger. */
  function InsertDesc<T>(x: T, s: seq<T>, key: T -> int): (r: seq<T>)
    requires Descending(s, key)
    ensures multiset(r) == multiset(s) + multiset{x}
    ensures Descending(r, key)
  {
    if s == [] || key(s[0]) <= key(x) then
      [x] + s
    else
      var rest := InsertDesc(x, s[1..], key);
      assert s == [s[0]] + s[1..];
      ConsDescending(s, rest, x, key);
      [s[0]] + rest
  }

  /** The head of a descending `s` may go in front of `rest` when `rest` is
      descending and holds the tail of `s` plus one element older than that
      head. */
  lemma ConsDescending<T>(s: seq<T>, rest: seq<T>, x: T, key: T -> int)
    requires s != [] && Descending(s, key) && Descending(rest, key)
    requires multiset(rest) == multiset(s[1..]) + multiset{x}
    requires key(x) < key(s[0])
    ensures Descending([s[0]] + rest, key)
  {
    forall j | 0 <= j < |rest| ensures key(rest[j]) <= key(s[0]) {
      assert rest[j] in multiset(rest);
      if rest[j] != x {
        assert rest[j] in multiset(s[1..]);
        var m :| 0 <= m < |s[1..]| && s[1..][m] == rest[j];
        assert s[m + 1] == rest[j];
      }
    }
    var r := [s[0]] + rest;
    forall i, j | 0 <= i < j < |r| ensures key(r[i]) >= key(r[j]) {
      assert r[j] == rest[j - 1];
      if i > 0 {
        assert r[i] == rest[i - 1];
      }
    }
  }


  /** Sorting by key, newest first (the stable sort with `reverse=True`). */
  function SortDesc<T>(s: seq<T>, key: T -> int): (r: seq<T>)
    ensures multiset(r) == multiset(s)
    ensures Descending(r, key)
  {
    if s == [] then []
    else
      assert s == [s[0]] + s[1..];
      InsertDesc(s[0], SortDesc(s[1..], key), key)
  }

  /** A sequence has no repeated element exactly when its multiset counts
      every element at most once. */
  lemma {:induction false} NoDupByMultiset<T>(s: seq<T>)
    ensures NoDup(s) <==> forall x :: multiset(s)[x] <= 1
  {
    if s != [] {
      var t := s[1..];
      assert s == [s[0]] + t;
      NoDupByMultiset(t);
      if NoDup(s) {
        forall j | 0 <= j < |t| ensures t[j] != s[0] {
          assert t[j] == s[j + 1];
        }
        assert s[0] !in t;
      }
      if forall x :: multiset(s)[x] <= 1 {
        assert multiset(s)[s[0]] == multiset(t)[s[0]] + 1;
        assert s[0] !in t;
        forall x ensures multiset(t)[x] <= 1 {
          assert multiset(s)[x] >= multiset(t)[x];
        }
        assert NoDup(t);
      }
    }
  }

  lemma SameMultisetNoDup<T>(a: seq<T>, b: seq<T>)
    requires multiset(a) == multiset(b) && NoDup(a)
    ensures NoDup(b)
  {
    NoDupByMultiset(a);
    NoDupByMultiset(b);
  }

  /** What a query over a dictionary returns when it keeps the values that
      `keep` accepts, in any order: each accepted stored record, once. */
  lemma SelectedRecords<T(!new)>(d: Dict<T>, keep: T -> bool, idOf: T -> Id, r: seq<T>)
    requires d.Valid()
    requires forall k :: k in d.rows ==> idOf(d.rows[k]) == k
    requires multiset(r) == multiset(Select(d.Values(), keep))
    ensures forall x :: x in r <==> x in d.rows.Values && keep(x)
    ensures NoDup(r)
  {
    var s := Select(d.Values(), keep);
    ValuesAreRows(d);
    ValuesDistinct(d, idOf);
    SameMultisetNoDup(s, r);
    forall x ensures x in r <==> x in s {
      assert x in r <==> x in multiset(r);
      assert x in s <==> x in multiset(s);
    }
  }
}
