/**
 * A document collection of the database, seen as a finite table of rows keyed by
 * identifiers that the store hands out in insertion order. Ascending identifier order is
 * therefore the collection's natural order: `findOne` and `updateOne` act on the first
 * matching row in that order, `find` lists matches in that order.
 */
module Tables {

  datatype Option<T> = None | Some(value: T)

  type Id = nat

  datatype Table<T> = Table(rows: map<Id, T>, next: nat)
  {
    /** Every stored identifier was handed out before `next`. */
    predicate Wf()
    {
      forall id :: id in rows ==> id < next
    }
  }

  predicate Ascending(s: seq<Id>)
  {
    forall i, j :: 0 <= i < j < |s| ==> s[i] < s[j]
  }

  lemma AppendAscending(a: seq<Id>, b: seq<Id>)
    requires Ascending(a) && Ascending(b)
    requires forall x, y :: x in a && y in b ==> x < y
    ensures Ascending(a + b)
  {
    forall i, j | 0 <= i < j < |a + b| ensures (a + b)[i] < (a + b)[j] {
      if i < |a| && |a| <= j {
        assert (a + b)[i] in a && (a + b)[j] in b;
      }
    }
  }

  /** The identifiers of `m` below `n`, in ascending order. */
  function IdsBelow<T>(m: map<Id, T>, n: nat): (r: seq<Id>)
    ensures forall id :: id in r <==> id in m && id < n
    ensures Ascending(r)
  {
    if n == 0 then []
    else
      var prefix := IdsBelow(m, n - 1);
      var last := if n - 1 in m then [n - 1] else [];
      AppendAscending(prefix, last);
      prefix + last
  }

  /** The identifiers of the table in natural (insertion) order. */
  function Ids<T>(t: Table<T>): (r: seq<Id>)
    requires t.Wf()
    ensures forall id :: id in r <==> id in t.rows
    ensures Ascending(r)
  {
    IdsBelow(t.rows, t.next)
  }

  /** The elements of `ids` whose row satisfies `p`, in the order of `ids`. */
  function Filter<T>(m: map<Id, T>, ids: seq<Id>, p: T -> bool): (r: seq<Id>)
    requires forall id :: id in ids ==> id in m
    ensures forall id :: id in r <==> id in ids && p(m[id])
    ensures Ascending(ids) ==> Ascending(r)
  {
    if ids == [] then []
    else
      var head := if p(m[ids[0]]) then [ids[0]] else [];
      var rest := Filter(m, ids[1..], p);
      if Ascending(ids) then
        assert forall id :: id in ids[1..] ==> ids[0] < id;
        AppendAscending(head, rest);
        head + rest
      else
        head + rest
  }

  /** `find(filter)`: the rows satisfying `p`, in natural order. */
  function Where<T>(t: Table<T>, p: T -> bool): (r: seq<Id>)
    requires t.Wf()
    ensures forall id :: id in r <==> id in t.rows && p(t.rows[id])
    ensures Ascending(r)
  {
    Filter(t.rows, Ids(t), p)
  }

  /** `findOne(filter)`: the first row in natural order that satisfies `p`. */
  function FindFirst<T>(t: Table<T>, p: T -> bool): (r: Option<Id>)
    requires t.Wf()
    ensures r.None? <==> forall id :: id in t.rows ==> !p(t.rows[id])
    ensures r.Some? ==> r.value in t.rows && p(t.rows[r.value])
    ensures r.Some? ==> forall id :: id in t.rows && id < r.value ==> !p(t.rows[id])
  {
    var w := Where(t, p);
    if w == [] then None
    else
      assert w[0] in w;
      Some(w[0])
  }

  /** `countDocuments(filter)`. */
  function Count<T>(t: Table<T>, p: T -> bool): (n: nat)
    requires t.Wf()
    ensures n == 0 <==> forall id :: id in t.rows ==> !p(t.rows[id])
  {
    var w := Where(t, p);
    assert w != [] ==> w[0] in w;
    |w|
  }

  /** `insertOne(r)`: one row added under a fresh identifier, every other row kept. */
  function Insert<T>(t: Table<T>, r: T): (t': Table<T>)
    requires t.Wf()
    ensures t'.Wf()
    ensures t.next !in t.rows && t'.rows.Keys == t.rows.Keys + {t.next}
    ensures t'.rows[t.next] == r
    ensures forall id :: id in t.rows ==> t'.rows[id] == t.rows[id]
    ensures |t'.rows| == |t.rows| + 1
  {
    Table(t.rows[t.next := r], t.next + 1)
  }

  /** `updateOne({_id: id}, ...)` on an existing row: only that row changes. */
  function Replace<T>(t: Table<T>, id: Id, r: T): (t': Table<T>)
    requires t.Wf() && id in t.rows
    ensures t'.Wf() && t'.next == t.next
    ensures t'.rows.Keys == t.rows.Keys && t'.rows[id] == r
    ensures forall k :: k in t.rows && k != id ==> t'.rows[k] == t.rows[k]
  {
    Table(t.rows[id := r], t.next)
  }

  /** `deleteOne({_id: id})`: exactly that row disappears. */
  function Remove<T>(t: Table<T>, id: Id): (t': Table<T>)
    requires t.Wf()
    ensures t'.Wf() && t'.next == t.next
    ensures t'.rows.Keys == t.rows.Keys - {id}
    ensures forall k :: k in t'.rows ==> t'.rows[k] == t.rows[k]
  {
    Table(t.rows - {id}, t.next)
  }

  /** `deleteMany(filter)`: the rows satisfying `p` disappear, the others stay as they were. */
  function RemoveWhere<T>(t: Table<T>, p: T -> bool): (t': Table<T>)
    requires t.Wf()
    ensures t'.Wf() && t'.next == t.next
    ensures forall k :: k in t'.rows <==> k in t.rows && !p(t.rows[k])
    ensures forall k :: k in t'.rows ==> t'.rows[k] == t.rows[k]
  {
    Table(map k | k in t.rows && !p(t.rows[k]) :: t.rows[k], t.next)
  }

  /** Two ascending sequences with the same elements are the same sequence. */
  lemma {:induction false} AscendingUnique(a: seq<Id>, b: seq<Id>)
    requires Ascending(a) && Ascending(b)
    requires forall x :: x in a <==> x in b
    ensures a == b
  {
    assert a != [] ==> a[0] in a;
    assert b != [] ==> b[0] in b;
    if a != [] && b != [] {
      var i :| 0 <= i < |b| && b[i] == a[0];
      var j :| 0 <= j < |a| && a[j] == b[0];
      assert b[0] <= a[0] && a[0] <= b[0];
      forall x
        ensures x in a[1..] <==> x in b[1..]
      {
        if x in a[1..] {
          var k :| 1 <= k < |a| && a[k] == x;
          assert x in b && x != b[0];
        }
        if x in b[1..] {
          var k :| 1 <= k < |b| && b[k] == x;
          assert x in a && x != a[0];
        }
      }
      AscendingUnique(a[1..], b[1..]);
      assert a == [a[0]] + a[1..] && b == [b[0]] + b[1..];
    }
  }

  /** Inserting a row appends its fresh identifier to every listing it matches. */
  lemma WhereInsert<T>(t: Table<T>, r: T, p: T -> bool)
    requires t.Wf()
    ensures Where(Insert(t, r), p) == Where(t, p) + (if p(r) then [t.next] else [])
  {
    var before := Where(t, p);
    var after := Where(Insert(t, r), p);
    var added := if p(r) then [t.next] else [];
    var t' := Insert(t, r);
    forall x ensures x in after <==> x in before + added {
      if x == t.next {
        assert x in t'.rows && t'.rows[x] == r && x !in t.rows;
      } else {
        assert x in t'.rows <==> x in t.rows;
        assert x in t.rows ==> t'.rows[x] == t.rows[x];
      }
    }
    AppendLarger(before, added, t.next);
    AscendingUnique(after, before + added);
  }

  /** Appending at most one identifier larger than all others keeps a sequence ascending. */
  lemma AppendLarger(a: seq<Id>, b: seq<Id>, n: nat)
    requires Ascending(a) && forall x :: x in a ==> x < n
    requires b == [] || b == [n]
    ensures Ascending(a + b)
  {
    if b == [n] {
      forall i, j | 0 <= i < j < |a + b| ensures (a + b)[i] < (a + b)[j] {
        if j == |a| {
          assert (a + b)[i] in a;
        }
      }
    } else {
      assert a + b == a;
    }
  }

  /** `countDocuments` after `insertOne` grows by one exactly when the new row matches. */
  lemma CountInsert<T>(t: Table<T>, r: T, p: T -> bool)
    requires t.Wf()
    ensures Count(Insert(t, r), p) == Count(t, p) + (if p(r) then 1 else 0)
  {
    WhereInsert(t, r, p);
  }

  /** Writing back the row a table already holds changes nothing. */
  lemma ReplaceSame<T>(t: Table<T>, id: Id)
    requires t.Wf() && id in t.rows
    ensures Replace(t, id, t.rows[id]) == t
  {
    assert t.rows[id := t.rows[id]] == t.rows;
  }

  /**
   * A table whose keys are unchanged and whose rows agree with `p` where they did before
   * has the same first match.
   */
  lemma FindFirstSame<T>(t: Table<T>, t': Table<T>, p: T -> bool)
    requires t.Wf() && t'.Wf() && t'.rows.Keys == t.rows.Keys
    requires forall id :: id in t.rows ==> p(t.rows[id]) == p(t'.rows[id])
    ensures FindFirst(t, p) == FindFirst(t', p)
  {
    var a, b := FindFirst(t, p), FindFirst(t', p);
    if a.Some? {
      assert p(t'.rows[a.value]);
    }
    if b.Some? {
      assert p(t.rows[b.value]);
    }
  }

  // ---- sorting (`sort({key: 1})`), stable, on identifiers ----

  predicate SortedBy(s: seq<Id>, key: Id -> int)
  {
    forall i, j :: 0 <= i < j < |s| ==> key(s[i]) <= key(s[j])
  }

  lemma SortedCons(h: Id, rest: seq<Id>, key: Id -> int)
    requires SortedBy(rest, key)
    requires forall y :: y in rest ==> key(h) <= key(y)
    ensures SortedBy([h] + rest, key)
  {
    forall i, j | 0 <= i < j < |[h] + rest| ensures key(([h] + rest)[i]) <= key(([h] + rest)[j]) {
      if i == 0 {
        assert ([h] + rest)[j] in rest;
      }
    }
  }

  lemma HeadIsLeast(s: seq<Id>, key: Id -> int)
    requires SortedBy(s, key) && s != []
    ensures forall y :: y in multiset(s[1..]) ==> key(s[0]) <= key(y)
  {
    forall y | y in multiset(s[1..]) ensures key(s[0]) <= key(y) {
      assert y in s[1..];
      var k :| 1 <= k < |s| && s[k] == y;
    }
  }

  function InsertSorted(x: Id, s: seq<Id>, key: Id -> int): (r: seq<Id>)
    requires SortedBy(s, key)
    ensures SortedBy(r, key)
    ensures multiset(r) == multiset(s) + multiset{x}
  {
    if s == [] || key(x) <= key(s[0]) then
      SortedCons(x, s, key);
      [x] + s
    else
      SortedTail(s, key);
      var rest := InsertSorted(x, s[1..], key);
      InsertAfterHead(x, s, key, rest);
      [s[0]] + rest
  }

  lemma SortedTail(s: seq<Id>, key: Id -> int)
    requires SortedBy(s, key) && s != []
    ensures SortedBy(s[1..], key)
  {
    forall i, j | 0 <= i < j < |s[1..]| ensures key(s[1..][i]) <= key(s[1..][j]) {
      assert s[1..][i] == s[i + 1] && s[1..][j] == s[j + 1];
    }
  }

  /** Putting the head back in front of the tail with `x` inserted keeps the order and the elements. */
  lemma InsertAfterHead(x: Id, s: seq<Id>, key: Id -> int, rest: seq<Id>)
    requires SortedBy(s, key) && s != [] && key(s[0]) < key(x)
    requires SortedBy(rest, key) && multiset(rest) == multiset(s[1..]) + multiset{x}
    ensures SortedBy([s[0]] + rest, key)
    ensures multiset([s[0]] + rest) == multiset(s) + multiset{x}
  {
    HeadIsLeast(s, key);
    forall y | y in rest ensures key(s[0]) <= key(y) {
      assert y in multiset(rest);
      if y != x {
        assert y in multiset(s[1..]);
      }
    }
    SortedCons(s[0], rest, key);
    calc {
      multiset([s[0]] + rest);
      multiset{s[0]} + multiset(s[1..]) + multiset{x};
      { assert s == [s[0]] + s[1..]; }
      multiset(s) + multiset{x};
    }
  }

  /** The identifiers of `s` rearranged so that `key` never decreases. */
  function SortBy(s: seq<Id>, key: Id -> int): (r: seq<Id>)
    ensures SortedBy(r, key)
    ensures multiset(r) == multiset(s)
  {
    if s == [] then []
    else
      assert s == [s[0]] + s[1..];
      InsertSorted(s[0], SortBy(s[1..], key), key)
  }

  /** The elements of `s` that satisfy `p`, in order. */
  function Keep(s: seq<Id>, p: Id -> bool): (r: seq<Id>)
    ensures forall x :: x in r <==> x in s && p(x)
    ensures multiset(r) + multiset(Keep'(s, p)) == multiset(s)
  {
    if s == [] then []
    else
      assert s == [s[0]] + s[1..];
      (if p(s[0]) then [s[0]] else []) + Keep(s[1..], p)
  }

  /** The elements of `s` that do not satisfy `p`, in order. */
  function Keep'(s: seq<Id>, p: Id -> bool): (r: seq<Id>)
    ensures forall x :: x in r <==> x in s && !p(x)
  {
    if s == [] then [] else (if p(s[0]) then [] else [s[0]]) + Keep'(s[1..], p)
  }

  /**
   * `sort({field: -1})` on a field some rows may lack: the rows that have it come first,
   * largest value first; the rows that lack it (a missing field sorts lowest) follow in
   * their original order.
   */
  function SortDescending(s: seq<Id>, key: Id -> Option<int>): (r: seq<Id>)
    ensures multiset(r) == multiset(s)
    ensures forall i, j :: 0 <= i < j < |r| && key(r[j]).Some? ==>
      key(r[i]).Some? && key(r[i]).value >= key(r[j]).value
  {
    var has := (id: Id) => key(id).Some?;
    var dated := Keep(s, has);
    var negated := (id: Id) => if key(id).Some? then -key(id).value else 0;
    var sorted := SortBy(dated, negated);
    var r := sorted + Keep'(s, has);
    assert forall x :: x in sorted ==> key(x).Some? by {
      forall x | x in sorted ensures key(x).Some? {
        assert x in multiset(sorted) && x in multiset(dated);
        assert x in dated;
      }
    }
    forall k | |sorted| <= k < |r| ensures key(r[k]).None? {
      assert r[k] in Keep'(s, has);
    }
    forall i, j | 0 <= i < j < |r| && key(r[j]).Some?
      ensures key(r[i]).Some? && key(r[i]).value >= key(r[j]).value
    {
      if j < |sorted| {
        assert r[i] in sorted && r[j] in sorted;
      }
    }
    r
  }

  /** A rearrangement has the same length and the same elements. */
  lemma SameElements(a: seq<Id>, b: seq<Id>)
    requires multiset(a) == multiset(b)
    ensures |a| == |b|
    ensures forall x :: x in a <==> x in b
  {
    assert |a| == |multiset(a)| && |b| == |multiset(b)|;
    forall x ensures x in a <==> x in b {
      assert x in a <==> x in multiset(a);
      assert x in b <==> x in multiset(b);
    }
  }

  /** An ascending listing of exactly the elements of a set has the set's size. */
  lemma {:induction false} DistinctCount(s: seq<Id>, keys: set<Id>)
    requires Ascending(s)
    requires forall x :: x in s <==> x in keys
    ensures |s| == |keys|
  {
    if s != [] {
      var rest := s[1..];
      assert forall x :: x in rest ==> s[0] < x;
      forall x ensures x in rest <==> x in keys - {s[0]} {
        if x in s && x != s[0] {
          var k :| 0 <= k < |s| && s[k] == x;
          assert k != 0 && rest[k - 1] == x;
        }
      }
      DistinctCount(rest, keys - {s[0]});
    } else {
      assert forall x :: x !in keys;
      assert keys == {};
    }
  }

  // ---- cursor paging (`skip(n).limit(m)`) ----

  function Min(a: int, b: int): int { if a <= b then a else b }

  /** The window of at most `limit` elements starting after the first `skip`. */
  function Page<X>(s: seq<X>, skip: nat, limit: nat): (r: seq<X>)
    ensures |r| == if skip >= |s| then 0 else Min(limit, |s| - skip)
    ensures forall i :: 0 <= i < |r| ==> r[i] == s[skip + i]
  {
    if skip >= |s| then [] else s[skip .. Min(skip + limit, |s|)]
  }
}
