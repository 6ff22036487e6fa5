/** Ordering applications oldest first by `created_at`. Rows that share a
    creation time keep their storage order: the sort is stable. */
module CreatedAtOrder {
  import opened Records
  import Seqs

  predicate Sorted(s: seq<Application>)
  {
    forall i, j :: 0 <= i < j < |s| ==> s[i].createdAt <= s[j].createdAt
  }

  /** The rows created at time `t`, in their order in `s`. */
  function CreatedAt(s: seq<Application>, t: int): seq<Application>
  {
    Seqs.Filter(s, (a: Application) => a.createdAt == t)
  }

  /** `r` holds the rows of `s`, and rows created at the same time appear in
      the same relative order in both. */
  ghost predicate SameTies(r: seq<Application>, s: seq<Application>)
  {
    forall t :: CreatedAt(r, t) == CreatedAt(s, t)
  }

  /** Inserts `x` before the first row created no earlier than it. */
  function Insert(x: Application, s: seq<Application>): (r: seq<Application>)
    ensures |r| == |s| + 1
    ensures multiset(r) == multiset(s) + multiset{x}
  {
    if |s| == 0 || x.createdAt <= s[0].createdAt then [x] + s
    else
      assert s == [s[0]] + s[1..];
      [s[0]] + Insert(x, s[1..])
  }

  /** Inserting into a sorted sequence keeps it sorted. */
  lemma {:induction false} InsertSorted(x: Application, s: seq<Application>)
    requires Sorted(s)
    ensures Sorted(Insert(x, s))
  {
    if |s| > 0 && x.createdAt > s[0].createdAt {
      var rest := Insert(x, s[1..]);
      InsertSorted(x, s[1..]);
      assert s == [s[0]] + s[1..];
      forall j | 0 <= j < |rest|
        ensures s[0].createdAt <= rest[j].createdAt
      {
        assert rest[j] in multiset(rest);
        if rest[j] != x {
          assert rest[j] in multiset(s[1..]);
        }
      }
      assert Insert(x, s) == [s[0]] + rest;
    }
  }

  /** Sorts by creation time, oldest first, keeping ties in input order. */
  function SortByCreatedAt(s: seq<Application>): (r: seq<Application>)
    ensures Sorted(r)
    ensures multiset(r) == multiset(s)
  {
    if |s| == 0 then []
    else
      assert s == [s[0]] + s[1..];
      InsertSorted(s[0], SortByCreatedAt(s[1..]));
      Insert(s[0], SortByCreatedAt(s[1..]))
  }

  lemma {:induction false} CreatedAtCons(x: Application, s: seq<Application>, t: int)
    ensures CreatedAt([x] + s, t) == (if x.createdAt == t then [x] else []) + CreatedAt(s, t)
  {
    assert ([x] + s)[0] == x;
    assert ([x] + s)[1..] == s;
  }

  /** Inserting `x` puts it ahead of every row created at the same time. */
  lemma {:induction false} InsertTies(x: Application, s: seq<Application>, t: int)
    ensures CreatedAt(Insert(x, s), t) == (if x.createdAt == t then [x] else []) + CreatedAt(s, t)
  {
    if |s| == 0 || x.createdAt <= s[0].createdAt {
      CreatedAtCons(x, s, t);
    } else {
      var rest := Insert(x, s[1..]);
      CreatedAtCons(s[0], rest, t);
      InsertTies(x, s[1..], t);
      CreatedAtCons(s[0], s[1..], t);
      assert [s[0]] + s[1..] == s;
    }
  }

  /** The sort is stable. */
  lemma {:induction false} SortIsStable(s: seq<Application>)
    ensures SameTies(SortByCreatedAt(s), s)
  {
    forall t ensures CreatedAt(SortByCreatedAt(s), t) == CreatedAt(s, t) {
      SortTies(s, t);
    }
  }

  lemma {:induction false} SortTies(s: seq<Application>, t: int)
    ensures CreatedAt(SortByCreatedAt(s), t) == CreatedAt(s, t)
  {
    if |s| > 0 {
      SortTies(s[1..], t);
      InsertTies(s[0], SortByCreatedAt(s[1..]), t);
      CreatedAtCons(s[0], s[1..], t);
      assert [s[0]] + s[1..] == s;
    }
  }

  /** A sorted sequence is determined by its rows at each creation time. */
  lemma {:induction false} SortedTiesDetermine(r: seq<Application>, u: seq<Application>)
    requires Sorted(r) && Sorted(u)
    requires SameTies(r, u)
    ensures r == u
    decreases |r|
  {
    if |r| == 0 && |u| == 0 {
      return;
    }
    if |r| == 0 {
      HeadTie(u);
      assert false;
    }
    if |u| == 0 {
      HeadTie(r);
      assert false;
    }
    var m := r[0].createdAt;
    HeadTie(r);
    HeadTie(u);
    if u[0].createdAt != m {
      if u[0].createdAt < m {
        NoneEarlier(r, u[0].createdAt);
      } else {
        NoneEarlier(u, m);
      }
      assert false;
    }
    assert r[0] == u[0] by {
      assert CreatedAt(r, m)[0] == CreatedAt(u, m)[0];
    }
    forall t ensures CreatedAt(r[1..], t) == CreatedAt(u[1..], t) {
      CreatedAtCons(r[0], r[1..], t);
      CreatedAtCons(u[0], u[1..], t);
      assert [r[0]] + r[1..] == r;
      assert [u[0]] + u[1..] == u;
      var p := if m == t then [r[0]] else [];
      assert CreatedAt(r, t) == p + CreatedAt(r[1..], t);
      assert CreatedAt(u, t) == p + CreatedAt(u[1..], t);
      assert CreatedAt(r[1..], t) == CreatedAt(r, t)[|p|..];
    }
    SortedTiesDetermine(r[1..], u[1..]);
    assert r == [r[0]] + r[1..];
    assert u == [u[0]] + u[1..];
  }

  /** The first row is the first of the rows created at its time. */
  lemma HeadTie(s: seq<Application>)
    requires |s| > 0
    ensures CreatedAt(s, s[0].createdAt) == [s[0]] + CreatedAt(s[1..], s[0].createdAt)
  {
    CreatedAtCons(s[0], s[1..], s[0].createdAt);
    assert [s[0]] + s[1..] == s;
  }

  /** A sorted sequence has no row created before its first. */
  lemma NoneEarlier(s: seq<Application>, t: int)
    requires Sorted(s) && |s| > 0 && t < s[0].createdAt
    ensures CreatedAt(s, t) == []
  {
    Seqs.FilterDropsAll(s, (a: Application) => a.createdAt == t);
  }

  /** Sorting is characterised independently of insertion: the sorted order
      is the only ordering of the rows by creation time that keeps ties in
      storage order. */
  lemma SortUnique(s: seq<Application>, r: seq<Application>)
    requires Sorted(r) && SameTies(r, s)
    ensures r == SortByCreatedAt(s)
  {
    SortIsStable(s);
    SortedTiesDetermine(r, SortByCreatedAt(s));
  }
}
