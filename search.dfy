/**
 * The search box of the Recommend page. The query is trimmed; a blank query finds
 * nothing; otherwise the pool loses its repeated titles (the first workout of each
 * title stays), keeps the workouts whose title contains the query ignoring case,
 * and the first six of those are the results.
 */
module Search {
  import opened Text
  import opened Workouts

  /** `take(6)`: the most results the search box lists. */
  const MaxResults := 6

  /** The position of the first workout titled `t` in `pool`, or `|pool|` when there is none. */
  function FirstIndex(pool: seq<WorkoutMeta>, t: string): (k: nat)
    ensures k <= |pool|
    ensures k < |pool| ==> pool[k].title == t
    ensures forall j :: 0 <= j < k ==> pool[j].title != t
  {
    if pool == [] then 0
    else if pool[0].title == t then 0
    else 1 + FirstIndex(pool[1..], t)
  }

  /** Every entry of `r` is the first workout of its title in `pool`. */
  ghost predicate FirstOccurrences(r: seq<WorkoutMeta>, pool: seq<WorkoutMeta>) {
    forall i :: 0 <= i < |r| ==> FirstIndex(pool, r[i].title) < |pool| && pool[FirstIndex(pool, r[i].title)] == r[i]
  }

  /** `r` lists its entries in the order in which their titles first appear in `pool`. */
  ghost predicate InPoolOrder(r: seq<WorkoutMeta>, pool: seq<WorkoutMeta>) {
    forall i, j :: 0 <= i < j < |r| ==> FirstIndex(pool, r[i].title) < FirstIndex(pool, r[j].title)
  }

  /** No title is listed twice. */
  predicate DistinctTitles(r: seq<WorkoutMeta>) {
    forall i, j :: 0 <= i < j < |r| ==> r[i].title != r[j].title
  }

  /** `distinctBy { it.title }`, with the titles already met kept in `seen`. */
  function DistinctFrom(pool: seq<WorkoutMeta>, seen: set<string>): (r: seq<WorkoutMeta>)
    ensures |r| <= |pool|
    ensures forall i :: 0 <= i < |r| ==> r[i].title !in seen
    ensures DistinctTitles(r)
  {
    if pool == [] then []
    else if pool[0].title in seen then DistinctFrom(pool[1..], seen)
    else
      var r' := DistinctFrom(pool[1..], seen + {pool[0].title});
      var r := [pool[0]] + r';
      assert forall i :: 0 < i < |r| ==> r[i] == r'[i - 1];
      r
  }

  /** `distinctBy { it.title }` on the whole pool: no title twice, and never more workouts than the pool has. */
  function DistinctByTitle(pool: seq<WorkoutMeta>): (r: seq<WorkoutMeta>)
    ensures |r| <= |pool| && DistinctTitles(r)
  {
    DistinctFrom(pool, {})
  }

  /** `distinctBy` keeps workouts of the pool whose title it has not seen before. */
  lemma {:induction false} DistinctFromUnseen(pool: seq<WorkoutMeta>, seen: set<string>)
    ensures forall x :: x in DistinctFrom(pool, seen) ==> x.title !in seen && x in pool
  {
    if pool != [] {
      var t0 := pool[0].title;
      assert forall x :: x in pool[1..] ==> x in pool;
      if t0 in seen {
        DistinctFromUnseen(pool[1..], seen);
        assert DistinctFrom(pool, seen) == DistinctFrom(pool[1..], seen);
      } else {
        DistinctFromUnseen(pool[1..], seen + {t0});
        assert DistinctFrom(pool, seen) == [pool[0]] + DistinctFrom(pool[1..], seen + {t0});
      }
    }
  }

  /** Putting in front an entry whose title first appears before all of theirs keeps a list in pool order. */
  lemma ConsInPoolOrder(x: WorkoutMeta, r: seq<WorkoutMeta>, pool: seq<WorkoutMeta>)
    requires InPoolOrder(r, pool)
    requires forall j :: 0 <= j < |r| ==> FirstIndex(pool, x.title) < FirstIndex(pool, r[j].title)
    ensures InPoolOrder([x] + r, pool)
  {
    var xr := [x] + r;
    assert forall i :: 0 < i < |xr| ==> xr[i] == r[i - 1];
  }

  /**
   * Past the pool's first workout, every workout `distinctBy` keeps has a title other
   * than the first one, so its title first appears one place later in the pool than in the rest.
   */
  lemma DistinctFromShift(pool: seq<WorkoutMeta>, seen: set<string>)
    requires pool != [] && pool[0].title in seen
    ensures forall x :: x in DistinctFrom(pool[1..], seen) ==> FirstIndex(pool, x.title) == 1 + FirstIndex(pool[1..], x.title)
  {
    DistinctFromUnseen(pool[1..], seen);
  }

  /** `distinctBy` keeps the first workout of each title. */
  lemma {:induction false} DistinctFromFirsts(pool: seq<WorkoutMeta>, seen: set<string>)
    ensures FirstOccurrences(DistinctFrom(pool, seen), pool)
  {
    if pool != [] {
      var t0, tail := pool[0].title, pool[1..];
      var seen' := seen + {t0};
      var r' := DistinctFrom(tail, seen');
      DistinctFromFirsts(tail, seen');
      DistinctFromShift(pool, seen');
      if t0 in seen {
        assert seen' == seen;
      } else {
        var r := [pool[0]] + r';
        assert DistinctFrom(pool, seen) == r;
        forall i | 0 <= i < |r|
          ensures FirstIndex(pool, r[i].title) < |pool| && pool[FirstIndex(pool, r[i].title)] == r[i]
        {
          if i > 0 {
            assert r[i] == r'[i - 1] && r'[i - 1] in r';
          }
        }
      }
    }
  }

  /** `distinctBy` keeps the workouts in pool order. */
  lemma {:induction false} DistinctFromInOrder(pool: seq<WorkoutMeta>, seen: set<string>)
    ensures InPoolOrder(DistinctFrom(pool, seen), pool)
  {
    if pool != [] {
      var t0, tail := pool[0].title, pool[1..];
      var seen' := seen + {t0};
      var r' := DistinctFrom(tail, seen');
      DistinctFromInOrder(tail, seen');
      DistinctFromShift(pool, seen');
      assert forall i :: 0 <= i < |r'| ==> r'[i] in r';
      if t0 in seen {
        assert seen' == seen;
      } else {
        assert DistinctFrom(pool, seen) == [pool[0]] + r';
        ConsInPoolOrder(pool[0], r', pool);
      }
    }
  }

  /** Every title of the pool that was not seen before shows up in what `distinctBy` keeps. */
  lemma {:induction false} DistinctFromComplete(pool: seq<WorkoutMeta>, seen: set<string>, p: WorkoutMeta)
    requires p in pool && p.title !in seen
    ensures exists i :: 0 <= i < |DistinctFrom(pool, seen)| && DistinctFrom(pool, seen)[i].title == p.title
  {
    var t0, tail := pool[0].title, pool[1..];
    var r := DistinctFrom(pool, seen);
    if p.title == t0 {
      assert r[0].title == t0;
    } else {
      assert p in tail;
      var seen' := if t0 in seen then seen else seen + {t0};
      DistinctFromComplete(tail, seen', p);
      var r' := DistinctFrom(tail, seen');
      var i :| 0 <= i < |r'| && r'[i].title == p.title;
      assert r[i + |r| - |r'|] == r'[i];
    }
  }

  /** `filter { it.title.contains(q, ignoreCase = true) }`. */
  function Matching(items: seq<WorkoutMeta>, q: string): (r: seq<WorkoutMeta>)
    ensures forall x :: x in r <==> x in items && ContainsIgnoreCase(x.title, q)
    ensures |r| <= |items|
  {
    if items == [] then []
    else (if ContainsIgnoreCase(items[0].title, q) then [items[0]] else []) + Matching(items[1..], q)
  }

  /** The rest of a list in pool order is in pool order, with every title first appearing after the head's. */
  lemma InPoolOrderTail(items: seq<WorkoutMeta>, pool: seq<WorkoutMeta>)
    requires InPoolOrder(items, pool) && items != []
    ensures InPoolOrder(items[1..], pool)
    ensures forall x :: x in items[1..] ==> FirstIndex(pool, items[0].title) < FirstIndex(pool, x.title)
  {
    var tail := items[1..];
    assert forall k :: 0 <= k < |tail| ==> tail[k] == items[k + 1];
  }

  /** Filtering keeps the survivors in the order they had. */
  lemma {:induction false} MatchingKeepsOrder(items: seq<WorkoutMeta>, q: string, pool: seq<WorkoutMeta>)
    requires InPoolOrder(items, pool)
    ensures InPoolOrder(Matching(items, q), pool)
  {
    if items != [] {
      var tail := items[1..];
      InPoolOrderTail(items, pool);
      MatchingKeepsOrder(tail, q, pool);
      var r' := Matching(tail, q);
      if ContainsIgnoreCase(items[0].title, q) {
        assert forall j :: 0 <= j < |r'| ==> r'[j] in tail;
        ConsInPoolOrder(items[0], r', pool);
        assert Matching(items, q) == [items[0]] + r';
      } else {
        assert Matching(items, q) == r';
      }
    }
  }

  /** The workouts that survive `distinctBy` and the filter, before `take(6)`. */
  function Found(q: string, pool: seq<WorkoutMeta>): (r: seq<WorkoutMeta>)
    ensures |r| <= |pool|
  {
    Matching(DistinctByTitle(pool), q)
  }

  /** What survives is the first workout of each title that contains `q`, in pool order. */
  lemma FoundFacts(q: string, pool: seq<WorkoutMeta>)
    ensures forall x :: x in Found(q, pool) ==> ContainsIgnoreCase(x.title, q)
    ensures FirstOccurrences(Found(q, pool), pool) && InPoolOrder(Found(q, pool), pool)
  {
    var distinct := DistinctByTitle(pool);
    DistinctFromFirsts(pool, {});
    DistinctFromInOrder(pool, {});
    MatchingKeepsOrder(distinct, q, pool);
    var found := Found(q, pool);
    forall i | 0 <= i < |found|
      ensures FirstIndex(pool, found[i].title) < |pool| && pool[FirstIndex(pool, found[i].title)] == found[i]
    {
      assert found[i] in found;
      var k :| 0 <= k < |distinct| && distinct[k] == found[i];
    }
  }

  /** Titles listed in pool order are all different. */
  lemma InPoolOrderDistinct(r: seq<WorkoutMeta>, pool: seq<WorkoutMeta>)
    requires InPoolOrder(r, pool)
    ensures DistinctTitles(r)
  {
  }

  /** A prefix of the surviving workouts keeps every property of the whole list. */
  lemma FoundPrefix(q: string, pool: seq<WorkoutMeta>, n: nat)
    requires n <= |Found(q, pool)|
    ensures var r := Found(q, pool)[..n];
      && (forall i :: 0 <= i < |r| ==> ContainsIgnoreCase(r[i].title, q))
      && FirstOccurrences(r, pool) && InPoolOrder(r, pool) && DistinctTitles(r)
  {
    var found := Found(q, pool);
    FoundFacts(q, pool);
    var r := found[..n];
    assert forall i :: 0 <= i < |r| ==> r[i] == found[i] && found[i] in found;
    InPoolOrderDistinct(r, pool);
  }

  /**
   * The search results for what is typed in the box: nothing for a blank query;
   * otherwise at most six workouts, no title twice, each the first workout of its
   * title in the pool, in pool order. `ResultsMatch` adds that each title contains
   * the trimmed query.
   */
  function Results(query: string, pool: seq<WorkoutMeta>): (r: seq<WorkoutMeta>)
    ensures Trim(query) == [] ==> r == []
    ensures |r| <= MaxResults
    ensures DistinctTitles(r)
    ensures FirstOccurrences(r, pool) && InPoolOrder(r, pool)
  {
    var q := Trim(query);
    if IsBlank(q) then []
    else
      var found := Found(q, pool);
      var n := if |found| <= MaxResults then |found| else MaxResults;
      FoundPrefix(q, pool, n);
      found[..n]
  }

  /** Every result's title contains the trimmed query, ignoring case. */
  lemma ResultsMatch(query: string, pool: seq<WorkoutMeta>)
    ensures forall i :: 0 <= i < |Results(query, pool)| ==> ContainsIgnoreCase(Results(query, pool)[i].title, Trim(query))
  {
    var q := Trim(query);
    if !IsBlank(q) {
      var found := Found(q, pool);
      var n := if |found| <= MaxResults then |found| else MaxResults;
      FoundPrefix(q, pool, n);
    }
  }

  /**
   * Nothing that matches is skipped: a workout whose title contains the trimmed
   * query has its title listed, or else six results were found, the last of them
   * with a title that first appears in the pool before the workout's own.
   */
  lemma ResultsComplete(query: string, pool: seq<WorkoutMeta>, p: WorkoutMeta)
    requires p in pool && Trim(query) != [] && ContainsIgnoreCase(p.title, Trim(query))
    ensures var r := Results(query, pool);
      || (exists i :: 0 <= i < |r| && r[i].title == p.title)
      || (|r| == MaxResults && FirstIndex(pool, r[MaxResults - 1].title) < FirstIndex(pool, p.title))
  {
    var n := ResultsPrefix(query, pool);
    FoundPrefixComplete(Trim(query), pool, p, n);
  }

  /** `ResultsComplete` for the first `n` survivors, where `n` is six or all of them. */
  lemma FoundPrefixComplete(q: string, pool: seq<WorkoutMeta>, p: WorkoutMeta, n: nat)
    requires p in pool && ContainsIgnoreCase(p.title, q)
    requires n <= |Found(q, pool)| && (n == |Found(q, pool)| || n == MaxResults)
    ensures var r := Found(q, pool)[..n];
      || (exists i :: 0 <= i < |r| && r[i].title == p.title)
      || (|r| == MaxResults && FirstIndex(pool, r[MaxResults - 1].title) < FirstIndex(pool, p.title))
  {
    var found := Found(q, pool);
    var r := found[..n];
    if n == |found| || FirstIndex(pool, p.title) <= FirstIndex(pool, found[n - 1].title) {
      var i := FoundCut(q, pool, p, n);
      assert r[i] == found[i];
    } else {
      assert r[MaxResults - 1] == found[n - 1];
    }
  }

  /**
   * Among the first `n` survivors is one titled like `p`, when `p` matches and the
   * `n`-th survivor's title does not first appear before `p`'s.
   */
  lemma FoundCut(q: string, pool: seq<WorkoutMeta>, p: WorkoutMeta, n: nat) returns (i: nat)
    requires p in pool && ContainsIgnoreCase(p.title, q) && n <= |Found(q, pool)|
    requires n == |Found(q, pool)| || (n > 0 && FirstIndex(pool, p.title) <= FirstIndex(pool, Found(q, pool)[n - 1].title))
    ensures i < n && Found(q, pool)[i].title == p.title
  {
    i := FoundComplete(q, pool, p);
    FoundInOrder(q, pool);
    OrderedCut(Found(q, pool), pool, i, n);
  }

  /** For a query that is not blank, the results are the first six survivors, or all of them when there are fewer. */
  lemma ResultsPrefix(query: string, pool: seq<WorkoutMeta>) returns (n: nat)
    requires Trim(query) != []
    ensures n == if |Found(Trim(query), pool)| <= MaxResults then |Found(Trim(query), pool)| else MaxResults
    ensures Results(query, pool) == Found(Trim(query), pool)[..n]
  {
    var q := Trim(query);
    assert !IsBlank(q) by { assert !IsWhitespace(q[0]); }
    var found := Found(q, pool);
    n := if |found| <= MaxResults then |found| else MaxResults;
  }

  /** Every title of the pool that contains `q` survives `distinctBy` and the filter. */
  lemma FoundComplete(q: string, pool: seq<WorkoutMeta>, p: WorkoutMeta) returns (k: nat)
    requires p in pool && ContainsIgnoreCase(p.title, q)
    ensures k < |Found(q, pool)| && Found(q, pool)[k].title == p.title
  {
    var distinct := DistinctByTitle(pool);
    DistinctFromComplete(pool, {}, p);
    var d :| 0 <= d < |distinct| && distinct[d].title == p.title;
    assert distinct[d] in distinct;
    var found := Found(q, pool);
    k :| 0 <= k < |found| && found[k] == distinct[d];
  }

  /** What survives is in pool order. */
  lemma FoundInOrder(q: string, pool: seq<WorkoutMeta>)
    ensures InPoolOrder(Found(q, pool), pool)
  {
    DistinctFromInOrder(pool, {});
    MatchingKeepsOrder(DistinctByTitle(pool), q, pool);
  }

  /** In a list in pool order, an entry whose title comes no later than the `n`-th entry's is among the first `n`. */
  lemma OrderedCut(found: seq<WorkoutMeta>, pool: seq<WorkoutMeta>, k: nat, n: nat)
    requires InPoolOrder(found, pool) && k < |found| && n <= |found|
    requires n == |found| || (n > 0 && FirstIndex(pool, found[k].title) <= FirstIndex(pool, found[n - 1].title))
    ensures k < n
  {
  }
}
