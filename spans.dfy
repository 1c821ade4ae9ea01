/**
 * The overlap test of `find_matches` (cdp.py): the spans `(x, x + len)` of
 * the placed segments, taken in segment order (strict mode) or sorted as
 * tuples (otherwise), must each end no later than the next one starts.
 */
module Spans {

  /** A half-open atom interval `[start, end)`. */
  type Span = (int, int)

  predicate Disjoint(a: Span, b: Span) {
    a.1 <= b.0 || b.1 <= a.0
  }

  /** Every span ends no earlier than it starts. */
  predicate Proper(s: seq<Span>) {
    forall k :: 0 <= k < |s| ==> s[k].0 <= s[k].1
  }

  /** The test `all(r[j][1] <= r[j+1][0] ...)`. */
  predicate Consecutive(s: seq<Span>) {
    forall j :: 0 <= j < |s| - 1 ==> s[j].1 <= s[j + 1].0
  }

  /** No two spans at different positions of `s` overlap. */
  predicate PairwiseDisjoint(s: seq<Span>) {
    forall a, b :: 0 <= a < b < |s| ==> Disjoint(s[a], s[b])
  }

  /** The order of Python's tuple comparison. */
  predicate SpanLe(a: Span, b: Span) {
    a.0 < b.0 || (a.0 == b.0 && a.1 <= b.1)
  }

  predicate AdjacentSorted(s: seq<Span>) {
    forall j :: 0 <= j < |s| - 1 ==> SpanLe(s[j], s[j + 1])
  }

  function Insert(x: Span, s: seq<Span>): (r: seq<Span>)
    ensures multiset(r) == multiset(s) + multiset{x}
  {
    if s == [] || SpanLe(x, s[0]) then [x] + s
    else
      assert s == [s[0]] + s[1..];
      [s[0]] + Insert(x, s[1..])
  }

  /** `r.sort()` on a list of pairs: a permutation whose neighbours are in tuple order. */
  function Sort(s: seq<Span>): (r: seq<Span>)
    ensures multiset(r) == multiset(s)
    ensures AdjacentSorted(r)
  {
    if s == [] then []
    else
      assert s == [s[0]] + s[1..];
      var t := Sort(s[1..]);
      InsertSorted(s[0], t);
      Insert(s[0], t)
  }

  lemma {:induction false} InsertSorted(x: Span, s: seq<Span>)
    requires AdjacentSorted(s)
    ensures AdjacentSorted(Insert(x, s))
  {
    if s != [] && !SpanLe(x, s[0]) {
      InsertSorted(x, s[1..]);
      var u := Insert(x, s[1..]);
      assert u[0] == x || u[0] == s[1] by {
        if s[1..] == [] || SpanLe(x, s[1]) {
        } else {
          assert u[0] == s[1..][0];
        }
      }
    }
  }

  // ----- the recursive view of pairwise disjointness -----

  /** `x` is disjoint from every member of `s`. */
  predicate DisjointFromAll(x: Span, s: seq<Span>) {
    forall y :: y in s ==> Disjoint(x, y)
  }

  /** Each span is disjoint from every span after it. */
  predicate Separated(s: seq<Span>) {
    s == [] || (DisjointFromAll(s[0], s[1..]) && Separated(s[1..]))
  }

  lemma {:induction false} SeparatedIsPairwise(s: seq<Span>)
    ensures Separated(s) <==> PairwiseDisjoint(s)
  {
    if s != [] {
      SeparatedIsPairwise(s[1..]);
      var t := s[1..];
      if PairwiseDisjoint(s) {
        assert PairwiseDisjoint(t) by {
          forall a, b | 0 <= a < b < |t| ensures Disjoint(t[a], t[b]) {
            assert t[a] == s[a + 1] && t[b] == s[b + 1];
          }
        }
        forall y | y in t ensures Disjoint(s[0], y) {
          var b :| 0 <= b < |t| && t[b] == y;
          assert s[b + 1] == y;
        }
      }
      if Separated(s) {
        forall a, b | 0 <= a < b < |s| ensures Disjoint(s[a], s[b]) {
          assert s[b] == t[b - 1];
          if a > 0 {
            assert s[a] == t[a - 1];
          } else {
            assert s[b] in t;
          }
        }
      }
    }
  }

  lemma InsertMembers(x: Span, s: seq<Span>)
    ensures forall y :: y in Insert(x, s) <==> y == x || y in s
  {
    var r := Insert(x, s);
    forall y ensures y in r <==> y == x || y in s {
      assert y in r <==> y in multiset(r);
      assert y in s <==> y in multiset(s);
    }
  }

  lemma SortMembers(s: seq<Span>)
    ensures forall y :: y in Sort(s) <==> y in s
  {
    var r := Sort(s);
    forall y ensures y in r <==> y in s {
      assert y in r <==> y in multiset(r);
      assert y in s <==> y in multiset(s);
    }
  }

  lemma SameMembersDisjoint(x: Span, a: seq<Span>, b: seq<Span>)
    requires forall y :: y in a <==> y in b
    ensures DisjointFromAll(x, a) <==> DisjointFromAll(x, b)
  {
  }

  lemma {:induction false} InsertSeparated(x: Span, s: seq<Span>)
    ensures Separated(Insert(x, s)) <==> DisjointFromAll(x, s) && Separated(s)
  {
    if s != [] && !SpanLe(x, s[0]) {
      var u := Insert(x, s[1..]);
      InsertSeparated(x, s[1..]);
      InsertMembers(x, s[1..]);
      assert Insert(x, s) == [s[0]] + u;
      assert ([s[0]] + u)[1..] == u;
      assert forall y :: y in s <==> y == s[0] || y in s[1..];
      assert DisjointFromAll(s[0], u) <==> Disjoint(s[0], x) && DisjointFromAll(s[0], s[1..]);
      assert DisjointFromAll(x, s) <==> Disjoint(x, s[0]) && DisjointFromAll(x, s[1..]);
    }
  }

  /** Sorting neither creates nor removes an overlap. */
  lemma {:induction false} SortSeparated(s: seq<Span>)
    ensures Separated(Sort(s)) <==> Separated(s)
  {
    if s != [] {
      var t := Sort(s[1..]);
      SortSeparated(s[1..]);
      InsertSeparated(s[0], t);
      SortMembers(s[1..]);
      SameMembersDisjoint(s[0], t, s[1..]);
    }
  }

  lemma {:induction false} SortProper(s: seq<Span>)
    requires Proper(s)
    ensures Proper(Sort(s))
  {
    var r := Sort(s);
    forall k | 0 <= k < |r| ensures r[k].0 <= r[k].1 {
      assert r[k] in multiset(r);
      assert r[k] in s;
    }
  }

  /** Along consecutive proper spans, every later span starts after an earlier one ends. */
  lemma {:induction false} ConsecutiveChain(s: seq<Span>, a: nat, b: nat)
    requires Proper(s) && Consecutive(s) && a < b < |s|
    ensures s[a].1 <= s[b].0
    decreases b - a
  {
    if a + 1 < b {
      ConsecutiveChain(s, a + 1, b);
    }
  }

  /** Consecutive proper spans are pairwise disjoint. */
  lemma ConsecutiveDisjoint(s: seq<Span>)
    requires Proper(s) && Consecutive(s)
    ensures PairwiseDisjoint(s)
  {
    forall a, b | 0 <= a < b < |s| ensures Disjoint(s[a], s[b]) {
      ConsecutiveChain(s, a, b);
    }
  }

  /** For spans in tuple order, the neighbour test is exactly pairwise disjointness. */
  lemma SortedConsecutive(s: seq<Span>)
    requires Proper(s) && AdjacentSorted(s)
    ensures Consecutive(s) <==> PairwiseDisjoint(s)
  {
    if Consecutive(s) {
      ConsecutiveDisjoint(s);
    }
    if PairwiseDisjoint(s) {
      forall j | 0 <= j < |s| - 1 ensures s[j].1 <= s[j + 1].0 {
        assert Disjoint(s[j], s[j + 1]);
      }
    }
  }

  /**
   * The non-strict overlap test: sorting and then comparing neighbours
   * accepts exactly the pairwise disjoint spans.
   */
  lemma SortedTestIsDisjointness(s: seq<Span>)
    requires Proper(s)
    ensures Consecutive(Sort(s)) <==> PairwiseDisjoint(s)
  {
    SortProper(s);
    SortedConsecutive(Sort(s));
    SeparatedIsPairwise(Sort(s));
    SortSeparated(s);
    SeparatedIsPairwise(s);
  }
}
