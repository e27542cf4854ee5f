/**
 * The candidates of the ranked search and their ordering:
 * matches.sort(key=similarity, reverse=True) (src/matcher.py:116-117). Python's
 * sort is stable also when reversed, so equal scores keep encounter order.
 */
module Ranking {
  import opened Seqs

  /** One candidate row of the ranked search (the match_info dict, src/matcher.py:104-113). */
  datatype RankedMatch = RankedMatch(
    tab: string,
    name: string,
    similarity: int,
    purchasePrice: string,
    supplyPrice: string,
    vendor: string,
    image: string,
    option: string)

  predicate SortedDesc(s: seq<RankedMatch>) {
    forall i, j :: 0 <= i < j < |s| ==> s[i].similarity >= s[j].similarity
  }

  /** Place x before the first element of t that does not score higher than x. */
  function Insert(x: RankedMatch, t: seq<RankedMatch>): (r: seq<RankedMatch>)
    ensures multiset(r) == multiset(t) + multiset{x}
    ensures |r| == |t| + 1
  {
    if t == [] || x.similarity >= t[0].similarity then [x] + t
    else
      assert t == [t[0]] + t[1..];
      [t[0]] + Insert(x, t[1..])
  }

  /** A bound on every score of x and t bounds every score of the insertion. */
  lemma {:induction false} InsertBounded(x: RankedMatch, t: seq<RankedMatch>, b: int)
    requires x.similarity <= b && forall k :: 0 <= k < |t| ==> t[k].similarity <= b
    ensures forall k :: 0 <= k < |Insert(x, t)| ==> Insert(x, t)[k].similarity <= b
  {
    if !(t == [] || x.similarity >= t[0].similarity) {
      InsertBounded(x, t[1..], b);
    }
  }

  /** Inserting into a sorted list keeps it sorted. */
  lemma {:induction false} InsertSorted(x: RankedMatch, t: seq<RankedMatch>)
    requires SortedDesc(t)
    ensures SortedDesc(Insert(x, t))
  {
    if !(t == [] || x.similarity >= t[0].similarity) {
      var tail := t[1..];
      var rest := Insert(x, tail);
      InsertSorted(x, tail);
      InsertBounded(x, tail, t[0].similarity);
      var r := Insert(x, t);
      assert r == [t[0]] + rest;
      forall i, j | 0 <= i < j < |r| ensures r[i].similarity >= r[j].similarity {
        assert r[j] == rest[j - 1];
        if i > 0 {
          assert r[i] == rest[i - 1];
        }
      }
    }
  }

  /** The stable sort by score, highest first. */
  function SortByScore(s: seq<RankedMatch>): (r: seq<RankedMatch>)
    ensures multiset(r) == multiset(s)
    ensures |r| == |s|
    ensures SortedDesc(r)
  {
    if s == [] then []
    else
      assert s == [s[0]] + s[1..];
      InsertSorted(s[0], SortByScore(s[1..]));
      Insert(s[0], SortByScore(s[1..]))
  }

  function HasScore(v: int): RankedMatch -> bool {
    (m: RankedMatch) => m.similarity == v
  }

  function AtLeast(h: int): RankedMatch -> bool {
    (m: RankedMatch) => m.similarity >= h
  }

  lemma {:induction false} FilterInsert(x: RankedMatch, t: seq<RankedMatch>, p: RankedMatch -> bool)
    requires SortedDesc(t)
    ensures Filter(Insert(x, t), p) == if p(x) then Insert(x, Filter(t, p)) else Filter(t, p)
  {
    if t == [] || x.similarity >= t[0].similarity {
      var ft := Filter(t, p);
      if ft != [] {
        assert ft[0] in t;
      }
    } else {
      FilterInsert(x, t[1..], p);
    }
  }

  /** Sorting and then keeping the elements that satisfy p is keeping them and then sorting. */
  lemma {:induction false} SortCommutesWithFilter(s: seq<RankedMatch>, p: RankedMatch -> bool)
    ensures SortByScore(Filter(s, p)) == Filter(SortByScore(s), p)
  {
    if s != [] {
      SortCommutesWithFilter(s[1..], p);
      FilterInsert(s[0], SortByScore(s[1..]), p);
    }
  }

  lemma {:induction false} SortOfEqualScores(s: seq<RankedMatch>, v: int)
    requires forall k :: 0 <= k < |s| ==> s[k].similarity == v
    ensures SortByScore(s) == s
  {
    if s != [] {
      SortOfEqualScores(s[1..], v);
    }
  }

  /** Stability: among equal scores the sorted order is the encounter order. */
  lemma SortIsStable(s: seq<RankedMatch>, v: int)
    ensures Filter(SortByScore(s), HasScore(v)) == Filter(s, HasScore(v))
  {
    SortCommutesWithFilter(s, HasScore(v));
    SortOfEqualScores(Filter(s, HasScore(v)), v);
  }

  lemma {:induction false} AtLeastOfSortedIsPrefix(s: seq<RankedMatch>, h: int)
    requires SortedDesc(s)
    ensures Filter(s, AtLeast(h)) <= s
  {
    if s != [] {
      if s[0].similarity >= h {
        AtLeastOfSortedIsPrefix(s[1..], h);
      } else {
        NoneAtLeast(s[1..], h);
      }
    }
  }

  lemma {:induction false} NoneAtLeast(s: seq<RankedMatch>, h: int)
    requires forall k :: 0 <= k < |s| ==> s[k].similarity < h
    ensures Filter(s, AtLeast(h)) == []
  {
    if s != [] {
      NoneAtLeast(s[1..], h);
    }
  }

  /** Keeping the scores at or above h of a list and sorting gives a prefix of the sorted list. */
  lemma SortedAtLeastIsPrefix(s: seq<RankedMatch>, h: int)
    ensures SortByScore(Filter(s, AtLeast(h))) <= SortByScore(s)
  {
    SortCommutesWithFilter(s, AtLeast(h));
    AtLeastOfSortedIsPrefix(SortByScore(s), h);
  }

  /** The head of the sorted list is an element of the list with its highest score. */
  lemma SortedHeadIsMax(s: seq<RankedMatch>)
    requires s != []
    ensures SortByScore(s)[0] in s
    ensures forall j :: 0 <= j < |s| ==> s[j].similarity <= SortByScore(s)[0].similarity
  {
    var r := SortByScore(s);
    assert r[0] in multiset(s);
    forall j | 0 <= j < |s| ensures s[j].similarity <= r[0].similarity {
      assert s[j] in multiset(r);
      var m :| 0 <= m < |r| && r[m] == s[j];
    }
  }

  /** The head of the sorted list is the first element of the list with the head's score. */
  lemma SortedHeadIsFirstWithScore(s: seq<RankedMatch>)
    requires s != []
    ensures FirstWhere(s, HasScore(SortByScore(s)[0].similarity)).Some?
    ensures s[FirstWhere(s, HasScore(SortByScore(s)[0].similarity)).value] == SortByScore(s)[0]
  {
    var r := SortByScore(s);
    var v := r[0].similarity;
    var p := HasScore(v);
    assert FirstWhere(s, p).Some? by {
      SortedHeadIsMax(s);
      var i :| 0 <= i < |s| && s[i] == r[0];
      assert p(s[i]);
    }
    SortIsStable(s, v);
    FilterHead(r, p, 0);
    FilterHead(s, p, FirstWhere(s, p).value);
  }

  /** The head of the sorted list has the highest score and is the first element with it. */
  lemma SortedHeadIsFirstBest(s: seq<RankedMatch>)
    requires s != []
    ensures exists k :: 0 <= k < |s| && IsFirstBest(s, k) && s[k] == SortByScore(s)[0]
  {
    var v := SortByScore(s)[0].similarity;
    SortedHeadIsMax(s);
    SortedHeadIsFirstWithScore(s);
    var k := FirstWhere(s, HasScore(v)).value;
    forall j | 0 <= j < k ensures s[j].similarity < v {
      assert !HasScore(v)(s[j]);
    }
    assert IsFirstBest(s, k);
  }

  predicate IsFirstBest(s: seq<RankedMatch>, k: int) {
    0 <= k < |s| &&
    (forall j :: 0 <= j < |s| ==> s[j].similarity <= s[k].similarity) &&
    (forall j :: 0 <= j < k ==> s[j].similarity < s[k].similarity)
  }

  lemma {:induction false} FilterHead<T>(s: seq<T>, p: T -> bool, k: nat)
    requires k < |s| && p(s[k]) && forall j :: 0 <= j < k ==> !p(s[j])
    ensures Filter(s, p) != [] && Filter(s, p)[0] == s[k]
  {
    if k > 0 {
      FilterHead(s[1..], p, k - 1);
    }
  }
}
