/** Sequence helpers shared by the matcher and the ledger model. */
module Seqs {
  import opened Wrappers

  /** The first index whose element satisfies p: a `for ... break` search loop. */
  function FirstWhere<T>(s: seq<T>, p: T -> bool): (r: Option<nat>)
    ensures r.Some? ==> r.value < |s| && p(s[r.value])
    ensures r.Some? ==> forall j :: 0 <= j < r.value ==> !p(s[j])
    ensures r.None? ==> forall j :: 0 <= j < |s| ==> !p(s[j])
  {
    if s == [] then None
    else if p(s[0]) then Some(0)
    else match FirstWhere(s[1..], p)
      case None => None
      case Some(k) => Some(k + 1)
  }

  /** Python's list.index(x), with None where it raises ValueError. */
  function IndexOf<T(==)>(s: seq<T>, x: T): (r: Option<nat>)
    ensures r.Some? ==> r.value < |s| && s[r.value] == x
    ensures r.Some? ==> forall j :: 0 <= j < r.value ==> s[j] != x
    ensures r.None? <==> x !in s
  {
    if s == [] then None
    else if s[0] == x then Some(0)
    else match IndexOf(s[1..], x)
      case None => None
      case Some(k) => Some(k + 1)
  }

  /** The elements satisfying p, in their original order (duplicates kept). */
  function Filter<T>(s: seq<T>, p: T -> bool): (r: seq<T>)
    ensures |r| <= |s|
    ensures forall k :: 0 <= k < |r| ==> p(r[k])
    ensures forall k :: 0 <= k < |r| ==> r[k] in s
    ensures forall k :: 0 <= k < |s| && p(s[k]) ==> s[k] in r
  {
    if s == [] then []
    else if p(s[0]) then [s[0]] + Filter(s[1..], p)
    else Filter(s[1..], p)
  }

  lemma {:induction false} FilterAppend<T>(a: seq<T>, b: seq<T>, p: T -> bool)
    ensures Filter(a + b, p) == Filter(a, p) + Filter(b, p)
  {
    if a == [] {
      assert a + b == b;
    } else {
      assert (a + b)[0] == a[0];
      assert (a + b)[1..] == a[1..] + b;
      FilterAppend(a[1..], b, p);
    }
  }

  /** Filters whose tests agree on every element give the same result. */
  lemma {:induction false} FilterCongruent<T>(s: seq<T>, p: T -> bool, q: T -> bool)
    requires forall k :: 0 <= k < |s| ==> p(s[k]) == q(s[k])
    ensures Filter(s, p) == Filter(s, q)
  {
    if s != [] {
      assert forall k :: 0 <= k < |s[1..]| ==> s[1..][k] == s[k + 1];
      FilterCongruent(s[1..], p, q);
    }
  }

  /** One more loop iteration keeps the next element when it passes the test. */
  lemma FilterSnoc<T>(s: seq<T>, p: T -> bool, i: nat)
    requires i < |s|
    ensures Filter(s[..i + 1], p) == Filter(s[..i], p) + (if p(s[i]) then [s[i]] else [])
  {
    assert s[..i + 1] == s[..i] + [s[i]];
    FilterAppend(s[..i], [s[i]], p);
  }

  /** The contributions f(x) of the elements of xs, appended in order (a loop of list.append calls). */
  function Concat<A, B>(xs: seq<A>, f: A -> seq<B>): seq<B> {
    if xs == [] then [] else Concat(xs[..|xs| - 1], f) + f(xs[|xs| - 1])
  }

  /** When every element contributes n items, the whole holds n items per element. */
  lemma {:induction false} ConcatLength<A, B>(xs: seq<A>, f: A -> seq<B>, n: nat)
    requires forall x :: |f(x)| == n
    ensures |Concat(xs, f)| == n * |xs|
  {
    if xs != [] {
      var init := xs[..|xs| - 1];
      ConcatLength(init, f, n);
      assert |Concat(xs, f)| == |Concat(init, f)| + n;
      assert n * |xs| == n * |init| + n;
    }
  }

  /** One more loop iteration appends the next element's contribution. */
  lemma ConcatSnoc<A, B>(xs: seq<A>, f: A -> seq<B>, i: nat)
    requires i < |xs|
    ensures Concat(xs[..i + 1], f) == Concat(xs[..i], f) + f(xs[i])
  {
    assert xs[..i + 1][..i] == xs[..i];
  }

  lemma {:induction false} ConcatMembership<A, B>(xs: seq<A>, f: A -> seq<B>, b: B)
    ensures b in Concat(xs, f) <==> exists k :: 0 <= k < |xs| && b in f(xs[k])
  {
    if xs != [] {
      var init := xs[..|xs| - 1];
      ConcatMembership(init, f, b);
      if b in Concat(xs, f) {
        if b in Concat(init, f) {
          var k :| 0 <= k < |init| && b in f(init[k]);
          assert init[k] == xs[k];
        } else {
          assert b in f(xs[|xs| - 1]);
        }
      } else {
        assert forall k :: 0 <= k < |init| ==> init[k] == xs[k];
      }
    }
  }

  lemma {:induction false} ConcatFilter<A, B>(xs: seq<A>, f: A -> seq<B>, g: A -> seq<B>, p: B -> bool)
    requires forall k :: 0 <= k < |xs| ==> g(xs[k]) == Filter(f(xs[k]), p)
    ensures Concat(xs, g) == Filter(Concat(xs, f), p)
  {
    if xs != [] {
      var init := xs[..|xs| - 1];
      assert forall k :: 0 <= k < |init| ==> init[k] == xs[k];
      ConcatFilter(init, f, g, p);
      FilterAppend(Concat(init, f), f(xs[|xs| - 1]), p);
    }
  }

  /** A dictionary filled by `d[key(x)] = val(x)` for each x of xs in order: later entries overwrite earlier ones. */
  function Tabulate<A, K, V>(xs: seq<A>, key: A -> K, val: A -> V): map<K, V> {
    if xs == [] then map[]
    else Tabulate(xs[..|xs| - 1], key, val)[key(xs[|xs| - 1]) := val(xs[|xs| - 1])]
  }

  /** The keys are exactly the keys of the elements. */
  lemma {:induction false} TabulateKeys<A, K, V>(xs: seq<A>, key: A -> K, val: A -> V)
    ensures Tabulate(xs, key, val).Keys == set k | 0 <= k < |xs| :: key(xs[k])
  {
    if xs != [] {
      var init := xs[..|xs| - 1];
      TabulateKeys(init, key, val);
      var s := set k | 0 <= k < |xs| :: key(xs[k]);
      var s0 := set k | 0 <= k < |init| :: key(init[k]);
      forall x | x in s ensures x in s0 + {key(xs[|xs| - 1])} {
        var k :| 0 <= k < |xs| && key(xs[k]) == x;
      }
      forall x | x in s0 ensures x in s {
        var k :| 0 <= k < |init| && key(init[k]) == x;
        assert xs[k] == init[k];
      }
      assert s == s0 + {key(xs[|xs| - 1])};
    }
  }

  /** The entry of a key is the value of the last element carrying it. */
  lemma {:induction false} TabulateLastWins<A, K, V>(xs: seq<A>, key: A -> K, val: A -> V, k: nat)
    requires k < |xs|
    requires forall j :: k < j < |xs| ==> key(xs[j]) != key(xs[k])
    ensures key(xs[k]) in Tabulate(xs, key, val)
    ensures Tabulate(xs, key, val)[key(xs[k])] == val(xs[k])
  {
    var init := xs[..|xs| - 1];
    if k < |init| {
      assert init[k] == xs[k];
      forall j | k < j < |init| ensures key(init[j]) != key(init[k]) {
        assert init[j] == xs[j];
      }
      TabulateLastWins(init, key, val, k);
    }
  }

  /** Python's slice s[:n], including the counting-from-the-end meaning of a negative n. */
  function PyPrefix<T>(s: seq<T>, n: int): (r: seq<T>)
    ensures r <= s
    ensures n >= 0 ==> |r| == if n < |s| then n else |s|
    ensures n < 0 ==> |r| == if |s| + n > 0 then |s| + n else 0
  {
    if n >= 0 then (if n < |s| then s[..n] else s)
    else (if |s| + n > 0 then s[..|s| + n] else [])
  }

  /** Slicing two sequences, one a prefix of the other, at the same n keeps them so. */
  lemma PyPrefixMonotone<T>(a: seq<T>, b: seq<T>, n: int)
    requires a <= b
    ensures PyPrefix(a, n) <= PyPrefix(b, n)
  {
  }

  /** A cell of a row, with "" for a column the row does not reach. */
  function CellAt(row: seq<string>, i: int): (r: string)
    ensures 0 <= i < |row| ==> r == row[i]
    ensures !(0 <= i < |row|) ==> r == ""
  {
    if 0 <= i < |row| then row[i] else ""
  }
}
