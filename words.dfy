/**
 * Word selection and grid construction: the shuffles performed by
 * `getRandomWords` and `createGrid`.
 *
 * `Collections.shuffle(list)` walks the list from the back and swaps position
 * i - 1 with a position drawn uniformly from [0, i), for i = size down to 2.
 * The draws are the only randomness; here they are a parameter.
 */
module Words {

  function Min(a: int, b: int): int { if a <= b then a else b }

  /** No value occurs twice in `s`. */
  predicate Distinct<T(==)>(s: seq<T>) {
    forall i, j :: 0 <= i < j < |s| ==> s[i] != s[j]
  }

  /** The draws that one call of `Collections.shuffle` makes on a list of length n:
      the k-th draw is taken from [0, n - k). */
  predicate ValidDraws(draws: seq<nat>, n: nat) {
    && |draws| == (if n <= 1 then 0 else n - 1)
    && forall k :: 0 <= k < |draws| ==> draws[k] < n - k
  }

  /** `Collections.swap(list, i, j)`. */
  function Swap<T>(s: seq<T>, i: nat, j: nat): (r: seq<T>)
    requires i < |s| && j < |s|
    ensures |r| == |s| && r[i] == s[j] && r[j] == s[i]
  {
    s[i := s[j]][j := s[i]]
  }

  lemma SwapPermutes<T>(s: seq<T>, i: nat, j: nat)
    requires i < |s| && j < |s|
    ensures multiset(Swap(s, i, j)) == multiset(s)
  {
  }

  /** The list after `Collections.shuffle` with the given draws: the first draw
      fixes the last position, the rest shuffle the prefix in front of it. */
  function Shuffled<T>(s: seq<T>, draws: seq<nat>): (r: seq<T>)
    requires ValidDraws(draws, |s|)
    ensures |r| == |s|
    decreases |s|
  {
    if |s| <= 1 then s
    else
      var n := |s|;
      var t := Swap(s, n - 1, draws[0]);
      Shuffled(t[..n - 1], draws[1..]) + [t[n - 1]]
  }

  /** The shuffle only rearranges: every element keeps its multiplicity. */
  lemma {:induction false} ShuffledPermutes<T>(s: seq<T>, draws: seq<nat>)
    requires ValidDraws(draws, |s|)
    ensures multiset(Shuffled(s, draws)) == multiset(s)
    decreases |s|
  {
    if |s| > 1 {
      var n := |s|;
      var t := Swap(s, n - 1, draws[0]);
      SwapPermutes(s, n - 1, draws[0]);
      ShuffledPermutes(t[..n - 1], draws[1..]);
      SplitLast(t);
      ShuffledStep(s, draws);
    }
  }

  lemma SplitLast<T>(s: seq<T>)
    requires |s| > 0
    ensures s == s[..|s| - 1] + [s[|s| - 1]]
  {
  }

  /** One step of the shuffle: the first draw decides the last element. */
  lemma ShuffledStep<T>(s: seq<T>, draws: seq<nat>)
    requires ValidDraws(draws, |s|) && |s| >= 2
    ensures var t := Swap(s, |s| - 1, draws[0]);
            Shuffled(s, draws) == Shuffled(t[..|s| - 1], draws[1..]) + [t[|s| - 1]]
  {
  }

  /** Two rearrangements of one list that agree on their last element agree,
      as multisets, on everything before it. */
  lemma DropLastKeepsPermutation<T>(a: seq<T>, b: seq<T>)
    requires multiset(a) == multiset(b) && |a| == |b| > 0 && a[|a| - 1] == b[|b| - 1]
    ensures multiset(a[..|a| - 1]) == multiset(b[..|b| - 1])
  {
    var n := |a|;
    assert a == a[..n - 1] + [a[n - 1]];
    assert b == b[..n - 1] + [b[n - 1]];
    calc {
      multiset(a[..n - 1]);
      multiset(a) - multiset{a[n - 1]};
      multiset(b) - multiset{b[n - 1]};
      multiset(b[..n - 1]);
    }
  }

  lemma PermutationLength<T>(a: seq<T>, b: seq<T>)
    requires multiset(a) == multiset(b)
    ensures |a| == |b|
  {
    assert |a| == |multiset(a)| && |b| == |multiset(b)|;
  }

  /** The position of a value that occurs in the list (its first occurrence). */
  ghost function IndexOf<T>(s: seq<T>, x: T): (i: nat)
    requires x in s
    ensures i < |s| && s[i] == x
  {
    if s[0] == x then 0 else 1 + IndexOf(s[1..], x)
  }

  /** Draws that turn `s` into its rearrangement `r`: each draw fetches the
      element that `r` wants at the current last position. */
  ghost function DrawsFor<T>(s: seq<T>, r: seq<T>): seq<nat>
    requires multiset(r) == multiset(s)
    decreases |s|
  {
    PermutationLength(r, s);
    var n := |s|;
    if n <= 1 then []
    else
      assert r[n - 1] in multiset(s);
      var j := IndexOf(s, r[n - 1]);
      FetchLastKeepsPermutation(s, r, j);
      [j] + DrawsFor(Swap(s, n - 1, j)[..n - 1], r[..n - 1])
  }

  /** Fetching r's last element to the back leaves prefixes that are again
      rearrangements of each other. */
  lemma FetchLastKeepsPermutation<T>(s: seq<T>, r: seq<T>, j: nat)
    requires multiset(r) == multiset(s) && |r| == |s| >= 2 && j < |s| && s[j] == r[|s| - 1]
    ensures multiset(r[..|s| - 1]) == multiset(Swap(s, |s| - 1, j)[..|s| - 1])
  {
    SwapPermutes(s, |s| - 1, j);
    DropLastKeepsPermutation(Swap(s, |s| - 1, j), r);
  }

  /** One step of DrawsFor: the draw j that fetches r's last element, then
      draws for the prefixes. */
  lemma DrawsForStep<T>(s: seq<T>, r: seq<T>, j: nat)
    requires multiset(r) == multiset(s) && |r| == |s| >= 2 && r[|s| - 1] in s
    requires j == IndexOf(s, r[|s| - 1])
    requires multiset(r[..|s| - 1]) == multiset(Swap(s, |s| - 1, j)[..|s| - 1])
    ensures DrawsFor(s, r) == [j] + DrawsFor(Swap(s, |s| - 1, j)[..|s| - 1], r[..|s| - 1])
  {
  }

  lemma {:induction false} DrawsForProduce<T>(s: seq<T>, r: seq<T>)
    requires multiset(r) == multiset(s)
    ensures ValidDraws(DrawsFor(s, r), |s|) && Shuffled(s, DrawsFor(s, r)) == r
    decreases |s|
  {
    PermutationLength(r, s);
    var n := |s|;
    if n == 1 {
      assert r[0] in multiset(s);
      assert r == s;
    } else if n > 1 {
      assert r[n - 1] in multiset(s);
      var j := IndexOf(s, r[n - 1]);
      var t := Swap(s, n - 1, j);
      FetchLastKeepsPermutation(s, r, j);
      DrawsForStep(s, r, j);
      DrawsForProduce(t[..n - 1], r[..n - 1]);
      ReachStep(s, r, j, DrawsFor(t[..n - 1], r[..n - 1]));
    }
  }

  /** The draws can produce every rearrangement of the list: modelling the
      shuffle by its draws leaves out no outcome of `Collections.shuffle`. */
  lemma ShuffleReachesEvery<T>(s: seq<T>, r: seq<T>)
    requires multiset(r) == multiset(s)
    ensures exists draws :: ValidDraws(draws, |s|) && Shuffled(s, draws) == r
  {
    DrawsForProduce(s, r);
  }

  /** The inductive step of ShuffleReachesEvery: the draw j, which brings the
      wanted last element to the back, followed by draws for the prefix. */
  lemma ReachStep<T>(s: seq<T>, r: seq<T>, j: nat, rest: seq<nat>)
    requires |s| == |r| >= 2 && j < |s| && s[j] == r[|r| - 1]
    requires ValidDraws(rest, |s| - 1)
    requires Shuffled(Swap(s, |s| - 1, j)[..|s| - 1], rest) == r[..|r| - 1]
    ensures ValidDraws([j] + rest, |s|) && Shuffled(s, [j] + rest) == r
  {
    var n, draws := |s|, [j] + rest;
    SplitLast(r);
    assert draws[1..] == rest;
    assert ValidDraws(draws, n);
    ShuffledStep(s, draws);
  }

  /** A list is free of duplicates exactly when no value has multiplicity above one. */
  lemma {:induction false} DistinctByMultiset<T>(s: seq<T>)
    ensures Distinct(s) <==> forall v :: multiset(s)[v] <= 1
  {
    if s != [] {
      var n := |s|;
      var front, last := s[..n - 1], s[n - 1];
      assert s == front + [last];
      DistinctByMultiset(front);
      if Distinct(s) {
        assert last !in front;
        forall v ensures multiset(s)[v] <= 1 {
          assert multiset(front)[v] <= 1;
        }
      }
      if forall v :: multiset(s)[v] <= 1 {
        forall v ensures multiset(front)[v] <= 1 {
          assert multiset(s)[v] >= multiset(front)[v];
        }
        assert multiset(s)[last] == multiset(front)[last] + 1;
        forall i, j | 0 <= i < j < n ensures s[i] != s[j] {
          if j < n - 1 {
            assert front[i] == s[i] && front[j] == s[j];
          } else {
            assert front[i] in multiset(front);
          }
        }
      }
    }
  }

  /** Rearranging a list keeps it free of duplicates. */
  lemma PermutationKeepsDistinct<T>(s: seq<T>, r: seq<T>)
    requires multiset(r) == multiset(s) && Distinct(s)
    ensures Distinct(r)
  {
    DistinctByMultiset(s);
    DistinctByMultiset(r);
  }

  lemma PrefixIsSubMultiset<T>(s: seq<T>, k: nat)
    requires k <= |s|
    ensures multiset(s[..k]) <= multiset(s)
  {
    assert s == s[..k] + s[k..];
  }

  /** `getRandomWords`: shuffle the pool, then keep its first n entries
      (`stream().limit(n)`). A pool shorter than n yields the whole pool. */
  function RandomWords(content: seq<string>, n: nat, draws: seq<nat>): (r: seq<string>)
    requires ValidDraws(draws, |content|)
    ensures |r| == Min(n, |content|) && |r| <= n
    ensures multiset(r) <= multiset(content)
    ensures Distinct(content) ==> Distinct(r)
  {
    var shuffled := Shuffled(content, draws);
    var k := Min(n, |content|);
    ShuffledPermutes(content, draws);
    PrefixIsSubMultiset(shuffled, k);
    assert Distinct(content) ==> Distinct(shuffled) by {
      if Distinct(content) { PermutationKeepsDistinct(content, shuffled); }
    }
    shuffled[..k]
  }

  /** `createGrid`: the first row is the selected words after one shuffle, the
      second row after a further shuffle of that same list. */
  function BuildRows(words: seq<string>, first: seq<nat>, second: seq<nat>): (rows: seq<seq<string>>)
    requires ValidDraws(first, |words|) && ValidDraws(second, |words|)
    ensures |rows| == 2
    ensures forall y :: 0 <= y < 2 ==> multiset(rows[y]) == multiset(words) && |rows[y]| == |words|
  {
    var row0 := Shuffled(words, first);
    ShuffledPermutes(words, first);
    ShuffledPermutes(row0, second);
    [row0, Shuffled(row0, second)]
  }

  /** Every selected word sits exactly once in each row, and nothing else
      does, as long as the selected words are themselves distinct. */
  lemma {:induction false} EachWordOncePerRow(words: seq<string>, rows: seq<seq<string>>, y: nat, w: string)
    requires Distinct(words) && y < |rows| && multiset(rows[y]) == multiset(words)
    ensures |rows[y]| == |words|
    ensures multiset(rows[y])[w] == (if w in words then 1 else 0)
  {
    assert |rows[y]| == |multiset(rows[y])| == |multiset(words)| == |words|;
    DistinctByMultiset(words);
    if w in words {
      assert w in multiset(words);
    }
  }

  /** The pool's duplicates are the only way a word can appear twice in a row. */
  lemma GridFromDistinctPool(content: seq<string>, n: nat, pick: seq<nat>, first: seq<nat>, second: seq<nat>, y: nat, w: string)
    requires Distinct(content) && ValidDraws(pick, |content|) && y < 2
    requires ValidDraws(first, Min(n, |content|)) && ValidDraws(second, Min(n, |content|))
    ensures var words := RandomWords(content, n, pick);
            var rows := BuildRows(words, first, second);
            |rows[y]| == Min(n, |content|) && multiset(rows[y])[w] == (if w in words then 1 else 0)
  {
    var words := RandomWords(content, n, pick);
    EachWordOncePerRow(words, BuildRows(words, first, second), y, w);
  }
}
