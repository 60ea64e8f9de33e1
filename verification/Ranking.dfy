/** Ranking scored matches: the stable descending sort and the removal of
    duplicates that scripts/auto_rapprochement.py composes. */
module Ranking {

  datatype Supplier = METRO | TAIYAT | EUROCIEL

  datatype Pair = Pair(supplier: Supplier, product: int)

  datatype Match = Match(pair: Pair, score: real, ratio: real)

  /** Python's sort by score, reversed: stable, best score first. */
  function SortDesc(s: seq<Match>): (r: seq<Match>)
    ensures |r| == |s|
  {
    if s == [] then [] else Insert(SortDesc(s[..|s| - 1]), s[|s| - 1])
  }

  function Insert(s: seq<Match>, x: Match): (r: seq<Match>)
    ensures |r| == |s| + 1
  {
    if s == [] || s[|s| - 1].score >= x.score then s + [x]
    else Insert(s[..|s| - 1], x) + [s[|s| - 1]]
  }

  function PairsOf(s: seq<Match>): (r: set<Pair>)
    ensures forall m :: m in s ==> m.pair in r
  {
    set m | m in s :: m.pair
  }

  /** The loop that keeps the first match of each pair. */
  function Dedupe(s: seq<Match>): seq<Match> {
    if s == [] then []
    else
      var rest, x := Dedupe(s[..|s| - 1]), s[|s| - 1];
      if x.pair in PairsOf(s[..|s| - 1]) then rest else rest + [x]
  }

  function WithScore(s: seq<Match>, score: real): seq<Match> {
    if s == [] then []
    else
      var rest, x := WithScore(s[..|s| - 1], score), s[|s| - 1];
      if x.score == score then rest + [x] else rest
  }

  /** Descending scores. */
  predicate Descending(s: seq<Match>) {
    |s| <= 1 || (s[|s| - 2].score >= s[|s| - 1].score && Descending(s[..|s| - 1]))
  }

  /** The score of a match is decided by its pair. */
  predicate ScoredBy(s: seq<Match>, f: Pair -> real) {
    forall i :: 0 <= i < |s| ==> s[i].score == f(s[i].pair)
  }

  lemma {:induction false} DescendingLast(s: seq<Match>, i: nat)
    requires Descending(s) && i < |s|
    ensures s[i].score >= s[|s| - 1].score
  {
    if i < |s| - 1 {
      DescendingLast(s[..|s| - 1], i);
    }
  }

  lemma {:induction false} WithScoreConcat(a: seq<Match>, b: seq<Match>, score: real)
    ensures WithScore(a + b, score) == WithScore(a, score) + WithScore(b, score)
  {
    if b == [] {
      assert a + b == a;
    } else {
      assert (a + b)[..|a + b| - 1] == a + b[..|b| - 1];
      WithScoreConcat(a, b[..|b| - 1], score);
    }
  }

  lemma {:induction false} WithScoreMember(s: seq<Match>, score: real, m: Match)
    ensures m in WithScore(s, score) <==> m in s && m.score == score
  {
    if s != [] {
      assert s == s[..|s| - 1] + [s[|s| - 1]];
      WithScoreMember(s[..|s| - 1], score, m);
    }
  }

  lemma WithScoreAppend(s: seq<Match>, x: Match, score: real)
    ensures WithScore(s + [x], score) == WithScore(s, score) + (if x.score == score then [x] else [])
  {
    assert (s + [x])[..|s|] == s;
  }

  lemma {:induction false} InsertKeepsOrder(s: seq<Match>, x: Match)
    requires Descending(s)
    ensures Descending(Insert(s, x))
    ensures s != [] && s[|s| - 1].score < x.score ==> Insert(s, x)[|s|] == s[|s| - 1]
    ensures !(s != [] && s[|s| - 1].score < x.score) ==> Insert(s, x)[|s|] == x
  {
    var r := Insert(s, x);
    assert r[..|s|] == if s == [] || s[|s| - 1].score >= x.score then s else Insert(s[..|s| - 1], x);
    if s != [] && s[|s| - 1].score < x.score {
      InsertKeepsOrder(s[..|s| - 1], x);
    }
  }

  lemma {:induction false} InsertWithScore(s: seq<Match>, x: Match, score: real)
    requires Descending(s)
    ensures WithScore(Insert(s, x), score) == WithScore(s, score) + (if x.score == score then [x] else [])
  {
    if s == [] || s[|s| - 1].score >= x.score {
      WithScoreAppend(s, x, score);
    } else {
      var front, last := s[..|s| - 1], s[|s| - 1];
      var kept := WithScore(front, score);
      InsertWithScore(front, x, score);
      WithScoreAppend(Insert(front, x), last, score);
      if x.score == score {
        assert WithScore(s, score) == kept;
      } else {
        assert WithScore(Insert(front, x), score) == kept;
      }
    }
  }

  /** The sort is descending and keeps, for every score, the matches of that
      score in their order. */
  lemma {:induction false} SortIsStable(s: seq<Match>, score: real)
    ensures Descending(SortDesc(s))
    ensures WithScore(SortDesc(s), score) == WithScore(s, score)
  {
    if s != [] {
      SortIsStable(s[..|s| - 1], score);
      InsertKeepsOrder(SortDesc(s[..|s| - 1]), s[|s| - 1]);
      InsertWithScore(SortDesc(s[..|s| - 1]), s[|s| - 1], score);
    }
  }

  lemma SortMembers(s: seq<Match>, m: Match)
    ensures m in SortDesc(s) <==> m in s
  {
    SortIsStable(s, m.score);
    WithScoreMember(s, m.score, m);
    WithScoreMember(SortDesc(s), m.score, m);
  }

  lemma SortPairs(s: seq<Match>)
    ensures PairsOf(SortDesc(s)) == PairsOf(s)
  {
    forall m ensures m in SortDesc(s) <==> m in s {
      SortMembers(s, m);
    }
  }

  lemma LowestScore(a: seq<Match>, b: seq<Match>)
    requires Descending(b) && a != []
    requires WithScore(a, a[|a| - 1].score) == WithScore(b, a[|a| - 1].score)
    ensures b != [] && b[|b| - 1].score <= a[|a| - 1].score
  {
    var x := a[|a| - 1];
    WithScoreMember(a, x.score, x);
    WithScoreMember(b, x.score, x);
    var i :| 0 <= i < |b| && b[i] == x;
    DescendingLast(b, i);
  }

  /** These two facts leave one list only: every stable descending sort is this
      one. */
  lemma {:induction false} StableSortIsUnique(a: seq<Match>, b: seq<Match>)
    requires Descending(a) && Descending(b)
    requires forall score :: WithScore(a, score) == WithScore(b, score)
    ensures a == b
  {
    if a != [] {
      LowestScore(a, b);
    }
    if b != [] {
      LowestScore(b, a);
    }
    if a != [] {
      var x, y := a[|a| - 1], b[|b| - 1];
      var fa, fb := a[..|a| - 1], b[..|b| - 1];
      assert WithScore(a, x.score) == WithScore(fa, x.score) + [x];
      assert WithScore(b, x.score) == WithScore(fb, x.score) + [y];
      assert WithScore(a, x.score) == WithScore(b, x.score);
      assert WithScore(a, x.score)[|WithScore(fa, x.score)|] == x;
      assert WithScore(b, x.score)[|WithScore(fb, x.score)|] == y;
      forall score ensures WithScore(fa, score) == WithScore(fb, score) {
        assert WithScore(a, score) == WithScore(b, score);
        if score == x.score {
          assert WithScore(fa, score) == WithScore(a, score)[..|WithScore(a, score)| - 1];
          assert WithScore(fb, score) == WithScore(b, score)[..|WithScore(b, score)| - 1];
        }
      }
      StableSortIsUnique(fa, fb);
      assert a == fa + [x] && b == fb + [x];
    }
  }

  // ------------------------------------------------------------- duplicates

  lemma {:induction false} DedupeSize(s: seq<Match>)
    ensures |Dedupe(s)| == |PairsOf(s)|
  {
    if s != [] {
      var front, x := s[..|s| - 1], s[|s| - 1];
      DedupeSize(front);
      assert s == front + [x];
      PairsAppend(front, x);
      var p := PairsOf(front);
      if x.pair in p {
        assert p + {x.pair} == p;
      } else {
        assert |p + {x.pair}| == |p| + 1;
      }
    }
  }

  lemma PairsAppend(s: seq<Match>, x: Match)
    ensures PairsOf(s + [x]) == PairsOf(s) + {x.pair}
  {
    assert x in s + [x];
    forall m | m in s ensures m in s + [x] {
    }
  }

  lemma {:induction false} DedupeMembers(s: seq<Match>)
    ensures forall m :: m in Dedupe(s) ==> m in s
    ensures PairsOf(Dedupe(s)) == PairsOf(s)
  {
    if s != [] {
      var front, x := s[..|s| - 1], s[|s| - 1];
      DedupeMembers(front);
      assert s == front + [x];
      PairsAppend(front, x);
      PairsAppend(Dedupe(front), x);
    }
  }

  lemma {:induction false} DedupeWithScore(s: seq<Match>, score: real, f: Pair -> real)
    requires ScoredBy(s, f)
    ensures WithScore(Dedupe(s), score) == Dedupe(WithScore(s, score))
  {
    if s != [] {
      var front, x := s[..|s| - 1], s[|s| - 1];
      DedupeWithScore(front, score, f);
      WithScoreAppend(Dedupe(front), x, score);
      if x.score == score {
        var kept := WithScore(front, score);
        assert (kept + [x])[..|kept|] == kept;
        assert x.pair in PairsOf(front) <==> x.pair in PairsOf(kept) by {
          forall m: Match ensures m in kept <==> m in front && m.score == score {
            WithScoreMember(front, score, m);
          }
          forall m | m in front && m.pair == x.pair ensures m in kept {
            var i :| 0 <= i < |front| && front[i] == m;
            assert s[i] == m && s[|s| - 1] == x;
          }
        }
      }
    }
  }

  function Rank(s: seq<Match>): seq<Match> {
    SortDesc(Dedupe(s))
  }

  /** A ranking depends only on the order of the matches of equal score. */
  lemma RankByScores(a: seq<Match>, b: seq<Match>, f: Pair -> real)
    requires ScoredBy(a, f) && ScoredBy(b, f)
    requires forall score :: WithScore(a, score) == WithScore(b, score)
    ensures Rank(a) == Rank(b)
  {
    forall score ensures WithScore(Rank(a), score) == WithScore(Rank(b), score) {
      SortIsStable(Dedupe(a), score);
      SortIsStable(Dedupe(b), score);
      DedupeWithScore(a, score, f);
      DedupeWithScore(b, score, f);
    }
    SortIsStable(Dedupe(a), 0.0);
    SortIsStable(Dedupe(b), 0.0);
    StableSortIsUnique(Rank(a), Rank(b));
  }

  // --------------------------------------------------------------- the best

  /** Where a pair first appears. */
  function First(s: seq<Match>, p: Pair): (i: nat)
    ensures i <= |s|
    ensures i < |s| ==> s[i].pair == p
    ensures forall k :: 0 <= k < i ==> s[k].pair != p
  {
    if s == [] || s[0].pair == p then 0 else 1 + First(s[1..], p)
  }

  /** A better score, or the same score and an earlier appearance in `all`. */
  predicate Beats(all: seq<Match>, a: Match, b: Match) {
    a.score > b.score || (a.score == b.score && First(all, a.pair) < First(all, b.pair))
  }

  /** Every match beats all that follow it. */
  predicate Ranked(all: seq<Match>, s: seq<Match>) {
    s == [] || (Ranked(all, s[..|s| - 1]) && AllBeat(all, s[..|s| - 1], s[|s| - 1]))
  }

  predicate AllBeat(all: seq<Match>, s: seq<Match>, x: Match) {
    forall m :: m in s ==> Beats(all, m, x)
  }

  lemma {:induction false} InsertMembers(s: seq<Match>, x: Match)
    ensures forall m :: m in Insert(s, x) <==> m in s || m == x
  {
    if s != [] {
      assert s == s[..|s| - 1] + [s[|s| - 1]];
      InsertMembers(s[..|s| - 1], x);
    }
  }

  lemma {:induction false} InsertRanked(all: seq<Match>, s: seq<Match>, x: Match)
    requires Ranked(all, s)
    requires forall m :: m in s ==> First(all, m.pair) < First(all, x.pair)
    ensures Ranked(all, Insert(s, x))
  {
    var r := Insert(s, x);
    if s == [] || s[|s| - 1].score >= x.score {
      assert r[..|s|] == s;
      forall m | m in s ensures Beats(all, m, x) {
        assert s == s[..|s| - 1] + [s[|s| - 1]];
        assert m == s[|s| - 1] || Beats(all, m, s[|s| - 1]);
      }
    } else {
      var front, last := s[..|s| - 1], s[|s| - 1];
      assert forall m :: m in front ==> m in s;
      InsertRanked(all, front, x);
      InsertMembers(front, x);
      assert r[..|s|] == Insert(front, x);
    }
  }

  /** Where pairs of a prefix first appear does not depend on the rest. */
  lemma FirstInPrefix(s: seq<Match>, n: nat, p: Pair)
    requires n <= |s|
    ensures p in PairsOf(s[..n]) <==> First(s, p) < n
  {
    var i := First(s, p);
    if i < n {
      assert s[..n][i].pair in PairsOf(s[..n]);
    }
    forall k | 0 <= k < n ensures s[..n][k] == s[k] {
    }
  }

  lemma {:induction false} SortRanks(all: seq<Match>, n: nat)
    requires n <= |all|
    ensures Ranked(all, Rank(all[..n]))
  {
    if n > 0 {
      var front, x := all[..n - 1], all[n - 1];
      assert all[..n][..n - 1] == front;
      SortRanks(all, n - 1);
      if x.pair !in PairsOf(front) {
        var kept := Dedupe(front);
        assert (kept + [x])[..|kept|] == kept;
        FirstInPrefix(all, n - 1, x.pair);
        forall m | m in Rank(front) ensures First(all, m.pair) < First(all, x.pair) {
          SortMembers(kept, m);
          DedupeMembers(front);
          FirstInPrefix(all, n - 1, m.pair);
        }
        InsertRanked(all, Rank(front), x);
      }
    }
  }

  lemma {:induction false} RankedOrder(all: seq<Match>, s: seq<Match>, i: nat, j: nat)
    requires Ranked(all, s) && i < j < |s|
    ensures Beats(all, s[i], s[j])
  {
    if j < |s| - 1 {
      RankedOrder(all, s[..|s| - 1], i, j);
    } else {
      assert s[i] in s[..|s| - 1];
    }
  }

  function Min(a: nat, b: nat): nat { if a < b then a else b }

  /** `[:5]` */
  function TopFive(s: seq<Match>): (r: seq<Match>) {
    s[..Min(5, |s|)]
  }

  /** Of all the matches, the first five of the ranking are distinct pairs, as
      many as there are up to five, each beats the next, and every pair left
      out is beaten by all five. */
  lemma BestFive(all: seq<Match>)
    ensures |TopFive(Rank(all))| == Min(5, |PairsOf(all)|)
    ensures forall m :: m in TopFive(Rank(all)) ==> m in all
    ensures forall i, j :: 0 <= i < j < |TopFive(Rank(all))| ==>
              TopFive(Rank(all))[i].pair != TopFive(Rank(all))[j].pair
              && Beats(all, TopFive(Rank(all))[i], TopFive(Rank(all))[j])
    ensures forall p :: p in PairsOf(all) && p !in PairsOf(TopFive(Rank(all))) ==>
              |TopFive(Rank(all))| == 5 && exists q :: q in all && q.pair == p && AllBeat(all, TopFive(Rank(all)), q)
  {
    var r, five := Rank(all), TopFive(Rank(all));
    DedupeSize(all);
    DedupeMembers(all);
    assert all[..|all|] == all;
    SortRanks(all, |all|);
    SortPairs(Dedupe(all));
    forall m | m in five ensures m in all {
      SortMembers(Dedupe(all), m);
    }
    forall i, j | 0 <= i < j < |five| ensures five[i].pair != five[j].pair && Beats(all, five[i], five[j]) {
      RankedOrder(all, r, i, j);
      DedupeDistinct(all, i, j);
    }
    forall p | p in PairsOf(all) && p !in PairsOf(five)
      ensures |five| == 5 && exists q :: q in all && q.pair == p && AllBeat(all, five, q)
    {
      var q := LeftOut(all, p);
    }
  }

  lemma LeftOut(all: seq<Match>, p: Pair) returns (q: Match)
    requires p in PairsOf(all) && p !in PairsOf(TopFive(Rank(all)))
    ensures |Rank(all)| > 5
    ensures q in all && q.pair == p && AllBeat(all, TopFive(Rank(all)), q)
  {
    var r, five := Rank(all), TopFive(Rank(all));
    assert p in PairsOf(r) by {
      DedupeMembers(all);
      SortPairs(Dedupe(all));
    }
    var k := First(r, p);
    assert k < |r|;
    assert forall i :: 0 <= i < |five| ==> five[i] in five;
    q := r[k];
    assert q in all by {
      SortMembers(Dedupe(all), q);
      DedupeMembers(all);
    }
    assert Ranked(all, r) by {
      assert all[..|all|] == all;
      SortRanks(all, |all|);
    }
    RankedHead(all, r, |five|, k);
  }

  lemma RankedHead(all: seq<Match>, s: seq<Match>, n: nat, k: nat)
    requires Ranked(all, s) && n <= k < |s|
    ensures AllBeat(all, s[..n], s[k])
  {
    forall m | m in s[..n] ensures Beats(all, m, s[k]) {
      var i :| 0 <= i < n && s[i] == m;
      RankedOrder(all, s, i, k);
    }
  }

  /** A list with as many pairs as elements repeats none. */
  lemma {:induction false} NoRepeats(s: seq<Match>, i: nat, j: nat)
    requires |PairsOf(s)| == |s| && i < j < |s|
    ensures s[i].pair != s[j].pair
  {
    if s[i].pair == s[j].pair {
      var rest := s[..j] + s[j + 1..];
      forall p | p in PairsOf(s) ensures p in PairsOf(rest) {
        var k :| 0 <= k < |s| && s[k].pair == p;
        if k < j {
          assert rest[k] == s[k];
        } else if k == j {
          assert rest[i] == s[i];
        } else {
          assert rest[k - 1] == s[k];
        }
      }
      assert PairsOf(s) <= PairsOf(rest);
      PairsAtMost(rest);
      SubsetSize(PairsOf(s), PairsOf(rest));
      assert false;
    }
  }

  lemma {:induction false} PairsAtMost(s: seq<Match>)
    ensures |PairsOf(s)| <= |s|
  {
    DedupeSize(s);
    DedupeShorter(s);
  }

  lemma {:induction false} DedupeShorter(s: seq<Match>)
    ensures |Dedupe(s)| <= |s|
  {
    if s != [] {
      DedupeShorter(s[..|s| - 1]);
    }
  }

  lemma {:induction false} SubsetSize(a: set<Pair>, b: set<Pair>)
    requires a <= b
    ensures |a| <= |b|
  {
    if a != {} {
      var x :| x in a;
      SubsetSize(a - {x}, b - {x});
    }
  }

  lemma DedupeDistinct(all: seq<Match>, i: nat, j: nat)
    requires i < j < |Rank(all)|
    ensures Rank(all)[i].pair != Rank(all)[j].pair
  {
    SortPairs(Dedupe(all));
    DedupeMembers(all);
    DedupeSize(all);
    NoRepeats(Rank(all), i, j);
  }
}
