/** The similarity engine: atoms, lists of atoms, keyed collections, word senses and words,
    each scored in [0, 1] with exact rational weights. */
module Similarity {
  import opened Wrappers
  import opened Atoms
  import opened Words
  import opened Taxonomy

  /** Weight of the first primitive. */
  const Beta1: real := 0.5
  /** Weight of the other primitives. */
  const Beta2: real := 0.2
  /** Weight of the relational primitives. */
  const Beta3: real := 0.17
  /** Weight of the symbol primitives. */
  const Beta4: real := 0.13
  /** Score of a concrete word against a sememe. */
  const Gamma: real := 0.2
  /** Score of an unmatched element against nothing. */
  const Delta: real := 0.2

  /** `similar_inner`: two sememes are scored by the taxonomy, two concrete words by whether
      their Chinese labels agree, and a mixed pair gets `gamma`. */
  function SimilarInner(t: Taxonomy, a1: Atom, a2: Atom): (s: real)
    requires Forest(t)
    ensures 0.0 <= s <= 1.0
  {
    if !a1.isConcrete && !a2.isConcrete then Similar(t, a1.eng, a2.eng)
    else if a1.isConcrete && a2.isConcrete then (if a1.chi == a2.chi then 1.0 else 0.0)
    else Gamma
  }

  /** The atom score does not depend on the order of the two atoms. */
  lemma SimilarInnerSymmetric(t: Taxonomy, a1: Atom, a2: Atom)
    requires Forest(t)
    ensures SimilarInner(t, a1, a2) == SimilarInner(t, a2, a1)
  {
    if !a1.isConcrete && !a2.isConcrete {
      SimilarSymmetric(t, a1.eng, a2.eng);
    }
  }

  /** An atom is fully similar to itself when it is concrete or its tag is known; an abstract
      atom with an unknown tag gets the default score. */
  lemma SimilarInnerSelf(t: Taxonomy, a: Atom)
    requires Forest(t)
    ensures a.isConcrete || a.eng in t.ids ==> SimilarInner(t, a, a) == 1.0
    ensures !a.isConcrete && a.eng !in t.ids ==> SimilarInner(t, a, a) == Alpha / (20.0 + Alpha)
  {
    if !a.isConcrete {
      if a.eng in t.ids {
        SimilarSelf(t, a.eng);
      } else {
        SimilarUnknown(t, a.eng, a.eng);
      }
    }
  }

  /** The best pair found so far in one round of `similar_list`: its score (`similar_max`)
      and its positions, `None` while no pair has scored above 0. */
  datatype Choice = Choice(score: real, pick: Option<(nat, nat)>)

  /** The inner `for atom2 in l2` loop for `l1[i] == a`: from position `j` on, every pair
      still in play that scores strictly above the best so far becomes the best. */
  function RowBest(t: Taxonomy, a: Atom, i: nat, l2: seq<Atom>, rm2: set<nat>, j: nat, acc: Choice): Choice
    requires Forest(t) && j <= |l2|
    decreases |l2| - j
  {
    if j == |l2| then acc
    else
      var s := SimilarInner(t, a, l2[j]);
      RowBest(t, a, i, l2, rm2, j + 1, if j !in rm2 && s > acc.score then Choice(s, Some((i, j))) else acc)
  }

  /** The outer `for atom1 in l1` loop: the rows still in play from position `i` on. */
  function TableBest(t: Taxonomy, l1: seq<Atom>, l2: seq<Atom>, rm1: set<nat>, rm2: set<nat>, i: nat, acc: Choice): Choice
    requires Forest(t) && i <= |l1|
    decreases |l1| - i
  {
    if i == |l1| then acc
    else TableBest(t, l1, l2, rm1, rm2, i + 1, if i in rm1 then acc else RowBest(t, l1[i], i, l2, rm2, 0, acc))
  }

  /** One round of `similar_list`: the best pair among those not yet removed. */
  function BestPair(t: Taxonomy, l1: seq<Atom>, l2: seq<Atom>, rm1: set<nat>, rm2: set<nat>): Choice
    requires Forest(t)
  {
    TableBest(t, l1, l2, rm1, rm2, 0, Choice(0.0, None))
  }

  /** Pair `(i, j)` of the two lists is still in play. */
  predicate InPlay(l1: seq<Atom>, l2: seq<Atom>, rm1: set<nat>, rm2: set<nat>, i: int, j: int) {
    0 <= i < |l1| && i !in rm1 && 0 <= j < |l2| && j !in rm2
  }

  /** The row scan keeps or improves the best so far; every pair of the row from `j` on scores
      no more than its result; a new pick is a pair of the row in play, with its own score,
      and every pair of the row before it scores strictly less. */
  lemma {:induction false} RowBestSpec(t: Taxonomy, a: Atom, i: nat, l2: seq<Atom>, rm2: set<nat>, j: nat, acc: Choice)
    requires Forest(t) && j <= |l2|
    ensures var r := RowBest(t, a, i, l2, rm2, j, acc);
      && r.score >= acc.score
      && (forall k :: j <= k < |l2| && k !in rm2 ==> SimilarInner(t, a, l2[k]) <= r.score)
      && (r == acc || (
        && r.pick.Some? && r.pick.value.0 == i
        && j <= r.pick.value.1 < |l2| && r.pick.value.1 !in rm2
        && SimilarInner(t, a, l2[r.pick.value.1]) == r.score && r.score > acc.score
        && forall k :: j <= k < r.pick.value.1 && k !in rm2 ==> SimilarInner(t, a, l2[k]) < r.score))
    decreases |l2| - j
  {
    if j < |l2| {
      var s := SimilarInner(t, a, l2[j]);
      var next := if j !in rm2 && s > acc.score then Choice(s, Some((i, j))) else acc;
      RowBestSpec(t, a, i, l2, rm2, j + 1, next);
    }
  }

  /** The table scan, from row `i` on: as `RowBestSpec`, with pairs ordered row by row. */
  lemma {:induction false} TableBestSpec(t: Taxonomy, l1: seq<Atom>, l2: seq<Atom>, rm1: set<nat>, rm2: set<nat>, i: nat, acc: Choice)
    requires Forest(t) && i <= |l1|
    ensures var r := TableBest(t, l1, l2, rm1, rm2, i, acc);
      && r.score >= acc.score
      && (forall p, q :: i <= p && InPlay(l1, l2, rm1, rm2, p, q) ==> SimilarInner(t, l1[p], l2[q]) <= r.score)
      && (r == acc || (
        && r.pick.Some? && i <= r.pick.value.0
        && InPlay(l1, l2, rm1, rm2, r.pick.value.0, r.pick.value.1)
        && SimilarInner(t, l1[r.pick.value.0], l2[r.pick.value.1]) == r.score && r.score > acc.score
        && forall p, q :: i <= p && InPlay(l1, l2, rm1, rm2, p, q)
             && (p < r.pick.value.0 || (p == r.pick.value.0 && q < r.pick.value.1))
             ==> SimilarInner(t, l1[p], l2[q]) < r.score))
    decreases |l1| - i
  {
    if i < |l1| {
      var next := if i in rm1 then acc else RowBest(t, l1[i], i, l2, rm2, 0, acc);
      if i !in rm1 {
        RowBestSpec(t, l1[i], i, l2, rm2, 0, acc);
      }
      TableBestSpec(t, l1, l2, rm1, rm2, i + 1, next);
    }
  }

  /** One round picks the first pair in play, row by row, with the highest score, provided
      that score is above 0; when every pair in play scores 0 it picks nothing and scores 0. */
  lemma BestPairIsFirstMax(t: Taxonomy, l1: seq<Atom>, l2: seq<Atom>, rm1: set<nat>, rm2: set<nat>)
    requires Forest(t)
    ensures var c := BestPair(t, l1, l2, rm1, rm2);
      && 0.0 <= c.score <= 1.0
      && (forall p, q :: InPlay(l1, l2, rm1, rm2, p, q) ==> SimilarInner(t, l1[p], l2[q]) <= c.score)
      && (c.pick.None? ==> c.score == 0.0)
      && (c.pick.Some? ==>
        && InPlay(l1, l2, rm1, rm2, c.pick.value.0, c.pick.value.1)
        && SimilarInner(t, l1[c.pick.value.0], l2[c.pick.value.1]) == c.score > 0.0
        && forall p, q :: InPlay(l1, l2, rm1, rm2, p, q)
             && (p < c.pick.value.0 || (p == c.pick.value.0 && q < c.pick.value.1))
             ==> SimilarInner(t, l1[p], l2[q]) < c.score)
  {
    TableBestSpec(t, l1, l2, rm1, rm2, 0, Choice(0.0, None));
  }

  /** The removed positions after a round that picked `c`. */
  function Removed(rm: set<nat>, c: Choice, first: bool): set<nat> {
    if c.pick.None? then rm else rm + {if first then c.pick.value.0 else c.pick.value.1}
  }

  /** The sum of the best scores of `rounds` more rounds of `similar_list`, starting with the
      positions `rm1` and `rm2` removed. */
  function Greedy(t: Taxonomy, l1: seq<Atom>, l2: seq<Atom>, rm1: set<nat>, rm2: set<nat>, rounds: nat): real
    requires Forest(t)
    decreases rounds
  {
    if rounds == 0 then 0.0
    else
      var c := BestPair(t, l1, l2, rm1, rm2);
      c.score + Greedy(t, l1, l2, Removed(rm1, c, true), Removed(rm2, c, false), rounds - 1)
  }

  /** Every round adds a score in [0, 1]. */
  lemma {:induction false} GreedyBounds(t: Taxonomy, l1: seq<Atom>, l2: seq<Atom>, rm1: set<nat>, rm2: set<nat>, rounds: nat)
    requires Forest(t)
    ensures 0.0 <= Greedy(t, l1, l2, rm1, rm2, rounds) <= rounds as real
    decreases rounds
  {
    if rounds > 0 {
      var c := BestPair(t, l1, l2, rm1, rm2);
      BestPairIsFirstMax(t, l1, l2, rm1, rm2);
      GreedyBounds(t, l1, l2, Removed(rm1, c, true), Removed(rm2, c, false), rounds - 1);
    }
  }

  function Min(a: nat, b: nat): nat {
    if a <= b then a else b
  }

  function Max(a: nat, b: nat): nat {
    if a <= b then b else a
  }

  /** `similar_list`: 1 for two empty lists; otherwise `min(n1, n2)` greedy rounds, each
      adding the best remaining pair score, plus `delta` for every element left unmatched,
      averaged over the longer list. */
  function ListSimilarity(t: Taxonomy, l1: seq<Atom>, l2: seq<Atom>): real
    requires Forest(t)
  {
    if |l1| < 1 && |l2| < 1 then 1.0
    else
      var diff := if |l1| <= |l2| then |l2| - |l1| else |l1| - |l2|;
      (Greedy(t, l1, l2, {}, {}, Min(|l1|, |l2|)) + Delta * diff as real) / Max(|l1|, |l2|) as real
  }

  /** The list score lies in [0, 1]; it is 1 for two empty lists and `delta` when exactly one
      list is empty. */
  lemma ListSimilarityBounds(t: Taxonomy, l1: seq<Atom>, l2: seq<Atom>)
    requires Forest(t)
    ensures 0.0 <= ListSimilarity(t, l1, l2) <= 1.0
    ensures l1 == [] && l2 == [] ==> ListSimilarity(t, l1, l2) == 1.0
    ensures (l1 == []) != (l2 == []) ==> ListSimilarity(t, l1, l2) == Delta
  {
    if |l1| >= 1 || |l2| >= 1 {
      var lo, hi := Min(|l1|, |l2|), Max(|l1|, |l2|);
      GreedyBounds(t, l1, l2, {}, {}, lo);
      var g := Greedy(t, l1, l2, {}, {}, lo);
      var diff := hi - lo;
      assert diff == if |l1| <= |l2| then |l2| - |l1| else |l1| - |l2|;
      FractionBounds(g, lo, hi);
    }
  }

  /** `(g + delta * (hi - lo)) / hi` lies in [0, 1] when `0 <= g <= lo <= hi` and `hi > 0`;
      it is `delta` when `lo` is 0. */
  lemma FractionBounds(g: real, lo: nat, hi: nat)
    requires 0.0 <= g <= lo as real && lo <= hi && hi > 0
    ensures 0.0 <= (g + Delta * (hi - lo) as real) / hi as real <= 1.0
    ensures lo == 0 ==> (g + Delta * (hi - lo) as real) / hi as real == Delta
  {
    var num := g + Delta * (hi - lo) as real;
    assert num <= hi as real;
    if lo == 0 {
      var h := hi as real;
      assert num == Delta * h;
      assert num / h == Delta by {
        assert (num / h) * h == num;
      }
    }
  }

  /** The `for atom2 in l2` loop of one round, for `l1[i]`. */
  method ScanRow(t: Taxonomy, l1: seq<Atom>, l2: seq<Atom>, rm2: set<nat>, i: nat, acc: Choice) returns (c: Choice)
    requires Forest(t) && i < |l1|
    ensures c == RowBest(t, l1[i], i, l2, rm2, 0, acc)
  {
    c := acc;
    var j := 0;
    while j < |l2|
      invariant 0 <= j <= |l2|
      invariant RowBest(t, l1[i], i, l2, rm2, j, c) == RowBest(t, l1[i], i, l2, rm2, 0, acc)
    {
      if j !in rm2 {
        var s := SimilarInner(t, l1[i], l2[j]);
        if s > c.score {
          c := Choice(s, Some((i, j)));
        }
      }
      j := j + 1;
    }
  }

  /** The `for atom1 in l1` loop of one round: the best pair in play. */
  method ScanTable(t: Taxonomy, l1: seq<Atom>, l2: seq<Atom>, rm1: set<nat>, rm2: set<nat>) returns (c: Choice)
    requires Forest(t)
    ensures c == BestPair(t, l1, l2, rm1, rm2)
  {
    c := Choice(0.0, None);
    var i := 0;
    while i < |l1|
      invariant 0 <= i <= |l1|
      invariant TableBest(t, l1, l2, rm1, rm2, i, c) == BestPair(t, l1, l2, rm1, rm2)
    {
      if i !in rm1 {
        c := ScanRow(t, l1, l2, rm2, i, c);
      }
      i := i + 1;
    }
  }

  /** `similar_list`: the rounds run on working copies, here on sets of removed positions,
      so the caller's lists are left as they were. */
  method SimilarList(t: Taxonomy, l1: seq<Atom>, l2: seq<Atom>) returns (r: real)
    requires Forest(t)
    ensures r == ListSimilarity(t, l1, l2)
  {
    var n1 := |l1|;
    var n2 := |l2|;
    if n1 < 1 && n2 < 1 {
      return 1.0;
    }
    var count := 0;
    var sum := 0.0;
    var rm1: set<nat> := {};
    var rm2: set<nat> := {};
    var rounds := Min(n1, n2);
    while count < rounds
      invariant 0 <= count <= rounds
      invariant sum + Greedy(t, l1, l2, rm1, rm2, rounds - count) == Greedy(t, l1, l2, {}, {}, rounds)
    {
      var c := ScanTable(t, l1, l2, rm1, rm2);
      sum := sum + c.score;
      if c.pick.Some? {
        rm1 := rm1 + {c.pick.value.0};
        rm2 := rm2 + {c.pick.value.1};
      }
      count := count + 1;
    }
    var diff := if n1 <= n2 then n2 - n1 else n1 - n2;
    r := (sum + Delta * diff as real) / Max(n1, n2) as real;
  }

  /** What one key of the first map adds to `similar` in `similar_map`: the list score of
      its two lists when the second map has the key too, nothing otherwise. */
  function Contribution(t: Taxonomy, m1: map<string, seq<Atom>>, m2: map<string, seq<Atom>>, k: string): real
    requires Forest(t)
  {
    if k in m1 && k in m2 then ListSimilarity(t, m1[k], m2[k]) else 0.0
  }

  /** The contribution of every key of the first map. */
  ghost function Scores(t: Taxonomy, m1: map<string, seq<Atom>>, m2: map<string, seq<Atom>>): map<string, real>
    requires Forest(t)
  {
    map k | k in m1 :: Contribution(t, m1, m2, k)
  }

  /** Every key of the first map scores in [0, 1], and nothing when the second map lacks it. */
  lemma ScoresBounds(t: Taxonomy, m1: map<string, seq<Atom>>, m2: map<string, seq<Atom>>)
    requires Forest(t)
    ensures Scores(t, m1, m2).Keys == m1.Keys
    ensures forall k :: k in m1 ==> 0.0 <= Scores(t, m1, m2)[k] <= 1.0
    ensures forall k :: k in m1 && k !in m2 ==> Scores(t, m1, m2)[k] == 0.0
  {
    forall k | k in m1 && k in m2
      ensures 0.0 <= Contribution(t, m1, m2, k) <= 1.0
    {
      ListSimilarityBounds(t, m1[k], m2[k]);
    }
  }

  /** The score of `k`, nothing when it has none. */
  function At(s: map<string, real>, k: string): real {
    if k in s then s[k] else 0.0
  }

  /** The scores of the keys `keys` added up, in no particular order. */
  ghost function Total(s: map<string, real>, keys: set<string>): real
    decreases keys
  {
    if keys == {} then 0.0
    else
      var k :| k in keys;
      At(s, k) + Total(s, keys - {k})
  }

  /** The sum does not depend on the order the keys are visited in: any key can go first. */
  lemma {:induction false} TotalRemove(s: map<string, real>, keys: set<string>, k: string)
    requires k in keys
    ensures Total(s, keys) == At(s, k) + Total(s, keys - {k})
    decreases keys
  {
    var k' :| k' in keys && Total(s, keys) == At(s, k') + Total(s, keys - {k'});
    if k' != k {
      TotalRemove(s, keys - {k'}, k);
      TotalRemove(s, keys - {k}, k');
      assert keys - {k'} - {k} == keys - {k} - {k'};
    }
  }

  /** When every key scores in [0, 1] and only the keys of `shared` score above nothing, the
      sum lies between 0 and the number of shared keys among `keys`. */
  lemma {:induction false} TotalBounds(s: map<string, real>, keys: set<string>, shared: set<string>)
    requires forall k :: k in keys ==> 0.0 <= At(s, k) <= 1.0
    requires forall k :: k in keys && k !in shared ==> At(s, k) == 0.0
    ensures 0.0 <= Total(s, keys) <= |keys * shared| as real
    ensures keys * shared == {} ==> Total(s, keys) == 0.0
    decreases keys
  {
    if keys != {} {
      var k :| k in keys;
      TotalRemove(s, keys, k);
      TotalBounds(s, keys - {k}, shared);
      if k in shared {
        assert keys * shared == (keys - {k}) * shared + {k};
      } else {
        assert keys * shared == (keys - {k}) * shared;
      }
    }
  }

  /** The number of keys the two maps share: `count` at the end of `similar_map`. */
  function SharedCount(m1: map<string, seq<Atom>>, m2: map<string, seq<Atom>>): (c: nat)
    ensures c <= |m1| && c <= |m2|
  {
    SubsetCard(m1.Keys * m2.Keys, m1.Keys);
    SubsetCard(m1.Keys * m2.Keys, m2.Keys);
    |m1.Keys * m2.Keys|
  }

  /** A subset is no larger than its superset. */
  lemma {:induction false} SubsetCard(a: set<string>, b: set<string>)
    requires a <= b
    ensures |a| <= |b|
    decreases b
  {
    if a != {} {
      var x :| x in a;
      SubsetCard(a - {x}, b - {x});
    }
  }

  /** `similar_map`: 1 for two empty maps; otherwise the list scores of the shared keys, plus
      `delta` for every key of either map that the other lacks, averaged over the keys of
      both maps counting each shared key once. */
  ghost function MapSimilarity(t: Taxonomy, m1: map<string, seq<Atom>>, m2: map<string, seq<Atom>>): real
    requires Forest(t)
  {
    if |m1| < 1 && |m2| < 1 then 1.0
    else
      var total := |m1| + |m2|;
      var count := SharedCount(m1, m2);
      MapScore(Total(Scores(t, m1, m2), m1.Keys), count, total)
  }

  /** The shared scores of two maps lie between 0 and the number of shared keys, and are
      nothing when no key is shared. */
  lemma SharedTotal(t: Taxonomy, m1: map<string, seq<Atom>>, m2: map<string, seq<Atom>>)
    requires Forest(t)
    ensures 0.0 <= Total(Scores(t, m1, m2), m1.Keys) <= SharedCount(m1, m2) as real
    ensures m1.Keys * m2.Keys == {} ==> Total(Scores(t, m1, m2), m1.Keys) == 0.0
  {
    ScoresBounds(t, m1, m2);
    TotalBounds(Scores(t, m1, m2), m1.Keys, m2.Keys);
  }

  /** For maps not both empty, the map score is the closing formula applied to the shared
      scores, the shared count and the number of keys of both maps. */
  lemma MapSimilarityIs(t: Taxonomy, m1: map<string, seq<Atom>>, m2: map<string, seq<Atom>>)
    requires Forest(t) && (|m1| > 0 || |m2| > 0)
    ensures SharedCount(m1, m2) < |m1| + |m2|
    ensures MapSimilarity(t, m1, m2) == MapScore(Total(Scores(t, m1, m2), m1.Keys), SharedCount(m1, m2), |m1| + |m2|)
  {
    SharedBelow(m1, m2);
  }

  /** Unless both maps are empty, the shared keys are fewer than the keys of both maps. */
  lemma SharedBelow(m1: map<string, seq<Atom>>, m2: map<string, seq<Atom>>)
    requires |m1| > 0 || |m2| > 0
    ensures SharedCount(m1, m2) < |m1| + |m2|
  {
  }

  /** The map score lies in [0, 1]; it is 1 for two empty maps. */
  lemma MapSimilarityBounds(t: Taxonomy, m1: map<string, seq<Atom>>, m2: map<string, seq<Atom>>)
    requires Forest(t)
    ensures 0.0 <= MapSimilarity(t, m1, m2) <= 1.0
    ensures |m1| == 0 && |m2| == 0 ==> MapSimilarity(t, m1, m2) == 1.0
  {
    if |m1| >= 1 || |m2| >= 1 {
      SharedTotal(t, m1, m2);
      BoundedShares(t, m1, m2);
    }
  }

  /** Shared scores between 0 and the shared count give a map score in [0, 1]. */
  lemma BoundedShares(t: Taxonomy, m1: map<string, seq<Atom>>, m2: map<string, seq<Atom>>)
    requires Forest(t) && (|m1| > 0 || |m2| > 0)
    requires 0.0 <= Total(Scores(t, m1, m2), m1.Keys) <= SharedCount(m1, m2) as real
    ensures 0.0 <= MapSimilarity(t, m1, m2) <= 1.0
  {
    MapSimilarityIs(t, m1, m2);
    MapFraction(MapSimilarity(t, m1, m2), Total(Scores(t, m1, m2), m1.Keys), SharedCount(m1, m2), |m1| + |m2|);
  }

  /** Two maps that share no key, not both empty, score `delta`. */
  lemma MapSimilarityDisjoint(t: Taxonomy, m1: map<string, seq<Atom>>, m2: map<string, seq<Atom>>)
    requires Forest(t) && (|m1| > 0 || |m2| > 0) && m1.Keys * m2.Keys == {}
    ensures MapSimilarity(t, m1, m2) == Delta
  {
    SharedTotal(t, m1, m2);
    NoShares(t, m1, m2);
  }

  /** With no shared key and no shared score the map score is `delta`. */
  lemma NoShares(t: Taxonomy, m1: map<string, seq<Atom>>, m2: map<string, seq<Atom>>)
    requires Forest(t) && (|m1| > 0 || |m2| > 0) && m1.Keys * m2.Keys == {}
    requires Total(Scores(t, m1, m2), m1.Keys) == 0.0
    ensures MapSimilarity(t, m1, m2) == Delta
  {
    MapSimilarityIs(t, m1, m2);
    MapFraction(MapSimilarity(t, m1, m2), Total(Scores(t, m1, m2), m1.Keys), 0, |m1| + |m2|);
  }

  /** The closing formula of `similar_map`: the shared scores `sum` plus `delta` for each of
      the `total - 2 * count` unmatched keys, over the `total - count` distinct keys. */
  function MapScore(sum: real, count: nat, total: nat): real
    requires count < total
  {
    (sum + Delta * (total - 2 * count) as real) / (total - count) as real
  }

  /** The closing formula lies in [0, 1] when `0 <= sum <= count` and `2 * count <= total`
      with `total > 0`; it is `delta` when no key is shared. */
  lemma MapFraction(x: real, sum: real, c: nat, total: nat)
    requires 0.0 <= sum <= c as real && 2 * c <= total && total > 0
    requires x == MapScore(sum, c, total)
    ensures 0.0 <= x <= 1.0
    ensures c == 0 ==> x == Delta
  {
    var unmatched := (total - 2 * c) as real;
    var den := (total - c) as real;
    assert 0.0 <= Delta * unmatched <= unmatched by {
      Shrinks(unmatched, Delta);
    }
    UnitFraction(sum + Delta * unmatched, den);
    if c == 0 {
      Scaled(Delta, den);
    }
  }

  /** A quotient of a non-negative number by a positive one no smaller lies in [0, 1]. */
  lemma UnitFraction(num: real, den: real)
    requires 0.0 <= num <= den && den > 0.0
    ensures 0.0 <= num / den <= 1.0
  {
  }

  /** Dividing `k * den` by `den` gives `k` back. */
  lemma Scaled(k: real, den: real)
    requires den > 0.0
    ensures k * den / den == k
  {
  }

  /** Visiting one more key of the first map raises the shared count by one exactly when
      the second map has that key. */
  lemma CountStep(keys2: set<string>, done: set<string>, k: string)
    requires k !in done
    ensures |(done + {k}) * keys2| == |done * keys2| + (if k in keys2 then 1 else 0)
  {
    if k in keys2 {
      assert (done + {k}) * keys2 == done * keys2 + {k};
    } else {
      assert (done + {k}) * keys2 == done * keys2;
    }
  }

  /** The scores of the keys `order`, added up in that order. */
  function OrderedSum(s: map<string, real>, order: seq<string>): real {
    if order == [] then 0.0
    else OrderedSum(s, order[..|order| - 1]) + At(s, order[|order| - 1])
  }

  /** How many of the keys `order` the set `shared` holds. */
  function OrderedCount(shared: set<string>, order: seq<string>): nat {
    if order == [] then 0
    else OrderedCount(shared, order[..|order| - 1]) + (if order[|order| - 1] in shared then 1 else 0)
  }

  /** Keys visited in any order, each once, add up to the unordered sum of their scores and
      count the shared keys among them. */
  lemma {:induction false} OrderIrrelevant(s: map<string, real>, shared: set<string>, order: seq<string>)
    requires forall i, j :: 0 <= i < j < |order| ==> order[i] != order[j]
    ensures OrderedSum(s, order) == Total(s, KeySet(order))
    ensures OrderedCount(shared, order) == |KeySet(order) * shared|
    decreases |order|
  {
    if order != [] {
      var n := |order| - 1;
      var keys := KeySet(order);
      var earlier := KeySet(order[..n]);
      EarlierKeys(order);
      OrderIrrelevant(s, shared, order[..n]);
      TotalRemove(s, keys, order[n]);
      CountStep(shared, earlier, order[n]);
      assert earlier + {order[n]} == keys;
    }
  }

  /** The keys a list holds. */
  function KeySet(order: seq<string>): set<string> {
    set k | k in order
  }

  /** Without its last key, a list of distinct keys holds the other keys. */
  lemma EarlierKeys(order: seq<string>)
    requires order != []
    requires forall i, j :: 0 <= i < j < |order| ==> order[i] != order[j]
    ensures (KeySet(order[..|order| - 1])) == KeySet(order) - {order[|order| - 1]}
  {
    var n := |order| - 1;
    forall k | k in order && k != order[n]
      ensures k in order[..n]
    {
      var i :| 0 <= i < |order| && order[i] == k;
      assert order[..n][i] == k;
    }
  }

  /** The loop of `similar_map` over the items of the first map, in whatever order the map
      yields its keys: `similar` gathers the list scores of the shared keys and `count`
      counts them. */
  method SumShared(t: Taxonomy, m1: map<string, seq<Atom>>, m2: map<string, seq<Atom>>) returns (similar: real, count: nat)
    requires Forest(t)
    ensures similar == Total(Scores(t, m1, m2), m1.Keys)
    ensures count == SharedCount(m1, m2)
  {
    ghost var scores := Scores(t, m1, m2);
    similar := 0.0;
    count := 0;
    var todo := m1.Keys;
    ghost var order: seq<string> := [];
    while todo != {}
      invariant todo <= m1.Keys
      invariant forall k :: k in order <==> k in m1.Keys && k !in todo
      invariant forall i, j :: 0 <= i < j < |order| ==> order[i] != order[j]
      invariant similar == OrderedSum(scores, order)
      invariant count == OrderedCount(m2.Keys, order)
      decreases |todo|
    {
      var key1 :| key1 in todo;
      ScoreOf(t, m1, m2, key1);
      if key1 in m2 {
        var s := SimilarList(t, m1[key1], m2[key1]);
        similar := similar + s;
        count := count + 1;
      }
      assert (order + [key1])[..|order|] == order;
      order := order + [key1];
      todo := todo - {key1};
    }
    AllVisited(scores, m1.Keys, m2.Keys, order);
  }

  /** The score of a key of the first map is its contribution. */
  lemma ScoreOf(t: Taxonomy, m1: map<string, seq<Atom>>, m2: map<string, seq<Atom>>, k: string)
    requires Forest(t) && k in m1
    ensures At(Scores(t, m1, m2), k) == (if k in m2 then ListSimilarity(t, m1[k], m2[k]) else 0.0)
  {
  }

  /** Once every key of `keys1` has been visited, each once, the ordered sum and count are
      the unordered ones. */
  lemma AllVisited(s: map<string, real>, keys1: set<string>, keys2: set<string>, order: seq<string>)
    requires forall k :: k in order <==> k in keys1
    requires forall i, j :: 0 <= i < j < |order| ==> order[i] != order[j]
    ensures OrderedSum(s, order) == Total(s, keys1)
    ensures OrderedCount(keys2, order) == |keys1 * keys2|
  {
    OrderIrrelevant(s, keys2, order);
    assert KeySet(order) == keys1;
  }

  /** `similar_map`: 1 for two empty maps, otherwise the shared scores and `delta` for
      every unmatched key, averaged over the keys of both maps. */
  method SimilarMap(t: Taxonomy, m1: map<string, seq<Atom>>, m2: map<string, seq<Atom>>) returns (r: real)
    requires Forest(t)
    ensures r == MapSimilarity(t, m1, m2)
  {
    if |m1| < 1 && |m2| < 1 {
      return 1.0;
    }
    var similar, count := SumShared(t, m1, m2);
    MapSimilarityIs(t, m1, m2);
    r := MapScore(similar, count, |m1| + |m2|);
  }

  /** The weighted cascade of `_similar_word`: `p` for the first primitives, then the running
      product times the score of the other, the relational and the symbol primitives. */
  function Weighted(p: real, o: real, r: real, s: real): real {
    Beta1 * p + Beta2 * (p * o) + Beta3 * (p * o * r) + Beta4 * (p * o * r * s)
  }

  /** The running products of the cascade, named one at a time, give the weighted score. */
  lemma Cascade(p: real, o: real, r: real, s: real, po: real, por: real, pors: real)
    requires po == p * o && por == po * r && pors == por * s
    ensures Weighted(p, o, r, s) == Beta1 * p + Beta2 * po + Beta3 * por + Beta4 * pors
  {
  }

  /** With all four scores in [0, 1] the weighted score lies between `beta1 * p` and `p`;
      the weights add up to 1, so four full scores give 1. */
  lemma WeightedBounds(p: real, o: real, r: real, s: real)
    requires 0.0 <= p <= 1.0 && 0.0 <= o <= 1.0 && 0.0 <= r <= 1.0 && 0.0 <= s <= 1.0
    ensures Beta1 * p <= Weighted(p, o, r, s) <= p
    ensures p == 1.0 && o == 1.0 && r == 1.0 && s == 1.0 ==> Weighted(p, o, r, s) == 1.0
  {
    ProductsShrink(p, o, r, s);
    WeightsAddUp(p, p * o, p * o * r, p * o * r * s);
  }

  /** Each factor in [0, 1] shrinks the running product of the cascade. */
  lemma ProductsShrink(p: real, o: real, r: real, s: real)
    requires 0.0 <= p <= 1.0 && 0.0 <= o <= 1.0 && 0.0 <= r <= 1.0 && 0.0 <= s <= 1.0
    ensures 0.0 <= p * o * r * s <= p * o * r <= p * o <= p
  {
    Shrinks(p, o);
    Shrinks(p * o, r);
    Shrinks(p * o * r, s);
  }

  /** The four weights add up to 1: a non-increasing run of terms weighted by them stays
      between `beta1` times the first term and the first term. */
  lemma WeightsAddUp(p: real, a: real, b: real, c: real)
    requires 0.0 <= c <= b <= a <= p
    ensures Beta1 + Beta2 + Beta3 + Beta4 == 1.0
    ensures Beta1 * p <= Beta1 * p + Beta2 * a + Beta3 * b + Beta4 * c <= p
  {
  }

  /** Multiplying by a factor in [0, 1] keeps a value in [0, x]. */
  lemma Shrinks(x: real, f: real)
    requires 0.0 <= x && 0.0 <= f <= 1.0
    ensures 0.0 <= x * f <= x
  {
  }

  /** `_similar_word`: senses of different kinds (function word against content word) score
      0; otherwise the weighted cascade of the taxonomy score of the two first primitives'
      tags (whether or not they are concrete) and the scores of the three collections. */
  ghost function SenseSimilarity(t: Taxonomy, w1: Sense, w2: Sense): real
    requires Forest(t)
  {
    if w1.isStructural != w2.isStructural then 0.0
    else Weighted(
      Similar(t, w1.firstPrimitive.eng, w2.firstPrimitive.eng),
      ListSimilarity(t, w1.otherPrimitives, w2.otherPrimitives),
      MapSimilarity(t, w1.relationalPrimitives, w2.relationalPrimitives),
      MapSimilarity(t, w1.symbolPrimitives, w2.symbolPrimitives))
  }

  /** A sense score lies in [0, 1]; for senses of the same kind it is at least `beta1` times
      the score of their first primitives and at most that score. */
  lemma SenseSimilarityBounds(t: Taxonomy, w1: Sense, w2: Sense)
    requires Forest(t)
    ensures 0.0 <= SenseSimilarity(t, w1, w2) <= 1.0
    ensures w1.isStructural == w2.isStructural ==>
      var p := Similar(t, w1.firstPrimitive.eng, w2.firstPrimitive.eng);
      Beta1 * p <= SenseSimilarity(t, w1, w2) <= p
  {
    ListSimilarityBounds(t, w1.otherPrimitives, w2.otherPrimitives);
    MapSimilarityBounds(t, w1.relationalPrimitives, w2.relationalPrimitives);
    MapSimilarityBounds(t, w1.symbolPrimitives, w2.symbolPrimitives);
    WeightedBounds(
      Similar(t, w1.firstPrimitive.eng, w2.firstPrimitive.eng),
      ListSimilarity(t, w1.otherPrimitives, w2.otherPrimitives),
      MapSimilarity(t, w1.relationalPrimitives, w2.relationalPrimitives),
      MapSimilarity(t, w1.symbolPrimitives, w2.symbolPrimitives));
  }

  /** `_similar_word`, step by step: the running product and the running sum. */
  method SimilarSense(t: Taxonomy, w1: Sense, w2: Sense) returns (r: real)
    requires Forest(t)
    ensures r == SenseSimilarity(t, w1, w2)
  {
    if w1.isStructural != w2.isStructural {
      return 0.0;
    }
    var product := Similar(t, w1.firstPrimitive.eng, w2.firstPrimitive.eng);
    var similarOp := SimilarList(t, w1.otherPrimitives, w2.otherPrimitives);
    var similarRp := SimilarMap(t, w1.relationalPrimitives, w2.relationalPrimitives);
    var similarSp := SimilarMap(t, w1.symbolPrimitives, w2.symbolPrimitives);
    ghost var p := product;
    var similarSum := Beta1 * product;
    product := product * similarOp;
    ghost var po := product;
    similarSum := similarSum + Beta2 * product;
    product := product * similarRp;
    ghost var por := product;
    similarSum := similarSum + Beta3 * product;
    product := product * similarSp;
    similarSum := similarSum + Beta4 * product;
    assert similarSum == Beta1 * p + Beta2 * po + Beta3 * por + Beta4 * product;
    Cascade(p, similarOp, similarRp, similarSp, po, por, product);
    r := similarSum;
  }

  /** The inner loop of `similar_word`: the running maximum `similar_max` over one sense
      of the first word against every sense of the second. The maximum only grows, bounds
      every score of the row, and is either where it started or the score at `at`. */
  method SimilarRow(t: Taxonomy, w1: Sense, list2: seq<Sense>, start: real) returns (similarMax: real, ghost at: nat)
    requires Forest(t)
    ensures start <= similarMax
    ensures forall q :: 0 <= q < |list2| ==> SenseSimilarity(t, w1, list2[q]) <= similarMax
    ensures similarMax == start || (at < |list2| && SenseSimilarity(t, w1, list2[at]) == similarMax)
  {
    similarMax := start;
    at := 0;
    var j := 0;
    while j < |list2|
      invariant 0 <= j <= |list2| && start <= similarMax
      invariant forall q :: 0 <= q < j ==> SenseSimilarity(t, w1, list2[q]) <= similarMax
      invariant similarMax == start || (at < |list2| && SenseSimilarity(t, w1, list2[at]) == similarMax)
    {
      var similar := SimilarSense(t, w1, list2[j]);
      if similar > similarMax {
        at := j;
      }
      similarMax := if similarMax >= similar then similarMax else similar;
      j := j + 1;
    }
  }

  /** `similar_word`: `None` unless both words have senses; otherwise the highest score
      over all pairs of their senses. */
  method SimilarWord(t: Taxonomy, lexicon: map<string, seq<Sense>>, word1: string, word2: string) returns (r: Option<real>)
    requires Forest(t)
    ensures r.None? <==> word1 !in lexicon || lexicon[word1] == [] || word2 !in lexicon || lexicon[word2] == []
    ensures r.Some? ==> forall a, b :: a in lexicon[word1] && b in lexicon[word2] ==> SenseSimilarity(t, a, b) <= r.value
    ensures r.Some? ==> exists a, b :: a in lexicon[word1] && b in lexicon[word2] && SenseSimilarity(t, a, b) == r.value
  {
    if word1 !in lexicon || word2 !in lexicon {
      return None;
    }
    var list1 := lexicon[word1];
    var list2 := lexicon[word2];
    if list1 == [] || list2 == [] {
      return None;
    }
    var similarMax := 0.0;
    ghost var bi: nat, bj: nat := 0, 0;
    var i := 0;
    while i < |list1|
      invariant 0 <= i <= |list1| && bi < |list1| && bj < |list2| && 0.0 <= similarMax
      invariant similarMax == 0.0 || SenseSimilarity(t, list1[bi], list2[bj]) == similarMax
      invariant forall p, q :: 0 <= p < i && 0 <= q < |list2| ==> SenseSimilarity(t, list1[p], list2[q]) <= similarMax
    {
      var rowMax;
      ghost var at;
      rowMax, at := SimilarRow(t, list1[i], list2, similarMax);
      if rowMax != similarMax {
        bi, bj := i, at;
      }
      similarMax := rowMax;
      i := i + 1;
    }
    SenseSimilarityBounds(t, list1[0], list2[0]);
    r := Some(similarMax);
  }
}
