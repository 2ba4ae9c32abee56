/** The sememe taxonomy: every sememe has a numeric id and a parent id, a top sememe is its
    own parent, and the distance between two sememes is measured along their parent chains. */
module Taxonomy {
  import opened Wrappers

  /** One taxonomy node (`Primitive`): its id, its parent's id and its two tags. */
  datatype Sememe = Sememe(id: int, parentId: int, eng: string, chi: string)

  /** `Primitive.is_top`: the node is its own parent. */
  predicate IsTop(s: Sememe) {
    s.id == s.parentId
  }

  /** The loaded taxonomy: `all_primitives` (id to node) and `primitives_id` (English tag to id). */
  datatype Taxonomy = Taxonomy(nodes: map<int, Sememe>, ids: map<string, int>)

  /** Following parent links from `id`, every node visited exists and a top node is reached
      within `fuel` steps. */
  predicate ReachesTop(t: Taxonomy, id: int, fuel: nat)
    decreases fuel
  {
    id in t.nodes && (IsTop(t.nodes[id]) || (fuel > 0 && ReachesTop(t, t.nodes[id].parentId, fuel - 1)))
  }

  /** What `get_parents` needs of the data: from the id of every known tag the parent links
      stay inside the taxonomy and reach a top node without going round a cycle (hence in
      fewer steps than there are nodes). */
  predicate Forest(t: Taxonomy) {
    forall e :: e in t.ids ==> ReachesTop(t, t.ids[e], |t.nodes|)
  }

  /** The ids from `id` up to the first top node, following parent links. */
  function Chain(t: Taxonomy, id: int, fuel: nat): (r: seq<int>)
    requires ReachesTop(t, id, fuel)
    ensures |r| >= 1 && r[0] == id && |r| <= fuel + 1
    decreases fuel
  {
    if IsTop(t.nodes[id]) then [id] else [id] + Chain(t, t.nodes[id].parentId, fuel - 1)
  }

  /** A chain is a walk up the taxonomy: every id in it is a node, each next id is the
      parent of the one before, and only its last node is a top node. */
  lemma {:induction false} ChainLinks(t: Taxonomy, id: int, fuel: nat)
    requires ReachesTop(t, id, fuel)
    ensures var r := Chain(t, id, fuel);
      && (forall k :: 0 <= k < |r| ==> r[k] in t.nodes)
      && IsTop(t.nodes[r[|r| - 1]])
      && forall k :: 0 <= k < |r| - 1 ==> !IsTop(t.nodes[r[k]]) && r[k + 1] == t.nodes[r[k]].parentId
    decreases fuel
  {
    if !IsTop(t.nodes[id]) {
      var p := t.nodes[id].parentId;
      ChainLinks(t, p, fuel - 1);
      var r := Chain(t, id, fuel);
      assert r == [id] + Chain(t, p, fuel - 1);
      assert forall k :: 1 <= k < |r| ==> r[k] == Chain(t, p, fuel - 1)[k - 1];
    }
  }

  /** The chain does not depend on how much fuel was allowed, only on the parent links. */
  lemma {:induction false} ChainFuel(t: Taxonomy, id: int, f1: nat, f2: nat)
    requires ReachesTop(t, id, f1) && ReachesTop(t, id, f2)
    ensures Chain(t, id, f1) == Chain(t, id, f2)
    decreases f1
  {
    if !IsTop(t.nodes[id]) {
      ChainFuel(t, t.nodes[id].parentId, f1 - 1, f2 - 1);
    }
  }

  /** Below a node that is not a top node, the chain goes on with its parent's chain. */
  lemma ChainStep(t: Taxonomy, id: int, fuel: nat)
    requires ReachesTop(t, id, fuel) && !IsTop(t.nodes[id])
    ensures fuel > 0 && ReachesTop(t, t.nodes[id].parentId, fuel - 1)
    ensures Chain(t, id, fuel) == [id] + Chain(t, t.nodes[id].parentId, fuel - 1)
    ensures Chain(t, id, fuel)[1..] == Chain(t, t.nodes[id].parentId, fuel - 1)
  {
  }

  /** Every suffix of a chain is the chain of its first id. */
  lemma {:induction false} ChainAt(t: Taxonomy, id: int, fuel: nat, k: nat)
    requires ReachesTop(t, id, fuel) && k < |Chain(t, id, fuel)|
    ensures k <= fuel
    ensures ReachesTop(t, Chain(t, id, fuel)[k], fuel - k)
    ensures Chain(t, id, fuel)[k..] == Chain(t, Chain(t, id, fuel)[k], fuel - k)
    decreases k
  {
    if k > 0 {
      var r := Chain(t, id, fuel);
      var p := t.nodes[id].parentId;
      assert r == [id] + Chain(t, p, fuel - 1);
      ChainAt(t, p, fuel - 1, k - 1);
      assert r[k..] == Chain(t, p, fuel - 1)[k - 1..];
    }
  }

  /** A chain never visits the same id twice. */
  lemma ChainDistinct(t: Taxonomy, id: int, fuel: nat)
    requires ReachesTop(t, id, fuel)
    ensures var r := Chain(t, id, fuel); forall a, b :: 0 <= a < b < |r| ==> r[a] != r[b]
  {
    var r := Chain(t, id, fuel);
    forall a, b | 0 <= a < b < |r| ensures r[a] != r[b] {
      ChainAt(t, id, fuel, a);
      ChainAt(t, id, fuel, b);
      if r[a] == r[b] {
        ChainFuel(t, r[a], fuel - a, fuel - b);
        assert false;
      }
    }
  }

  /** Two chains that meet go on together: after a shared id they are equal. */
  lemma ChainsMerge(t: Taxonomy, x: int, f1: nat, y: int, f2: nat, i: nat, j: nat)
    requires ReachesTop(t, x, f1) && ReachesTop(t, y, f2)
    requires i < |Chain(t, x, f1)| && j < |Chain(t, y, f2)| && Chain(t, x, f1)[i] == Chain(t, y, f2)[j]
    ensures Chain(t, x, f1)[i..] == Chain(t, y, f2)[j..]
  {
    ChainAt(t, x, f1, i);
    ChainAt(t, y, f2, j);
    ChainFuel(t, Chain(t, x, f1)[i], f1 - i, f2 - j);
  }

  /** `get_parents(eng)`, as a value: no ids for an unknown tag, otherwise the chain of the
      tag's id. */
  function Parents(t: Taxonomy, eng: string): (r: seq<int>)
    requires Forest(t)
    ensures eng !in t.ids <==> r == []
    ensures r != [] ==> r[0] == t.ids[eng]
  {
    if eng in t.ids then Chain(t, t.ids[eng], |t.nodes|) else []
  }

  /** The chain of a tag: empty exactly for an unknown tag; otherwise it starts at the tag's
      id, every id in it is a node, each next id is the parent of the one before, and it
      stops at the first top node. */
  lemma ParentsWalk(t: Taxonomy, eng: string)
    requires Forest(t)
    ensures var r := Parents(t, eng);
      && (eng !in t.ids <==> r == [])
      && (forall k :: 0 <= k < |r| ==> r[k] in t.nodes)
      && (eng in t.ids ==> r[0] == t.ids[eng] && IsTop(t.nodes[r[|r| - 1]]))
      && forall k :: 0 <= k < |r| - 1 ==> !IsTop(t.nodes[r[k]]) && r[k + 1] == t.nodes[r[k]].parentId
  {
    if eng in t.ids {
      ChainLinks(t, t.ids[eng], |t.nodes|);
    }
  }

  /** `Primitive.get_parents`: looks the tag up, then appends parent ids while the current
      node is not a top node. */
  method GetParents(t: Taxonomy, eng: string) returns (result: seq<int>)
    requires Forest(t)
    ensures result == Parents(t, eng)
  {
    result := [];
    if eng in t.ids {
      var id := t.ids[eng];
      result := result + [id];
      var node := t.nodes[id];
      ghost var fuel: nat := |t.nodes|;
      ghost var cur := id;
      while !IsTop(node)
        invariant ReachesTop(t, cur, fuel) && node == t.nodes[cur]
        invariant result + Chain(t, cur, fuel)[1..] == Chain(t, id, |t.nodes|)
        decreases fuel
      {
        var parentId := node.parentId;
        ChainStep(t, cur, fuel);
        result := result + [parentId];
        node := t.nodes[parentId];
        cur, fuel := parentId, fuel - 1;
      }
    }
  }

  /** `alpha` in `sim(p1, p2) = alpha / (d + alpha)`. */
  const Alpha: real := 1.6

  /** The distance `similar` assumes between sememes with no shared ancestor. */
  const Unrelated: nat := 20

  /** The first index at or after `i` of `l1` whose id also occurs in `l2`. */
  function SharedFrom(l1: seq<int>, l2: seq<int>, i: nat): (r: Option<nat>)
    requires i <= |l1|
    ensures r.Some? ==> i <= r.value < |l1| && l1[r.value] in l2
    ensures r.Some? ==> forall k :: i <= k < r.value ==> l1[k] !in l2
    ensures r.None? ==> forall k :: i <= k < |l1| ==> l1[k] !in l2
    decreases |l1| - i
  {
    if i == |l1| then None else if l1[i] in l2 then Some(i) else SharedFrom(l1, l2, i + 1)
  }

  /** `l.index(x)`: the first position of `x` in `l`. */
  function IndexOf(l: seq<int>, x: int): (j: nat)
    requires x in l
    ensures j < |l| && l[j] == x && x !in l[..j]
  {
    if l[0] == x then 0 else
      assert x in l[1..];
      var j := 1 + IndexOf(l[1..], x);
      assert l[..j] == [l[0]] + l[1..][..j - 1];
      j
  }

  /** The steps between two chains: `i + j` for the first id `l1[i]` of the first chain that
      the second chain holds, at its first position `j`; `None` when they share no id. */
  function Steps(l1: seq<int>, l2: seq<int>): (d: Option<nat>)
    ensures d.None? <==> forall k :: 0 <= k < |l1| ==> l1[k] !in l2
  {
    var m := SharedFrom(l1, l2, 0);
    if m.None? then None else Some(m.value + IndexOf(l2, l1[m.value]))
  }

  /** `alpha / (d + alpha)` for `d` steps, with `d = 20` when there is no common id. */
  function Score(d: Option<nat>): (s: real)
    ensures 0.0 < s <= 1.0
    ensures s == 1.0 <==> d == Some(0)
  {
    Alpha / ((if d.Some? then d.value else Unrelated) as real + Alpha)
  }

  /** `Primitive.similar`: the score of the steps between the chains of the two tags; a tag
      unknown to the taxonomy has an empty chain and so shares no id. */
  function Similar(t: Taxonomy, eng1: string, eng2: string): (s: real)
    requires Forest(t)
    ensures 0.0 < s <= 1.0
  {
    Score(Steps(Parents(t, eng1), Parents(t, eng2)))
  }

  /** A tag unknown to the taxonomy is at the default distance from everything, itself included. */
  lemma SimilarUnknown(t: Taxonomy, eng1: string, eng2: string)
    requires Forest(t) && (eng1 !in t.ids || eng2 !in t.ids)
    ensures Similar(t, eng1, eng2) == Alpha / (20.0 + Alpha)
  {
    StepsEmpty(Parents(t, eng1), Parents(t, eng2));
  }

  /** An empty chain shares no id with any chain. */
  lemma StepsEmpty(l1: seq<int>, l2: seq<int>)
    requires l1 == [] || l2 == []
    ensures Steps(l1, l2) == None
  {
    if l1 != [] {
      assert l1[0] !in l2;
      assert SharedFrom(l1, l2, 0).None?;
    }
  }

  /** Two known tags are fully similar exactly when they name the same sememe id. */
  lemma SimilarOne(t: Taxonomy, eng1: string, eng2: string)
    requires Forest(t) && eng1 in t.ids && eng2 in t.ids
    ensures Similar(t, eng1, eng2) == 1.0 <==> t.ids[eng1] == t.ids[eng2]
  {
    var l1, l2 := Parents(t, eng1), Parents(t, eng2);
    if t.ids[eng1] == t.ids[eng2] {
      assert SharedFrom(l1, l2, 0) == Some(0);
      assert IndexOf(l2, l1[0]) == 0;
    } else if SharedFrom(l1, l2, 0) == Some(0) {
      assert IndexOf(l2, l1[0]) != 0;
    }
  }

  /** A known tag is fully similar to itself. */
  lemma SimilarSelf(t: Taxonomy, eng: string)
    requires Forest(t) && eng in t.ids
    ensures Similar(t, eng, eng) == 1.0
  {
    SimilarOne(t, eng, eng);
  }

  /** The first shared id of the first chain is the nearest common ancestor: no pair of
      equal ids of the two chains lies fewer steps away. */
  lemma StepsNearest(t: Taxonomy, x: int, f1: nat, y: int, f2: nat, a: nat, b: nat)
    requires ReachesTop(t, x, f1) && ReachesTop(t, y, f2)
    requires var l1, l2 := Chain(t, x, f1), Chain(t, y, f2);
      a < |l1| && b < |l2| && l1[a] == l2[b]
    ensures var l1, l2 := Chain(t, x, f1), Chain(t, y, f2);
      Steps(l1, l2).Some? && Steps(l1, l2).value <= a + b
  {
    var l1, l2 := Chain(t, x, f1), Chain(t, y, f2);
    var i := SharedFrom(l1, l2, 0).value;
    var j := IndexOf(l2, l1[i]);
    assert i <= a;
    ChainsMerge(t, x, f1, y, f2, i, j);
    assert l1[a] == l1[i..][a - i] == l2[j..][a - i] == l2[j + a - i];
    ChainDistinct(t, y, f2);
    assert b == j + a - i;
  }

  /** Scanning the other chain first finds a common id too, at no more steps. */
  lemma StepsBound(t: Taxonomy, x: int, f1: nat, y: int, f2: nat)
    requires ReachesTop(t, x, f1) && ReachesTop(t, y, f2)
    requires Steps(Chain(t, x, f1), Chain(t, y, f2)).Some?
    ensures var back := Steps(Chain(t, y, f2), Chain(t, x, f1));
      back.Some? && back.value <= Steps(Chain(t, x, f1), Chain(t, y, f2)).value
  {
    var l1, l2 := Chain(t, x, f1), Chain(t, y, f2);
    var i := SharedFrom(l1, l2, 0).value;
    StepsNearest(t, y, f2, x, f1, IndexOf(l2, l1[i]), i);
  }

  /** The steps between two chains do not depend on which one is scanned first. */
  lemma StepsSymmetric(t: Taxonomy, x: int, f1: nat, y: int, f2: nat)
    requires ReachesTop(t, x, f1) && ReachesTop(t, y, f2)
    ensures Steps(Chain(t, x, f1), Chain(t, y, f2)) == Steps(Chain(t, y, f2), Chain(t, x, f1))
  {
    if Steps(Chain(t, x, f1), Chain(t, y, f2)).Some? {
      StepsBound(t, x, f1, y, f2);
      StepsBound(t, y, f2, x, f1);
    }
    if Steps(Chain(t, y, f2), Chain(t, x, f1)).Some? {
      StepsBound(t, y, f2, x, f1);
      StepsBound(t, x, f1, y, f2);
    }
  }

  /** `similar` is symmetric on a taxonomy where every known tag reaches a top node. */
  lemma SimilarSymmetric(t: Taxonomy, eng1: string, eng2: string)
    requires Forest(t)
    ensures Similar(t, eng1, eng2) == Similar(t, eng2, eng1)
  {
    var l1, l2 := Parents(t, eng1), Parents(t, eng2);
    if eng1 in t.ids && eng2 in t.ids {
      StepsSymmetric(t, t.ids[eng1], |t.nodes|, t.ids[eng2], |t.nodes|);
    } else {
      StepsEmpty(l1, l2);
      StepsEmpty(l2, l1);
    }
  }
}
