/** Reference theory of dependency relations: batches, chains, cycles and the canonical order. */
module DagTheory {
  import opened Names

  /** Every node together with the set of nodes it depends on. */
  type Rel = map<Name, set<Name>>

  ghost predicate Closed(r: Rel) {
    forall n :: n in r ==> r[n] <= r.Keys
  }

  /** Nodes whose dependency chains all have at most k nodes. */
  ghost function Done(r: Rel, k: nat): set<Name> {
    if k == 0 then {} else set n | n in r && r[n] <= Done(r, k - 1)
  }

  ghost function Batch(r: Rel, k: nat): set<Name> {
    Done(r, k + 1) - Done(r, k)
  }

  /** A walk along dependencies: each node is a dependency of the one before it. */
  ghost predicate Chain(r: Rel, p: seq<Name>) {
    && p != []
    && (forall i :: 0 <= i < |p| ==> p[i] in r)
    && (forall i :: 0 < i < |p| ==> p[i] in r[p[i - 1]])
  }

  ghost predicate Cycle(r: Rel, p: seq<Name>) {
    |p| >= 2 && Chain(r, p) && p[0] == p[|p| - 1]
  }

  ghost predicate Acyclic(r: Rel) {
    forall p :: !Cycle(r, p)
  }

  /** Some cycle lies among n and its ancestors: chain p leads from n onto cycle c. */
  ghost predicate LeadsToCycle(r: Rel, n: Name, p: seq<Name>, c: seq<Name>) {
    Chain(r, p) && Cycle(r, c) && p[0] == n && p[|p| - 1] == c[0]
  }

  ghost predicate HasCyclicAncestry(r: Rel, n: Name) {
    exists p, c :: LeadsToCycle(r, n, p, c)
  }

  // ---- batches -------------------------------------------------------------

  lemma {:induction false} DoneGrows(r: Rel, j: nat, k: nat)
    requires j <= k
    ensures Done(r, j) <= Done(r, k) <= r.Keys
    decreases k
  {
    if j < k {
      DoneGrows(r, j, k - 1);
      if k >= 2 { DoneGrows(r, k - 2, k - 1); }
    }
  }

  lemma {:induction false} DoneStable(r: Rel, j: nat, k: nat)
    requires j <= k && Batch(r, j) == {}
    ensures Done(r, k) == Done(r, j)
    decreases k
  {
    DoneGrows(r, j, j + 1);
    assert Done(r, j + 1) == Done(r, j) + Batch(r, j);
    if j + 1 < k {
      DoneStable(r, j, k - 1);
      assert Done(r, k) == Done(r, j + 1);
    }
  }

  lemma DonePartition(r: Rel, k: nat)
    ensures Done(r, k + 1) == Done(r, k) + Batch(r, k)
    ensures |Done(r, k + 1)| == |Done(r, k)| + |Batch(r, k)|
  {
    DoneGrows(r, k, k + 1);
    assert Done(r, k + 1) == Done(r, k) + Batch(r, k);
  }

  lemma BatchesEndTogether(r: Rel, k: nat)
    ensures Batch(r, k) == {} ==> Batch(r, k + 1) == {}
  {
    if Batch(r, k) == {} {
      DoneStable(r, k, k + 1);
      DoneStable(r, k, k + 2);
    }
  }

  /** As long as batches are not empty they use up nodes. */
  lemma {:induction false} DoneSize(r: Rel, k: nat)
    requires Batch(r, k) != {}
    ensures |Done(r, k + 1)| >= k + 1
  {
    DonePartition(r, k);
    if k > 0 {
      BatchesEndTogether(r, k - 1);
      DoneSize(r, k - 1);
    }
  }

  /** After as many batches as there are nodes, nothing more can be released. */
  lemma DoneConverges(r: Rel, k: nat)
    requires k >= |r|
    ensures Done(r, k) == Done(r, |r|)
    ensures Batch(r, k) == {}
  {
    DoneGrows(r, |r| + 1, |r| + 1);
    SubsetSize(Done(r, |r| + 1), r.Keys);
    assert |r.Keys| == |r|;
    if Batch(r, |r|) != {} {
      DoneSize(r, |r|);
      assert false;
    }
    DoneStable(r, |r|, k);
    DoneStable(r, |r|, k + 1);
  }

  lemma SubsetSize<T>(a: set<T>, b: set<T>)
    requires a <= b
    ensures |a| <= |b|
    ensures |a| == |b| ==> a == b
  {
    assert b == a + (b - a);
  }

  // ---- batches and chains ----------------------------------------------------

  lemma {:induction false} DoneBoundsChain(r: Rel, k: nat, p: seq<Name>)
    requires Chain(r, p) && p[0] in Done(r, k)
    ensures |p| <= k
  {
    if |p| > 1 {
      assert p[1] in r[p[0]];
      assert Chain(r, p[1..]);
      DoneBoundsChain(r, k - 1, p[1..]);
    }
  }

  lemma {:induction false} LongChain(r: Rel, k: nat, n: Name) returns (p: seq<Name>)
    requires Closed(r) && n in r && n !in Done(r, k)
    ensures Chain(r, p) && p[0] == n && |p| == k + 1
  {
    if k == 0 {
      p := [n];
    } else {
      var d :| d in r[n] && d !in Done(r, k - 1);
      var q := LongChain(r, k - 1, d);
      p := [n] + q;
    }
  }

  /** The longest dependency chain from n has exactly k + 1 nodes. */
  ghost predicate LongestChain(r: Rel, n: Name, k: nat) {
    && (exists p :: Chain(r, p) && p[0] == n && |p| == k + 1)
    && (forall p :: Chain(r, p) && p[0] == n ==> |p| <= k + 1)
  }

  /** Kahn's batch number and longest-path level are the same thing. */
  lemma BatchIsLongestChain(r: Rel, n: Name, k: nat)
    requires Closed(r) && n in r
    ensures n in Batch(r, k) <==> LongestChain(r, n, k)
  {
    if n in Batch(r, k) {
      var p := LongChain(r, k, n);
      forall q | Chain(r, q) && q[0] == n
        ensures |q| <= k + 1
      {
        DoneBoundsChain(r, k + 1, q);
      }
    }
    if LongestChain(r, n, k) {
      var p :| Chain(r, p) && p[0] == n && |p| == k + 1;
      if n in Done(r, k) {
        DoneBoundsChain(r, k, p);
      }
      if n !in Done(r, k + 1) {
        var q := LongChain(r, k + 1, n);
      }
    }
  }

  // ---- cycles ------------------------------------------------------------------

  /** Pigeonhole: more entries than possible values force a repetition. */
  lemma Pigeonhole<T>(s: seq<T>, values: set<T>) returns (i: nat, j: nat)
    requires Elements(s) <= values && |s| > |values|
    ensures i < j < |s| && s[i] == s[j]
  {
    if NoRepeats(s) {
      NoRepeatsSize(s);
      SubsetSize(Elements(s), values);
      assert false;
    }
    i, j :| 0 <= i < j < |s| && s[i] == s[j];
  }

  lemma StuckLeadsToCycle(r: Rel, n: Name) returns (p: seq<Name>, c: seq<Name>)
    requires Closed(r) && n in r && n !in Done(r, |r|)
    ensures LeadsToCycle(r, n, p, c)
  {
    var q := LongChain(r, |r|, n);
    assert Elements(q) <= r.Keys;
    var i, j := Pigeonhole(q, r.Keys);
    p, c := q[..i + 1], q[i..j + 1];
  }

  /** Going round a cycle gives chains of any length. */
  lemma {:induction false} PumpCycle(r: Rel, c: seq<Name>, k: nat) returns (p: seq<Name>)
    requires Cycle(r, c)
    ensures Chain(r, p) && p[0] == c[0] && |p| > k
  {
    if k == 0 {
      p := c;
    } else {
      var q := PumpCycle(r, c, k - 1);
      p := JoinChains(r, c, q);
    }
  }

  lemma JoinChains(r: Rel, p: seq<Name>, q: seq<Name>) returns (pq: seq<Name>)
    requires Chain(r, p) && Chain(r, q) && p[|p| - 1] == q[0]
    ensures pq == p + q[1..] && Chain(r, pq) && pq[0] == p[0]
  {
    pq := p + q[1..];
    forall i | 0 < i < |pq|
      ensures pq[i] in r[pq[i - 1]]
    {
      if i >= |p| {
        assert pq[i] == q[i - |p| + 1] && pq[i - 1] == q[i - |p|];
      }
    }
  }

  /** The nodes Kahn's algorithm never releases are exactly those with a cycle among their ancestry. */
  lemma StuckIffCyclicAncestry(r: Rel, n: Name)
    requires Closed(r) && n in r
    ensures n !in Done(r, |r|) <==> HasCyclicAncestry(r, n)
  {
    if n !in Done(r, |r|) {
      var p, c := StuckLeadsToCycle(r, n);
    }
    if HasCyclicAncestry(r, n) && n in Done(r, |r|) {
      var p, c :| LeadsToCycle(r, n, p, c);
      var q := PumpCycle(r, c, |r|);
      var pq := JoinChains(r, p, q);
      DoneBoundsChain(r, |r|, pq);
      assert false;
    }
  }

  lemma AcyclicIffAllDone(r: Rel)
    requires Closed(r)
    ensures Acyclic(r) <==> Done(r, |r|) == r.Keys
  {
    DoneGrows(r, |r|, |r|);
    if Acyclic(r) && Done(r, |r|) != r.Keys {
      var n :| n in r && n !in Done(r, |r|);
      var p, c := StuckLeadsToCycle(r, n);
      assert false;
    }
    if Done(r, |r|) == r.Keys && !Acyclic(r) {
      var c :| Cycle(r, c);
      assert LeadsToCycle(r, c[0], [c[0]], c);
      StuckIffCyclicAncestry(r, c[0]);
      assert false;
    }
  }

  // ---- canonical order and levels --------------------------------------------------

  /** The first k batches, each listed in ascending order. */
  ghost function OrderUpTo(r: Rel, k: nat): seq<Name> {
    if k == 0 then [] else OrderUpTo(r, k - 1) + Listing(Batch(r, k - 1))
  }

  ghost function CanonicalOrder(r: Rel): seq<Name> {
    OrderUpTo(r, |r|)
  }

  lemma {:induction false} OrderListsDone(r: Rel, k: nat)
    ensures Elements(OrderUpTo(r, k)) == Done(r, k)
    ensures NoRepeats(OrderUpTo(r, k))
  {
    if k > 0 {
      var s, t := OrderUpTo(r, k - 1), Listing(Batch(r, k - 1));
      OrderListsDone(r, k - 1);
      DoneGrows(r, k - 1, k);
      assert Done(r, k) == Done(r, k - 1) + Batch(r, k - 1);
      assert Elements(s + t) == Elements(s) + Elements(t);
      forall i, j | 0 <= i < j < |s + t|
        ensures (s + t)[i] != (s + t)[j]
      {
        if i < |s| <= j {
          assert s[i] in Elements(s) && t[j - |s|] in Elements(t);
        }
      }
    }
  }

  /** Every entry comes after all its dependencies. */
  ghost predicate DepsFirst(r: Rel, order: seq<Name>) {
    forall i :: 0 <= i < |order| && order[i] in r ==> r[order[i]] <= Elements(order[..i])
  }

  ghost predicate DepsWithin(r: Rel, t: seq<Name>, within: set<Name>) {
    forall x :: x in t && x in r ==> r[x] <= within
  }

  lemma DepsFirstAppend(r: Rel, s: seq<Name>, t: seq<Name>)
    requires DepsFirst(r, s) && DepsWithin(r, t, Elements(s))
    ensures DepsFirst(r, s + t)
  {
    var o := s + t;
    forall i | 0 <= i < |o| && o[i] in r
      ensures r[o[i]] <= Elements(o[..i])
    {
      if i < |s| {
        assert o[..i] == s[..i];
      } else {
        assert o[i] == t[i - |s|];
        assert o[..i] == s + t[..i - |s|];
        ElementsConcat(s, t[..i - |s|]);
      }
    }
  }

  lemma BatchDeps(r: Rel, k: nat)
    ensures DepsWithin(r, Listing(Batch(r, k)), Done(r, k))
  {
    forall x | x in Listing(Batch(r, k)) && x in r
      ensures r[x] <= Done(r, k)
    {
      assert x in Elements(Listing(Batch(r, k)));
      assert x in Done(r, k + 1);
    }
  }

  lemma {:induction false} OrderDepsFirst(r: Rel, k: nat)
    ensures DepsFirst(r, OrderUpTo(r, k))
  {
    if k > 0 {
      var s, t := OrderUpTo(r, k - 1), Listing(Batch(r, k - 1));
      assert DepsWithin(r, t, Elements(s)) by {
        OrderListsDone(r, k - 1);
        BatchDeps(r, k - 1);
      }
      OrderDepsFirst(r, k - 1);
      DepsFirstAppend(r, s, t);
    }
  }

  lemma {:induction false} OrderStable(r: Rel, j: nat, k: nat)
    requires j <= k && Batch(r, j) == {}
    ensures OrderUpTo(r, k) == OrderUpTo(r, j)
    decreases k
  {
    if j < k {
      OrderStable(r, j, k - 1);
      DoneStable(r, j, k - 1);
      DoneStable(r, j, k);
      assert Batch(r, k - 1) == {};
    }
  }

  /** The batches as parallel layers: all nodes are placed and no layer is empty. */
  ghost predicate CanonicalLevels(r: Rel, levels: seq<seq<Name>>) {
    && Done(r, |levels|) == r.Keys
    && forall k :: 0 <= k < |levels| ==> levels[k] == Listing(Batch(r, k)) && levels[k] != []
  }

  ghost function Flatten(levels: seq<seq<Name>>): seq<Name> {
    if levels == [] then [] else Flatten(levels[..|levels| - 1]) + levels[|levels| - 1]
  }

  lemma {:induction false} FlattenPrefix(r: Rel, levels: seq<seq<Name>>, k: nat)
    requires k <= |levels|
    requires forall i :: 0 <= i < |levels| ==> levels[i] == Listing(Batch(r, i))
    ensures Flatten(levels[..k]) == OrderUpTo(r, k)
  {
    if k > 0 {
      FlattenPrefix(r, levels, k - 1);
      assert levels[..k][..k - 1] == levels[..k - 1];
    }
  }

  lemma LevelsEnd(r: Rel, levels: seq<seq<Name>>)
    requires CanonicalLevels(r, levels)
    ensures Batch(r, |levels|) == {} && |levels| <= |r|
  {
    DoneGrows(r, |levels|, |levels| + 1);
    DoneConverges(r, |r|);
    assert |r| < |levels| ==> levels[|r|] == Listing(Batch(r, |r|));
  }

  /** Flattening the layers gives back the order. */
  lemma FlattenLevels(r: Rel, levels: seq<seq<Name>>)
    requires CanonicalLevels(r, levels)
    ensures Flatten(levels) == CanonicalOrder(r)
  {
    FlattenPrefix(r, levels, |levels|);
    assert levels[..|levels|] == levels;
    LevelsEnd(r, levels);
    OrderStable(r, |levels|, |r|);
  }

  lemma LevelsUnique(r: Rel, a: seq<seq<Name>>, b: seq<seq<Name>>)
    requires CanonicalLevels(r, a) && CanonicalLevels(r, b)
    ensures a == b
  {
    LevelsEnd(r, a);
    LevelsEnd(r, b);
  }

  /** What a valid topological order of an acyclic relation promises. */
  lemma CanonicalOrderIsTopological(r: Rel)
    requires Closed(r) && Acyclic(r)
    ensures Elements(CanonicalOrder(r)) == r.Keys
    ensures NoRepeats(CanonicalOrder(r))
    ensures DepsFirst(r, CanonicalOrder(r))
  {
    AcyclicIffAllDone(r);
    OrderListsDone(r, |r|);
    OrderDepsFirst(r, |r|);
  }

  /** A node sits in layer k exactly when its longest dependency chain has k edges. */
  lemma LayerIsLongestChain(r: Rel, levels: seq<seq<Name>>, n: Name, k: nat)
    requires Closed(r) && CanonicalLevels(r, levels) && n in r && k < |levels|
    ensures n in levels[k] <==> LongestChain(r, n, k)
  {
    BatchIsLongestChain(r, n, k);
    assert n in levels[k] <==> n in Elements(levels[k]);
  }
}
