/** The pixel-budget LRU cache of baked surfaces (web/src/components/surface-cache.js). */
module SurfaceCache {
  import opened Names
  import Dag

  datatype Entry = Entry(key: Name, pixels: nat)

  function Sum(es: seq<Entry>): nat {
    if es == [] then 0 else es[0].pixels + Sum(es[1..])
  }

  function Keys(es: seq<Entry>): seq<Name> {
    seq(|es|, i requires 0 <= i < |es| => es[i].key)
  }

  function Without(es: seq<Entry>, key: Name): seq<Entry> {
    if es == [] then []
    else if es[0].key == key then Without(es[1..], key)
    else [es[0]] + Without(es[1..], key)
  }

  function Find(es: seq<Entry>, key: Name): seq<Entry> {
    if es == [] then []
    else if es[0].key == key then [es[0]]
    else Find(es[1..], key)
  }

  /** Drop the oldest entries while the budget is exceeded, but never the newest. */
  function Evicted(es: seq<Entry>, budget: int): seq<Entry> {
    if Sum(es) > budget && |es| > 1 then Evicted(es[1..], budget) else es
  }

  function AfterGet(es: seq<Entry>, key: Name): seq<Entry> {
    Without(es, key) + Find(es, key)
  }

  function AfterSet(es: seq<Entry>, budget: int, e: Entry): seq<Entry> {
    Evicted(Without(es, e.key) + [e], budget)
  }

  // ---- facts about the insertion-ordered map ----------------------------------------------------

  lemma {:induction false} SumConcat(a: seq<Entry>, b: seq<Entry>)
    ensures Sum(a + b) == Sum(a) + Sum(b)
  {
    if a == [] {
      assert a + b == b;
    } else {
      assert (a + b)[1..] == a[1..] + b;
      SumConcat(a[1..], b);
    }
  }

  ghost predicate UniqueKeys(es: seq<Entry>) {
    forall i, j :: 0 <= i < j < |es| ==> es[i].key != es[j].key
  }

  lemma {:induction false} WithoutKeepsRest(es: seq<Entry>, key: Name)
    ensures forall e :: e in Without(es, key) <==> e in es && e.key != key
    ensures UniqueKeys(es) ==> UniqueKeys(Without(es, key))
  {
    if es != [] {
      WithoutKeepsRest(es[1..], key);
      assert forall e :: e in es <==> e == es[0] || e in es[1..];
      if UniqueKeys(es) && es[0].key != key {
        var rest := Without(es[1..], key);
        forall j | 0 <= j < |rest|
          ensures rest[j].key != es[0].key
        {
          assert rest[j] in es[1..];
        }
      }
    }
  }

  lemma {:induction false} FindFinds(es: seq<Entry>, key: Name)
    ensures |Find(es, key)| <= 1
    ensures Find(es, key) != [] ==> Find(es, key)[0] in es && Find(es, key)[0].key == key
    ensures (exists e :: e in es && e.key == key) <==> Find(es, key) != []
  {
    if es != [] {
      FindFinds(es[1..], key);
      assert forall e :: e in es <==> e == es[0] || e in es[1..];
    }
  }

  lemma {:induction false} SplitSum(es: seq<Entry>, key: Name)
    requires UniqueKeys(es)
    ensures Sum(Without(es, key)) + Sum(Find(es, key)) == Sum(es)
  {
    if es != [] {
      SplitSum(es[1..], key);
      if es[0].key == key {
        NotThere(es[1..], key);
      }
    }
  }

  lemma {:induction false} NotThere(es: seq<Entry>, key: Name)
    requires forall e :: e in es ==> e.key != key
    ensures Without(es, key) == es && Find(es, key) == []
  {
    if es != [] {
      assert es == [es[0]] + es[1..];
      NotThere(es[1..], key);
    }
  }

  /** Longest suffix that fits the budget, or the newest entry alone. */
  ghost predicate LongestFittingSuffix(es: seq<Entry>, budget: int, kept: seq<Entry>) {
    && 0 < |kept| <= |es| && kept == es[|es| - |kept|..]
    && (Sum(kept) <= budget || |kept| == 1)
    && forall k :: 0 <= k < |es| - |kept| ==> Sum(es[k..]) > budget
  }

  lemma {:induction false} EvictionKeepsLongestSuffix(es: seq<Entry>, budget: int)
    requires es != []
    ensures LongestFittingSuffix(es, budget, Evicted(es, budget))
  {
    if Sum(es) > budget && |es| > 1 {
      EvictionKeepsLongestSuffix(es[1..], budget);
      var kept := Evicted(es[1..], budget);
      forall k | 0 <= k < |es| - |kept|
        ensures Sum(es[k..]) > budget
      {
        if k == 0 {
          assert es[0..] == es;
        } else {
          assert es[1..][k - 1..] == es[k..];
        }
      }
    }
  }

  // ---- the cache object ------------------------------------------------------------------------------

  class Cache {
    const maxPixels: int
    /** The Map, in insertion order. */
    var values: seq<Entry>
    var pixels: int

    constructor (maxPixels: int)
      ensures Valid() && values == [] && this.maxPixels == maxPixels
    {
      this.maxPixels := maxPixels;
      values, pixels := [], 0;
    }

    ghost predicate Valid()
      reads this
    {
      UniqueKeys(values) && pixels == Sum(values)
    }

    method Get(key: Name) returns (value: Dag.Option<Entry>)
      requires Valid()
      modifies this`values
      ensures Valid() && values == AfterGet(old(values), key)
      ensures value.Some? ==> value.value in old(values) && value.value.key == key && values[|values| - 1] == value.value
      ensures value.None? ==> values == old(values) && forall e :: e in values ==> e.key != key
    {
      var found := Find(values, key);
      FindFinds(values, key);
      if found != [] {
        GetKeeps(values, key);
        values := Without(values, key) + found;
        return Dag.Some(found[0]);
      }
      NotThere(values, key);
      assert values + [] == values;
      return Dag.None;
    }

    /** Replace or add an entry as the newest, then evict from the oldest end. */
    method Set(e: Entry)
      requires Valid()
      modifies this
      ensures Valid() && values == AfterSet(old(values), maxPixels, e)
    {
      SplitSum(values, e.key);
      WithoutKeepsRest(values, e.key);
      FindFinds(values, e.key);
      var previous := Find(values, e.key);
      if previous != [] {
        assert Sum(previous) == previous[0].pixels by {
          assert previous[1..] == [];
        }
        pixels := pixels - previous[0].pixels;
      }
      values := Without(values, e.key) + [e];
      SumConcat(Without(old(values), e.key), [e]);
      assert Sum([e]) == e.pixels by {
        assert [e][1..] == [];
      }
      pixels := pixels + e.pixels;
      while pixels > maxPixels && |values| > 1
        invariant UniqueKeys(values) && pixels == Sum(values)
        invariant Evicted(values, maxPixels) == AfterSet(old(values), maxPixels, e)
        decreases |values|
      {
        pixels := pixels - values[0].pixels;
        values := values[1..];
      }
    }

    method Clear()
      requires Valid()
      modifies this
      ensures Valid() && values == [] && pixels == 0
    {
      var i := 0;
      while i < |values|
        invariant 0 <= i <= |values|
        invariant pixels == Sum(values[i..])
      {
        pixels := pixels - values[i].pixels;
        i := i + 1;
      }
      values := [];
    }
  }

  lemma GetKeeps(es: seq<Entry>, key: Name)
    requires UniqueKeys(es)
    ensures UniqueKeys(AfterGet(es, key)) && Sum(AfterGet(es, key)) == Sum(es)
  {
    WithoutKeepsRest(es, key);
    FindFinds(es, key);
    SplitSum(es, key);
    SumConcat(Without(es, key), Find(es, key));
    var w, f := Without(es, key), Find(es, key);
    forall i | 0 <= i < |w|
      ensures w[i].key != key
    {
      assert w[i] in Without(es, key);
    }
  }

  // ---- agreement with recency over any history ----------------------------------------------------------

  datatype Op = OpGet(key: Name) | OpSet(entry: Entry) | OpClear

  function Apply(es: seq<Entry>, budget: int, op: Op): seq<Entry> {
    match op
    case OpGet(key) => AfterGet(es, key)
    case OpSet(e) => AfterSet(es, budget, e)
    case OpClear => []
  }

  function Replay(budget: int, ops: seq<Op>): seq<Entry> {
    if ops == [] then [] else Apply(Replay(budget, ops[..|ops| - 1]), budget, ops[|ops| - 1])
  }

  predicate Mentions(op: Op, key: Name) {
    (op.OpGet? && op.key == key) || (op.OpSet? && op.entry.key == key)
  }

  /** The number of the last operation on the key, or 0. */
  function LastUse(ops: seq<Op>, key: Name): nat {
    if ops == [] then 0
    else if Mentions(ops[|ops| - 1], key) then |ops|
    else LastUse(ops[..|ops| - 1], key)
  }

  ghost predicate InRecencyOrder(es: seq<Entry>, ops: seq<Op>) {
    forall i, j :: 0 <= i < j < |es| ==> LastUse(ops, es[i].key) < LastUse(ops, es[j].key)
  }

  lemma {:induction false} LastUseBound(ops: seq<Op>, key: Name)
    ensures LastUse(ops, key) <= |ops|
  {
    if ops != [] {
      LastUseBound(ops[..|ops| - 1], key);
    }
  }

  lemma RecencyStrict(es: seq<Entry>, ops: seq<Op>)
    requires InRecencyOrder(es, ops)
    ensures UniqueKeys(es)
  {
  }

  lemma {:induction false} WithoutInOrder(es: seq<Entry>, ops: seq<Op>, key: Name)
    requires InRecencyOrder(es, ops)
    ensures InRecencyOrder(Without(es, key), ops)
  {
    if es != [] {
      WithoutInOrder(es[1..], ops, key);
      WithoutKeepsRest(es[1..], key);
      var rest := Without(es[1..], key);
      forall j | 0 <= j < |rest|
        ensures LastUse(ops, es[0].key) < LastUse(ops, rest[j].key)
      {
        assert rest[j] in es[1..];
      }
    }
  }

  lemma UsedLast(w: seq<Entry>, ops: seq<Op>, op: Op, e: Entry)
    requires InRecencyOrder(w, ops) && Mentions(op, e.key)
    requires forall x :: x in w ==> !Mentions(op, x.key)
    ensures InRecencyOrder(w + [e], ops + [op])
  {
    var es, ops' := w + [e], ops + [op];
    assert ops'[..|ops|] == ops;
    forall i, j | 0 <= i < j < |es|
      ensures LastUse(ops', es[i].key) < LastUse(ops', es[j].key)
    {
      assert es[i] == w[i] && w[i] in w;
      LastUseBound(ops, es[i].key);
      assert j < |w| ==> w[j] in w;
    }
  }

  lemma UnusedStays(es: seq<Entry>, ops: seq<Op>, op: Op)
    requires InRecencyOrder(es, ops) && forall x :: x in es ==> !Mentions(op, x.key)
    ensures InRecencyOrder(es, ops + [op])
  {
    assert (ops + [op])[..|ops|] == ops;
    forall i, j | 0 <= i < j < |es|
      ensures LastUse(ops + [op], es[i].key) < LastUse(ops + [op], es[j].key)
    {
      assert es[i] in es && es[j] in es;
    }
  }

  lemma {:induction false} EvictedInOrder(es: seq<Entry>, budget: int, ops: seq<Op>)
    requires InRecencyOrder(es, ops)
    ensures InRecencyOrder(Evicted(es, budget), ops)
  {
    if Sum(es) > budget && |es| > 1 {
      EvictedInOrder(es[1..], budget, ops);
    }
  }

  lemma ApplyInOrder(es: seq<Entry>, budget: int, ops: seq<Op>, op: Op)
    requires InRecencyOrder(es, ops)
    ensures InRecencyOrder(Apply(es, budget, op), ops + [op])
  {
    match op
    case OpClear =>
    case OpGet(key) =>
      WithoutInOrder(es, ops, key);
      WithoutKeepsRest(es, key);
      FindFinds(es, key);
      var w, f := Without(es, key), Find(es, key);
      if f == [] {
        assert w + f == w;
        UnusedStays(w, ops, op);
      } else {
        assert f == [f[0]];
        UsedLast(w, ops, op, f[0]);
      }
    case OpSet(e) =>
      WithoutInOrder(es, ops, e.key);
      WithoutKeepsRest(es, e.key);
      UsedLast(Without(es, e.key), ops, op, e);
      EvictedInOrder(Without(es, e.key) + [e], budget, ops + [op]);
  }

  /** After any history the Map order is the order of last use, so eviction is least-recently-used. */
  lemma {:induction false} MapOrderIsRecency(budget: int, ops: seq<Op>)
    ensures InRecencyOrder(Replay(budget, ops), ops)
    ensures UniqueKeys(Replay(budget, ops))
  {
    if ops != [] {
      var n := |ops| - 1;
      MapOrderIsRecency(budget, ops[..n]);
      ApplyInOrder(Replay(budget, ops[..n]), budget, ops[..n], ops[n]);
      assert ops[..n] + [ops[n]] == ops;
      RecencyStrict(Replay(budget, ops), ops);
    }
  }

  /** After a set the survivors are the most recently used entries that fit, with the new one among them. */
  lemma SetKeepsMostRecent(budget: int, ops: seq<Op>, e: Entry)
    ensures LongestFittingSuffix(Without(Replay(budget, ops), e.key) + [e], budget, Replay(budget, ops + [OpSet(e)]))
    ensures Replay(budget, ops + [OpSet(e)])[|Replay(budget, ops + [OpSet(e)])| - 1] == e
  {
    var ops' := ops + [OpSet(e)];
    assert ops'[..|ops|] == ops;
    EvictionKeepsLongestSuffix(Without(Replay(budget, ops), e.key) + [e], budget);
  }
}
