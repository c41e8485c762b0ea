/** Generation-tagged identity tokens (archive-engine/src/token_pool.rs).

    A pool keeps one wrapping 32-bit generation per key ever created and a
    min-heap of freed keys.  The heap is modelled by the order it pops in:
    a non-decreasing sequence of keys. */
module TokenPool {
  import opened Common

  type PoolKey = u32
  type Generation = u32

  datatype PoolToken = PoolToken(key: PoolKey, generation: Generation)

  /** The derived `Ord` on tokens: lexicographic on (key, generation). */
  predicate TokenLess(a: PoolToken, b: PoolToken) {
    a.key < b.key || (a.key == b.key && a.generation < b.generation)
  }

  predicate TokenLessEq(a: PoolToken, b: PoolToken) {
    TokenLess(a, b) || a == b
  }

  /** A half-open range `lo..hi` of tokens under the derived order.  `hi`
      may have a key of 2^32, one past the last `u32`. */
  datatype TokenRange = TokenRange(lo: PoolToken, hiKey: nat, hiGeneration: Generation)

  predicate InRange(t: PoolToken, r: TokenRange) {
    TokenLessEq(r.lo, t) &&
    (t.key < r.hiKey || (t.key == r.hiKey && t.generation < r.hiGeneration))
  }

  /** `range_for_key`, with the upper bound `(key + 1, 0)` computed without
      overflow: the range holds exactly the tokens of that key. */
  function RangeForKey(key: PoolKey): (r: TokenRange)
    ensures forall t: PoolToken :: InRange(t, r) <==> t.key == key
  {
    TokenRange(PoolToken(key, 0), key + 1, 0)
  }

  /** `range_for_key` as written: `key + 1` is a `u32` addition, which
      wraps (release builds) to 0 when key is `u32::MAX`. */
  function RangeForKeyAsWritten(key: PoolKey): (r: TokenRange)
    ensures key < U32_MAX ==> r == RangeForKey(key)
  {
    TokenRange(PoolToken(key, 0), WrappingIncrement(key), 0)
  }

  /** At key `u32::MAX` the range as written holds no token at all, not
      even `(u32::MAX, 0)`, its own lower bound. */
  lemma RangeForKeyAsWrittenEmptyAtMax(t: PoolToken)
    ensures !InRange(t, RangeForKeyAsWritten(U32_MAX as PoolKey))
    ensures InRange(PoolToken(U32_MAX as PoolKey, 0), RangeForKey(U32_MAX as PoolKey))
  {
  }

  datatype Pool = Pool(generations: seq<Generation>, freed: seq<PoolKey>)

  predicate NonDecreasing(s: seq<PoolKey>) {
    forall i, j :: 0 <= i < j < |s| ==> s[i] <= s[j]
  }

  /** What every pool built by `New`, `Alloc` and `Free` satisfies. */
  predicate Valid(p: Pool) {
    && |p.generations| <= U32_LIMIT
    && NonDecreasing(p.freed)
    && forall i :: 0 <= i < |p.freed| ==> p.freed[i] < |p.generations|
  }

  /** A key is unused when it is waiting in the free heap or was never created. */
  predicate Unused(p: Pool, k: PoolKey) {
    k in p.freed || k >= |p.generations|
  }

  function New(): (p: Pool)
    ensures Valid(p)
    ensures p.generations == [] && p.freed == []
  {
    Pool([], [])
  }

  /** `TokenPool::alloc`: pop the smallest freed key with its current
      generation, or grow the pool by one key of generation 0.  The source's
      `try_into().unwrap()` aborts when 2^32 keys already exist. */
  function Alloc(p: Pool): (r: Result<(PoolToken, Pool), Fault>)
    requires Valid(p)
    ensures r.Err? <==> p.freed == [] && |p.generations| == U32_LIMIT
    ensures r.Err? ==> r.error == KeysExhausted
    ensures r.Ok? ==> Valid(r.value.1)
    ensures r.Ok? && p.freed != [] ==>
      var (t, p') := r.value;
      && (forall k :: k in p.freed ==> t.key <= k)
      && t.key == p.freed[0]
      && t.generation == p.generations[t.key]
      && p'.generations == p.generations
      && multiset(p'.freed) == multiset(p.freed) - multiset{t.key}
    ensures r.Ok? && p.freed == [] ==>
      var (t, p') := r.value;
      && t == PoolToken(|p.generations|, 0)
      && p'.generations == p.generations + [0]
      && p'.freed == []
  {
    if |p.freed| > 0 then
      var key := p.freed[0];
      assert multiset(p.freed) == multiset{key} + multiset(p.freed[1..]) by {
        assert p.freed == [key] + p.freed[1..];
      }
      Ok((PoolToken(key, p.generations[key]), Pool(p.generations, p.freed[1..])))
    else if |p.generations| < U32_LIMIT then
      Ok((PoolToken(|p.generations|, 0), Pool(p.generations + [0], [])))
    else
      Err(KeysExhausted)
  }

  /** Inserting into the heap, as the pop order sees it. */
  function Insert(s: seq<PoolKey>, k: PoolKey): (r: seq<PoolKey>)
    requires NonDecreasing(s)
    ensures NonDecreasing(r)
    ensures multiset(r) == multiset(s) + multiset{k}
    ensures |r| == |s| + 1
  {
    if s == [] then [k]
    else if k <= s[0] then [k] + s
    else
      var rest := Insert(s[1..], k);
      assert s == [s[0]] + s[1..];
      LowerBoundOfInsert(s[0], s[1..], k, rest);
      [s[0]] + rest
  }

  lemma LowerBoundOfInsert(lo: PoolKey, s: seq<PoolKey>, k: PoolKey, r: seq<PoolKey>)
    requires forall i :: 0 <= i < |s| ==> lo <= s[i]
    requires lo <= k
    requires NonDecreasing(r)
    requires multiset(r) == multiset(s) + multiset{k}
    ensures NonDecreasing([lo] + r)
  {
    forall i | 0 <= i < |r|
      ensures lo <= r[i]
    {
      assert r[i] in multiset(r);
      if r[i] != k {
        assert r[i] in multiset(s);
        assert r[i] in s;
      }
    }
  }

  /** `TokenPool::free`: abort with "double freed" unless the token carries
      its key's current generation (indexing beyond the table aborts too);
      otherwise bump the generation and hand the key back to the heap. */
  function Free(p: Pool, t: PoolToken): (r: Result<Pool, Fault>)
    requires Valid(p)
    ensures t.key >= |p.generations| <==> r == Err(UnknownKey)
    ensures t.key < |p.generations| && p.generations[t.key] != t.generation <==> r == Err(DoubleFree)
    ensures r.Ok? <==> t.key < |p.generations| && p.generations[t.key] == t.generation
    ensures r.Ok? ==>
      && Valid(r.value)
      && |r.value.generations| == |p.generations|
      && r.value.generations[t.key] == WrappingIncrement(t.generation)
      && (forall k :: 0 <= k < |p.generations| && k != t.key ==> r.value.generations[k] == p.generations[k])
      && multiset(r.value.freed) == multiset(p.freed) + multiset{t.key}
  {
    if t.key >= |p.generations| then Err(UnknownKey)
    else if p.generations[t.key] != t.generation then Err(DoubleFree)
    else
      var freed := Insert(p.freed, t.key);
      assert forall i :: 0 <= i < |freed| ==> freed[i] < |p.generations| by {
        forall i | 0 <= i < |freed|
          ensures freed[i] < |p.generations|
        {
          assert freed[i] in multiset(freed);
        }
      }
      Ok(Pool(p.generations[t.key := WrappingIncrement(t.generation)], freed))
  }

  /** Density: `alloc` hands out the smallest unused key. */
  lemma AllocIsSmallestUnused(p: Pool)
    requires Valid(p)
    requires Alloc(p).Ok?
    ensures Unused(p, Alloc(p).value.0.key)
    ensures forall k: PoolKey :: Unused(p, k) ==> Alloc(p).value.0.key <= k
  {
    var t := Alloc(p).value.0;
    if p.freed != [] {
      forall k: PoolKey | Unused(p, k)
        ensures t.key <= k
      {
        if k !in p.freed {
          assert p.freed[0] < |p.generations|;
        }
      }
    }
  }

  /** Freeing the same token twice aborts on the second call. */
  lemma DoubleFreeAborts(p: Pool, t: PoolToken)
    requires Valid(p)
    requires Free(p, t).Ok?
    ensures Free(Free(p, t).value, t) == Err(DoubleFree)
  {
  }

  /** Re-allocating a freed key yields the same key with the next
      generation, so the freed token is never handed out again. */
  lemma ReallocGivesFreshToken(p: Pool, t: PoolToken)
    requires Valid(p)
    requires Free(p, t).Ok?
    requires Alloc(Free(p, t).value).Ok?
    requires Alloc(Free(p, t).value).value.0.key == t.key
    ensures Alloc(Free(p, t).value).value.0 == PoolToken(t.key, WrappingIncrement(t.generation))
    ensures Alloc(Free(p, t).value).value.0 != t
  {
    var p' := Free(p, t).value;
    assert p'.freed != [] by {
      assert t.key in multiset(p'.freed);
    }
  }

  /** A token is live when it carries its key's current generation and the
      key is not waiting in the free heap: exactly the tokens handed out and
      not yet freed. */
  predicate Live(p: Pool, t: PoolToken) {
    t.key < |p.generations| && p.generations[t.key] == t.generation && t.key !in p.freed
  }

  /** No key waits in the heap twice.  `free` alone does not ensure this
      (a never-issued current-generation token of a freed key passes its
      check); freeing only live tokens does. */
  ghost predicate NoDuplicates(p: Pool) {
    forall k :: multiset(p.freed)[k] <= 1
  }

  /** `alloc` hands out a token that was not live and makes exactly that
      token live. */
  lemma AllocMakesLive(p: Pool)
    requires Valid(p) && NoDuplicates(p)
    requires Alloc(p).Ok?
    ensures var (t, p') := Alloc(p).value;
      && NoDuplicates(p')
      && !Live(p, t) && Live(p', t)
      && forall s :: s != t ==> (Live(p', s) <==> Live(p, s))
  {
    var (t, p') := Alloc(p).value;
    if p.freed != [] {
      assert t.key in p.freed;
      assert multiset(p'.freed)[t.key] == 0;
      assert t.key !in p'.freed;
      forall s | s != t
        ensures Live(p', s) <==> Live(p, s)
      {
        if s.key != t.key {
          assert multiset(p'.freed)[s.key] == multiset(p.freed)[s.key];
          assert s.key in p'.freed <==> s.key in p.freed;
        }
      }
    }
  }

  /** `free` of a live token succeeds and makes exactly that token not
      live; every other token keeps its status. */
  lemma FreeEndsLive(p: Pool, t: PoolToken)
    requires Valid(p) && NoDuplicates(p) && Live(p, t)
    ensures Free(p, t).Ok?
    ensures var p' := Free(p, t).value;
      && NoDuplicates(p')
      && !Live(p', t)
      && forall s :: s != t ==> (Live(p', s) <==> Live(p, s))
  {
    var p' := Free(p, t).value;
    assert multiset(p.freed)[t.key] == 0;
    assert t.key in multiset(p'.freed);
    forall s | s != t
      ensures Live(p', s) <==> Live(p, s)
    {
      if s.key != t.key {
        assert multiset(p'.freed)[s.key] == multiset(p.freed)[s.key];
        assert s.key in p'.freed <==> s.key in p.freed;
      }
    }
  }

  /** The two tests of token_pool.rs, replayed on the model. */
  lemma IndicesScenario()
    ensures
      var p0 := New();
      var (a, p1) := Alloc(p0).value;
      var (b, p2) := Alloc(p1).value;
      var (c, p3) := Alloc(p2).value;
      var p4 := Free(p3, b).value;
      var (d, p5) := Alloc(p4).value;
      var (e, p6) := Alloc(p5).value;
      a.key == 0 && b.key == 1 && c.key == 2 && d.key == b.key && e.key == 3
  {
  }

  lemma AllocsLowestScenario()
    ensures
      var p0 := New();
      var (a, p1) := Alloc(p0).value;
      var (b, p2) := Alloc(p1).value;
      var (c, p3) := Alloc(p2).value;
      var p4 := Free(p3, c).value;
      var p5 := Free(p4, a).value;
      Alloc(p5).value.0.key == 0
  {
    var p0 := New();
    var (a, p1) := Alloc(p0).value;
    var (b, p2) := Alloc(p1).value;
    var (c, p3) := Alloc(p2).value;
    var p4 := Free(p3, c).value;
    assert p4.freed == [2];
    var p5 := Free(p4, a).value;
    assert p5.freed == [0, 2];
  }

  lemma DoubleFreeScenario()
    ensures
      var (a, p1) := Alloc(New()).value;
      Free(Free(p1, a).value, a) == Err(DoubleFree)
  {
  }
}
