/** Bounded history (archive-engine/src/containers/circular.rs).

    `CircularBuf` is a ring of `cap` physical slots read through a monotonic
    `start` and a `len`; `RollingBuf` addresses such a ring of optional
    values by sequence numbers that wrap at `vcap`.  The const generics
    `CAP` and `VCAP` become fields, fixed when the buffer is made. */
module Circular {
  import opened Common

  // ---------------------------------------------------------------------
  // Modular arithmetic facts used by both buffers
  // ---------------------------------------------------------------------

  /** `x mod m`, by repeated subtraction.  Both buffers compute their
      positions with it, so the solver meets a remainder only through the
      lemmas below; `WrapIsMod` shows it is Rust's `%` on `usize`. */
  function Wrap(x: nat, m: nat): (r: nat)
    requires m > 0
    ensures r < m
    ensures x < m ==> r == x
    decreases x
  {
    if x < m then x else Wrap(x - m, m)
  }

  lemma MulBounds(k: int, m: nat)
    ensures k >= 1 ==> k * m >= m
    ensures k <= -1 ==> k * m + m <= 0
  {
  }

  lemma ModOfMultiplePlus(q: nat, m: nat, x: nat)
    requires m > 0 && x < m
    ensures (q * m + x) % m == x
  {
    var n := q * m + x;
    var q', x' := n / m, n % m;
    assert n == q' * m + x';
    assert (q - q') * m == x' - x;
    MulBounds(q - q', m);
  }

  lemma {:induction false} WrapIsMod(x: nat, m: nat)
    requires m > 0
    ensures Wrap(x, m) == x % m
    decreases x
  {
    if x < m {
      ModOfMultiplePlus(0, m, x);
    } else {
      WrapIsMod(x - m, m);
      var q := (x - m) / m;
      assert x - m == q * m + (x - m) % m;
      assert x == (q + 1) * m + (x - m) % m;
      ModOfMultiplePlus(q + 1, m, (x - m) % m);
    }
  }

  lemma WrapPlusModulus(x: nat, m: nat)
    requires m > 0
    ensures Wrap(x + m, m) == Wrap(x, m)
  {
  }

  /** `x - Wrap(x, m)` is a multiple of `m`: adding a remainder to it
      gives that remainder back. */
  lemma {:induction false} WrapOfBlockPlus(x: nat, y: nat, m: nat)
    requires m > 0 && y < m
    ensures Wrap(x - Wrap(x, m) + y, m) == y
    decreases x
  {
    if x >= m {
      WrapOfBlockPlus(x - m, y, m);
      WrapPlusModulus(x - m - Wrap(x - m, m) + y, m);
    }
  }

  /** Positions closer than `m` have distinct remainders. */
  lemma {:induction false} WrapDistinct(x: nat, d: nat, m: nat)
    requires m > 0 && 0 < d < m
    ensures Wrap(x, m) != Wrap(x + d, m)
    decreases x
  {
    if x >= m {
      WrapDistinct(x - m, d, m);
    } else if x + d >= m {
      assert Wrap(x + d, m) == Wrap(x + d - m, m);
    }
  }

  // ---------------------------------------------------------------------
  // CircularBuf
  // ---------------------------------------------------------------------

  datatype CircularBuf<T> = CircularBuf(cap: nat, start: nat, len: nat, backing: seq<Option<T>>)

  /** The physical slot of logical index `i`: `(i + start) mod cap`. */
  function Phys<T>(b: CircularBuf<T>, i: nat): (r: nat)
    requires b.cap > 0
    ensures r < b.cap
  {
    Wrap(i + b.start, b.cap)
  }

  /** `len <= CAP`, and every logical slot in `[0, len)` is occupied: the
      `assert!(is_some())` of `pop_front`, `get` and `get_mut` never fires. */
  predicate Valid<T>(b: CircularBuf<T>) {
    && b.cap > 0
    && |b.backing| == b.cap
    && b.len <= b.cap
    && forall i: nat :: i < b.len ==> b.backing[Phys(b, i)].Some?
  }

  /** The stored values, oldest first. */
  function Elements<T>(b: CircularBuf<T>): (r: seq<T>)
    requires Valid(b)
    ensures |r| == b.len
    ensures forall i: nat :: i < b.len ==> r[i] == b.backing[Phys(b, i)].value
  {
    seq(b.len, (i: int) requires 0 <= i < b.len && Valid(b) => b.backing[Phys(b, i)].value)
  }

  /** The buffer stores true index `u` (logical index `u - start`). */
  predicate Holds<T>(b: CircularBuf<T>, u: int) {
    b.start <= u < b.start + b.len
  }

  /** The value stored at true index `u`. */
  function At<T>(b: CircularBuf<T>, u: int): T
    requires Valid(b) && Holds(b, u)
  {
    Elements(b)[u - b.start]
  }

  function NewCircular<T>(cap: nat): (b: CircularBuf<T>)
    requires cap > 0
    ensures Valid(b) && b.cap == cap
    ensures b.start == 0 && Elements(b) == []
  {
    CircularBuf(cap, 0, 0, seq(cap, _ => None))
  }

  /** `calc_idx`: the physical slot of a logical index, if it is stored. */
  function CalcIdx<T>(b: CircularBuf<T>, index: nat): (r: Option<nat>)
    requires Valid(b)
    ensures r.None? <==> index >= b.len
    ensures r.Some? ==> r.value == Phys(b, index) && b.backing[r.value].Some?
  {
    if index >= b.len then None else Some(Phys(b, index))
  }

  /** `get`: the value at a logical index, None at or beyond `len`. */
  function Get<T>(b: CircularBuf<T>, index: nat): (r: Option<T>)
    requires Valid(b)
    ensures r.None? <==> index >= b.len
    ensures r.Some? ==> r.value == Elements(b)[index]
  {
    match CalcIdx(b, index)
    case None => None
    case Some(i) => Some(b.backing[i].value)
  }

  /** `pop_front`: None on an empty buffer; otherwise the oldest value,
      with `start` one further on and `len` one smaller. */
  function PopFront<T>(b: CircularBuf<T>): (r: (Option<T>, CircularBuf<T>))
    requires Valid(b)
    ensures Valid(r.1) && r.1.cap == b.cap
    ensures b.len == 0 ==> r.0.None? && r.1 == b
    ensures b.len > 0 ==>
      && r.0 == Some(Elements(b)[0])
      && r.1.start == b.start + 1
      && r.1.len == b.len - 1
      && Elements(r.1) == Elements(b)[1..]
  {
    if b.len == 0 then (None, b)
    else
      var front := Wrap(b.start, b.cap);
      var b' := CircularBuf(b.cap, b.start + 1, b.len - 1, b.backing[front := None]);
      assert front == Phys(b, 0);
      forall i: nat | i < b'.len
        ensures Phys(b', i) == Phys(b, i + 1) != front
      {
        assert i + b'.start == (i + 1) + b.start;
        WrapDistinct(0 + b.start, i + 1, b.cap);
      }
      (b.backing[front], b')
  }

  /** Writing the slot just past the last value of a buffer with room. */
  function Append<T>(b: CircularBuf<T>, value: T): (r: CircularBuf<T>)
    requires Valid(b) && b.len < b.cap
    ensures Valid(r) && r.cap == b.cap && r.start == b.start && r.len == b.len + 1
    ensures Elements(r) == Elements(b) + [value]
  {
    var idx := Phys(b, b.len);
    var r := CircularBuf(b.cap, b.start, b.len + 1, b.backing[idx := Some(value)]);
    forall i: nat | i < b.len
      ensures Phys(r, i) == Phys(b, i) != idx
    {
      WrapDistinct(i + b.start, b.len - i, b.cap);
    }
    assert Elements(r) == Elements(b) + [value];
    r
  }

  /** `push_back`: a full buffer first evicts its oldest value; the new
      value becomes the last one. */
  function PushBack<T>(b: CircularBuf<T>, value: T): (r: CircularBuf<T>)
    requires Valid(b)
    ensures Valid(r) && r.cap == b.cap
    ensures b.len == b.cap ==> r.start == b.start + 1 && r.len == b.len
    ensures b.len < b.cap ==> r.start == b.start && r.len == b.len + 1
    ensures Elements(r) == (if b.len == b.cap then Elements(b)[1..] else Elements(b)) + [value]
  {
    if b.len == b.cap then Append(PopFront(b).1, value) else Append(b, value)
  }

  /** Read by true index, `push_back` keeps every surviving value and adds
      the new one at `start + len`. */
  lemma PushBackAt<T>(b: CircularBuf<T>, value: T)
    requires Valid(b)
    ensures forall u :: Holds(PushBack(b, value), u) ==>
      At(PushBack(b, value), u) == if u == b.start + b.len then value else At(b, u)
  {
  }

  /** `IndexMut`: overwrite the value at a stored logical index. */
  function Set<T>(b: CircularBuf<T>, index: nat, value: T): (r: CircularBuf<T>)
    requires Valid(b) && index < b.len
    ensures Valid(r)
    ensures r.cap == b.cap && r.start == b.start && r.len == b.len
    ensures Elements(r) == Elements(b)[index := value]
  {
    var i := CalcIdx(b, index).value;
    var r := b.(backing := b.backing[i := Some(value)]);
    forall j: nat | j < b.len
      ensures Phys(r, j) == Phys(b, j)
      ensures j != index ==> Phys(b, j) != i
    {
      if j < index { WrapDistinct(j + b.start, index - j, b.cap); }
      else if j > index { WrapDistinct(index + b.start, j - index, b.cap); }
    }
    assert forall j: nat :: j < r.len ==> Elements(r)[j] == Elements(b)[index := value][j];
    r
  }

  /** After a write, every true index reads the old value except the one
      written. */
  lemma SetAt<T>(b: CircularBuf<T>, index: nat, value: T)
    requires Valid(b) && index < b.len
    ensures forall u :: Holds(Set(b, index, value), u) ==>
      At(Set(b, index, value), u) == if u == b.start + index then value else At(b, u)
  {
  }

  // ---------------------------------------------------------------------
  // RollingBuf
  // ---------------------------------------------------------------------

  datatype RollingBuf<T> = RollingBuf(vcap: nat, backing: CircularBuf<Option<T>>)

  datatype RollingBufError = TooOld | OutOfBounds

  /** `check_caps`: rollovers are detectable only when `CAP * 8 <= VCAP`. */
  predicate CheckCaps(cap: nat, vcap: nat) {
    cap * 8 <= vcap
  }

  predicate RValid<T>(rb: RollingBuf<T>) {
    Valid(rb.backing) && CheckCaps(rb.backing.cap, rb.vcap)
  }

  function Cap<T>(rb: RollingBuf<T>): nat {
    rb.backing.cap
  }

  function Start<T>(rb: RollingBuf<T>): nat {
    rb.backing.start
  }

  /** The true indices currently stored. */
  predicate InWindow<T>(rb: RollingBuf<T>, u: int) {
    Holds(rb.backing, u)
  }

  /** What the buffer holds at a stored true index (None for a padded slot). */
  function SlotAt<T>(rb: RollingBuf<T>, u: int): Option<T>
    requires RValid(rb) && InWindow(rb, u)
  {
    At(rb.backing, u)
  }

  /** `RollingBuf::new`: aborts (None) unless `CAP * 8 <= VCAP`. */
  function NewRolling<T>(cap: nat, vcap: nat): (r: Option<RollingBuf<T>>)
    requires cap > 0
    ensures r.Some? <==> cap * 8 <= vcap
    ensures r.Some? ==> RValid(r.value) && Cap(r.value) == cap && r.value.vcap == vcap
    ensures r.Some? ==> Start(r.value) == 0 && r.value.backing.len == 0
  {
    if CheckCaps(cap, vcap) then Some(RollingBuf(vcap, NewCircular(cap))) else None
  }

  /** `start mod vcap`: where `start` sits inside its block of `vcap`
      rolling indices. */
  function RollingStart<T>(rb: RollingBuf<T>): nat
    requires RValid(rb)
  {
    Wrap(rb.backing.start, rb.vcap)
  }

  /** `calc_true_index`: resolve a rolling index against `start`.  An index
      below `start mod vcap` is a wraparound only near the top of the block
      and only for a small index; otherwise it is TooOld.  Whatever it
      resolves to lies in `[start, start + vcap)` and has the requested
      rolling index as its remainder. */
  function CalcTrueIndex<T>(rb: RollingBuf<T>, rollingIndex: nat): (r: Result<nat, RollingBufError>)
    requires RValid(rb)
    ensures rollingIndex >= rb.vcap <==> r == Err(OutOfBounds)
    ensures r == Err(TooOld) <==>
      && rollingIndex < rb.vcap
      && rollingIndex < RollingStart(rb)
      && !(RollingStart(rb) >= rb.vcap - Cap(rb) && rollingIndex <= Cap(rb))
    ensures r.Ok? ==> Start(rb) <= r.value < Start(rb) + rb.vcap
    ensures r.Ok? ==> Wrap(r.value, rb.vcap) == rollingIndex
  {
    var vcap := rb.vcap;
    if rollingIndex >= vcap then Err(OutOfBounds)
    else
      var start := rb.backing.start;
      var rollingStart := Wrap(start, vcap);
      var blockStart := start - rollingStart;
      WrapOfBlockPlus(start, rollingIndex, vcap);
      if rollingIndex < rollingStart then
        if rollingStart >= vcap - Cap(rb) && rollingIndex <= Cap(rb) then
          WrapPlusModulus(blockStart + rollingIndex, vcap);
          Ok(blockStart + vcap + rollingIndex)
        else
          Err(TooOld)
      else
        Ok(blockStart + rollingIndex)
  }

  /** The two ways `calc_true_index` resolves an index below `vcap`:
      within the block of `start`, or, for a small index seen near the top
      of that block, within the next block. */
  lemma CalcTrueIndexCases<T>(rb: RollingBuf<T>, rollingIndex: nat)
    requires RValid(rb) && rollingIndex < rb.vcap
    ensures rollingIndex >= RollingStart(rb) ==>
      CalcTrueIndex(rb, rollingIndex) == Ok(Start(rb) - RollingStart(rb) + rollingIndex)
    ensures rollingIndex < RollingStart(rb) && RollingStart(rb) >= rb.vcap - Cap(rb) && rollingIndex <= Cap(rb) ==>
      CalcTrueIndex(rb, rollingIndex) == Ok(Start(rb) - RollingStart(rb) + rb.vcap + rollingIndex)
  {
  }

  /** A true index at most `cap` past `start` has a remainder either at
      or above that of `start`, in the same block, or below it near the
      start of the next block. */
  lemma RemainderAfterStart(start: nat, vcap: nat, cap: nat, u: nat)
    requires 0 < vcap && cap < vcap && start <= u <= start + cap
    ensures var rs, ri := Wrap(start, vcap), Wrap(u, vcap);
      || (ri >= rs && u == start - rs + ri)
      || (ri < rs && rs >= vcap - cap && ri <= cap && u == start - rs + vcap + ri)
  {
    var rs := Wrap(start, vcap);
    var d := u - start;
    if rs + d < vcap {
      WrapOfBlockPlus(start, rs + d, vcap);
      assert start - rs + (rs + d) == u;
    } else {
      var ri := rs + d - vcap;
      WrapOfBlockPlus(start, ri, vcap);
      WrapPlusModulus(start - rs + ri, vcap);
      assert start - rs + ri + vcap == u;
    }
  }

  /** Every true index from `start` up to `start + cap` is recovered from
      its rolling index. */
  lemma CalcTrueIndexRecovers<T>(rb: RollingBuf<T>, u: nat)
    requires RValid(rb)
    requires Start(rb) <= u <= Start(rb) + Cap(rb)
    ensures CalcTrueIndex(rb, Wrap(u, rb.vcap)) == Ok(u)
  {
    RemainderAfterStart(Start(rb), rb.vcap, Cap(rb), u);
    CalcTrueIndexCases(rb, Wrap(u, rb.vcap));
  }

  /** `index`: the stored optional value for a rolling index, or the
      error explaining why it cannot be read. */
  function Index<T>(rb: RollingBuf<T>, rollingIndex: nat): (r: Result<Option<T>, RollingBufError>)
    requires RValid(rb)
    ensures CalcTrueIndex(rb, rollingIndex).Err? ==> r == Err(CalcTrueIndex(rb, rollingIndex).error)
    ensures CalcTrueIndex(rb, rollingIndex).Ok? ==>
      var t := CalcTrueIndex(rb, rollingIndex).value;
      && (InWindow(rb, t) ==> r == Ok(SlotAt(rb, t)))
      && (!InWindow(rb, t) ==> r == Err(OutOfBounds))
  {
    var start := rb.backing.start;
    var trueIndex :- CalcTrueIndex(rb, rollingIndex);
    match Get(rb.backing, trueIndex - start)
    case Some(data) => Ok(data)
    case None => Err(OutOfBounds)
  }

  /** Round trip: every stored true index is found again through its rolling
      index, holding what was stored there (None for a padded slot). */
  lemma IndexOfWindow<T>(rb: RollingBuf<T>, u: nat)
    requires RValid(rb) && InWindow(rb, u)
    ensures Index(rb, Wrap(u, rb.vcap)) == Ok(SlotAt(rb, u))
  {
    CalcTrueIndexRecovers(rb, u);
  }

  /** The `while start + len <= true_index { push_back(None) }` loop of
      `add`: pad with empty slots until the target index is stored. */
  function PadTo<T>(b: CircularBuf<Option<T>>, target: nat): (r: CircularBuf<Option<T>>)
    requires Valid(b) && b.start <= target
    ensures Valid(r) && r.cap == b.cap
    ensures b.start <= r.start <= target < r.start + r.len
    ensures r.start + r.len == Max(b.start + b.len, target + 1)
    ensures r.start == b.start || r.len == r.cap
    ensures forall u :: Holds(r, u) ==> At(r, u) == if Holds(b, u) then At(b, u) else None
    decreases target + 1 - (b.start + b.len)
  {
    if b.start + b.len <= target then
      PushBackAt(b, None);
      PadTo(PushBack(b, None), target)
    else
      b
  }

  /** `add`: store a value under a rolling index and return its true index.
      A true index more than `2 * cap` past `start` is OutOfBounds. */
  function Add<T>(rb: RollingBuf<T>, rollingIndex: nat, value: T): (r: Result<(nat, RollingBuf<T>), RollingBufError>)
    requires RValid(rb)
    ensures CalcTrueIndex(rb, rollingIndex).Err? ==> r == Err(CalcTrueIndex(rb, rollingIndex).error)
    ensures CalcTrueIndex(rb, rollingIndex).Ok? ==>
      var t := CalcTrueIndex(rb, rollingIndex).value;
      && (t > Start(rb) + 2 * Cap(rb) <==> r == Err(OutOfBounds))
      && (t <= Start(rb) + 2 * Cap(rb) <==> r.Ok?)
      && (r.Ok? ==> r.value.0 == t)
    ensures r.Ok? ==>
      var (t, rb') := r.value;
      && RValid(rb') && rb'.vcap == rb.vcap && Cap(rb') == Cap(rb)
      && Start(rb) <= Start(rb')
      && rb'.backing.start + rb'.backing.len == Max(Start(rb) + rb.backing.len, t + 1)
      && (Start(rb') == Start(rb) || rb'.backing.len == Cap(rb))
      && InWindow(rb', t)
      && (forall u :: InWindow(rb', u) ==>
            SlotAt(rb', u) == (if u == t then Some(value) else if InWindow(rb, u) then SlotAt(rb, u) else None))
  {
    var trueIndex :- CalcTrueIndex(rb, rollingIndex);
    if trueIndex > rb.backing.start + 2 * Cap(rb) then Err(OutOfBounds)
    else
      AddStores(rb, trueIndex, value);
      Ok((trueIndex, Stored(rb, trueIndex, value)))
  }

  /** The buffer `add` leaves: padded up to the true index, then written. */
  function Stored<T>(rb: RollingBuf<T>, t: nat, value: T): RollingBuf<T>
    requires RValid(rb) && Start(rb) <= t
  {
    var padded := PadTo(rb.backing, t);
    RollingBuf(rb.vcap, Set(padded, t - padded.start, Some(value)))
  }

  /** What padding and writing leave in the window. */
  lemma AddStores<T>(rb: RollingBuf<T>, t: nat, value: T)
    requires RValid(rb) && Start(rb) <= t
    ensures var rb' := Stored(rb, t, value);
      && RValid(rb') && rb'.vcap == rb.vcap && Cap(rb') == Cap(rb)
      && Start(rb) <= Start(rb')
      && rb'.backing.start + rb'.backing.len == Max(Start(rb) + rb.backing.len, t + 1)
      && (Start(rb') == Start(rb) || rb'.backing.len == Cap(rb))
      && InWindow(rb', t)
      && (forall u :: InWindow(rb', u) ==>
            SlotAt(rb', u) == (if u == t then Some(value) else if InWindow(rb, u) then SlotAt(rb, u) else None))
  {
    StoredContents(rb, t, value);
  }

  /** Read by true index, the stored buffer holds the new value at `t`
      and what padding left everywhere else. */
  lemma StoredContents<T>(rb: RollingBuf<T>, t: nat, value: T)
    requires RValid(rb) && Start(rb) <= t
    ensures RValid(Stored(rb, t, value))
    ensures forall u :: InWindow(Stored(rb, t, value), u) ==>
      SlotAt(Stored(rb, t, value), u) == (if u == t then Some(value) else if InWindow(rb, u) then SlotAt(rb, u) else None)
  {
    var padded := PadTo(rb.backing, t);
    var b' := Set(padded, t - padded.start, Some(value));
    assert Stored(rb, t, value) == RollingBuf(rb.vcap, b');
    SetAt(padded, t - padded.start, Some(value));
    forall u | InWindow(Stored(rb, t, value), u)
      ensures SlotAt(Stored(rb, t, value), u) == (if u == t then Some(value) else if InWindow(rb, u) then SlotAt(rb, u) else None)
    {
      assert Holds(b', u) && Holds(padded, u);
    }
  }

  /** What `add` promises a later `index`: the value just stored is read back. */
  lemma AddThenIndex<T>(rb: RollingBuf<T>, rollingIndex: nat, value: T)
    requires RValid(rb)
    requires Add(rb, rollingIndex, value).Ok?
    ensures Index(Add(rb, rollingIndex, value).value.1, rollingIndex) == Ok(Some(value))
  {
    var (t, rb') := Add(rb, rollingIndex, value).value;
    IndexOfWindow(rb', t);
  }

  /** A stale index from the current block of `vcap` indices, fewer than
      `vcap - 2 * cap` behind `start`, is reported TooOld. */
  lemma StaleInBlockIsTooOld<T>(rb: RollingBuf<T>, u: nat)
    requires RValid(rb)
    requires Start(rb) - RollingStart(rb) <= u < Start(rb)
    requires Start(rb) - u < rb.vcap - 2 * Cap(rb)
    ensures Index(rb, Wrap(u, rb.vcap)) == Err(TooOld)
  {
    var start := Start(rb);
    WrapOfBlockPlus(start, u - (start - RollingStart(rb)), rb.vcap);
  }

  /** A stale index from the previous block is not TooOld: it aliases an
      index one block later, beyond what is stored, and is reported
      OutOfBounds. */
  lemma StaleAcrossBlockIsOutOfBounds<T>(rb: RollingBuf<T>, u: nat)
    requires RValid(rb)
    requires u < Start(rb) - RollingStart(rb)
    requires Start(rb) - u <= rb.vcap - Cap(rb)
    ensures Index(rb, Wrap(u, rb.vcap)) == Err(OutOfBounds)
  {
    var vcap, start := rb.vcap, Start(rb);
    var y := u + vcap - (start - RollingStart(rb));
    WrapOfBlockPlus(start, y, vcap);
    WrapPlusModulus(u, vcap);
  }

  // ---------------------------------------------------------------------
  // The loop of the tests: add i under rolling index i mod vcap
  // ---------------------------------------------------------------------

  /** `add` of the next index `t` under its rolling index succeeds with
      `t`, on a window that ends just before `t`. */
  lemma AddOfNext(prev: RollingBuf<int>, t: nat)
    requires RValid(prev) && Start(prev) + prev.backing.len == t
    ensures Add(prev, Wrap(t, prev.vcap), t) == Ok((t, Stored(prev, t, t)))
  {
    CalcTrueIndexRecovers(prev, t);
  }

  /** One round of the tests' loop: `add` of the next index `t` under its
      rolling index succeeds, and the window still holds each index at
      itself. */
  method AddNext(prev: RollingBuf<int>, t: nat) returns (rb: RollingBuf<int>)
    requires RValid(prev) && Start(prev) + prev.backing.len == t
    requires forall u :: InWindow(prev, u) ==> SlotAt(prev, u) == Some(u)
    ensures Add(prev, Wrap(t, prev.vcap), t) == Ok((t, rb))
    ensures RValid(rb) && Cap(rb) == Cap(prev) && rb.vcap == prev.vcap
    ensures Start(prev) <= Start(rb) && Start(rb) + rb.backing.len == t + 1
    ensures Start(rb) == Start(prev) || rb.backing.len == Cap(prev)
    ensures forall u :: InWindow(rb, u) ==> SlotAt(rb, u) == Some(u)
  {
    AddOfNext(prev, t);
    rb := Stored(prev, t, t);
  }

  /** The tests' loop: a fresh buffer after `add(i % vcap, i)` for every i
      in `[0, n)` (the rolling index is `Wrap(i, vcap)`, which `WrapIsMod`
      equates with `%`).  It holds the last `min(n, cap)` values, each at
      its own index. */
  method Fill(cap: nat, vcap: nat, n: nat) returns (rb: RollingBuf<int>)
    requires cap > 0 && CheckCaps(cap, vcap)
    ensures RValid(rb) && Cap(rb) == cap && rb.vcap == vcap
    ensures Start(rb) == Max(0, n - cap) && Start(rb) + rb.backing.len == n
    ensures forall u :: InWindow(rb, u) ==> SlotAt(rb, u) == Some(u)
  {
    rb := NewRolling(cap, vcap).value;
    var i := 0;
    while i < n
      invariant i <= n
      invariant RValid(rb) && Cap(rb) == cap && rb.vcap == vcap
      invariant Start(rb) == Max(0, i - cap) && Start(rb) + rb.backing.len == i
      invariant forall u :: InWindow(rb, u) ==> SlotAt(rb, u) == Some(u)
    {
      rb := AddNext(rb, i);
      i := i + 1;
    }
  }

  /** `test_circular_basic`, on a ring of two slots. */
  lemma CircularBasicScenario()
    ensures
      var b0 := NewCircular<int>(2);
      var b1 := PushBack(b0, 0);
      var b2 := PushBack(b1, 1);
      var b3 := PushBack(b2, 2);
      var (x, b4) := PopFront(b3);
      var (y, b5) := PopFront(b4);
      && Elements(b1) == [0]
      && Elements(b2) == [0, 1]
      && Elements(b3) == [1, 2]
      && x == Some(1) && y == Some(2)
      && PopFront(b5).0 == None
  {
    var b0 := NewCircular<int>(2);
    var b1 := PushBack(b0, 0);
    assert Elements(b1) == [0];
    var b2 := PushBack(b1, 1);
    assert Elements(b2) == [0, 1];
    var b3 := PushBack(b2, 2);
    assert Elements(b3) == [1, 2];
    var (x, b4) := PopFront(b3);
    assert Elements(b4) == [2];
    var (y, b5) := PopFront(b4);
    assert b5.len == 0;
  }

  /** `test_rollover_circular_access` with CAP = 2, VCAP = 16: the reads
      after adding 0, then 1, then 2 (the buffers `Fill` leaves after one,
      two and three rounds). */
  method RolloverAccessScenario() returns (first0: Result<Option<int>, RollingBufError>,
                                           second0: Result<Option<int>, RollingBufError>,
                                           second1: Result<Option<int>, RollingBufError>,
                                           third2: Result<Option<int>, RollingBufError>,
                                           third0: Result<Option<int>, RollingBufError>,
                                           third3: Result<Option<int>, RollingBufError>)
    ensures first0 == Ok(Some(0))
    ensures second0 == Ok(Some(0)) && second1 == Ok(Some(1))
    ensures third2 == Ok(Some(2)) && third0 == Err(TooOld) && third3 == Err(OutOfBounds)
  {
    var rb1 := Fill(2, 16, 1);
    IndexOfWindow(rb1, 0);
    first0 := Index(rb1, 0);
    var rb2 := Fill(2, 16, 2);
    TwoSlotWindow(rb2, 0);
    second0, second1 := Index(rb2, 0), Index(rb2, 1);
    var rb3 := Fill(2, 16, 3);
    ThreeRounds(rb3);
    third2, third0, third3 := Index(rb3, 2), Index(rb3, 0), Index(rb3, 3);
  }

  /** What `index` answers on a buffer with CAP = 2, VCAP = 16 that stores
      exactly the true indices `[start, start + 2)`, each holding itself. */
  lemma TwoSlotWindow(rb: RollingBuf<int>, start: nat)
    requires RValid(rb) && rb.vcap == 16 && Cap(rb) == 2
    requires Start(rb) == start && rb.backing.len == 2
    requires forall u :: InWindow(rb, u) ==> SlotAt(rb, u) == Some(u)
    ensures Index(rb, Wrap(start, 16)) == Ok(Some(start))
    ensures Index(rb, Wrap(start + 1, 16)) == Ok(Some(start + 1))
  {
    IndexOfWindow(rb, start);
    IndexOfWindow(rb, start + 1);
  }

  lemma ThreeRounds(rb: RollingBuf<int>)
    requires RValid(rb) && rb.vcap == 16 && Cap(rb) == 2
    requires Start(rb) == 1 && rb.backing.len == 2
    requires forall u :: InWindow(rb, u) ==> SlotAt(rb, u) == Some(u)
    ensures Index(rb, 2) == Ok(Some(2))
    ensures Index(rb, 0) == Err(TooOld)
    ensures Index(rb, 3) == Err(OutOfBounds)
  {
    TwoSlotWindow(rb, 1);
    assert CalcTrueIndex(rb, 3) == Ok(3);
  }

  /** `test_rollover_wraparound`: after indices 0..=20 modulo 16, 18 is
      TooOld, 19 and 20 are present and 21 is OutOfBounds. */
  method RolloverWraparoundScenario() returns (r18: Result<Option<int>, RollingBufError>,
                                               r19: Result<Option<int>, RollingBufError>,
                                               r20: Result<Option<int>, RollingBufError>,
                                               r21: Result<Option<int>, RollingBufError>)
    ensures r18 == Err(TooOld)
    ensures r19 == Ok(Some(19)) && r20 == Ok(Some(20))
    ensures r21 == Err(OutOfBounds)
  {
    var rb := Fill(2, 16, 21);
    TwentyOneRounds(rb);
    r18, r19, r20, r21 := Index(rb, 18 % 16), Index(rb, 19 % 16), Index(rb, 20 % 16), Index(rb, 21 % 16);
  }

  lemma TwentyOneRounds(rb: RollingBuf<int>)
    requires RValid(rb) && rb.vcap == 16 && Cap(rb) == 2
    requires Start(rb) == 19 && rb.backing.len == 2
    requires forall u :: InWindow(rb, u) ==> SlotAt(rb, u) == Some(u)
    ensures Index(rb, 2) == Err(TooOld)
    ensures Index(rb, 3) == Ok(Some(19))
    ensures Index(rb, 4) == Ok(Some(20))
    ensures Index(rb, 5) == Err(OutOfBounds)
  {
    WrapPlusModulus(3, 16);
    WrapPlusModulus(4, 16);
    WrapPlusModulus(5, 16);
    TwoSlotWindow(rb, 19);
    assert CalcTrueIndex(rb, 5) == Ok(21);
  }

  /** Index 15 read after 0..=18 has been evicted, but the answer is
      OutOfBounds rather than TooOld. */
  method EvictedAcrossBlockScenario() returns (r15: Result<Option<int>, RollingBufError>)
    ensures r15 == Err(OutOfBounds)
  {
    var rb := Fill(2, 16, 19);
    NineteenRounds(rb);
    r15 := Index(rb, 15);
  }

  lemma NineteenRounds(rb: RollingBuf<int>)
    requires RValid(rb) && Start(rb) == 17 && rb.vcap == 16 && Cap(rb) == 2
    ensures Index(rb, 15) == Err(OutOfBounds)
  {
    assert RollingStart(rb) == 1;
    StaleAcrossBlockIsOutOfBounds(rb, 15);
  }

  /** `bad_cap`: CAP = 2 with VCAP = 4 is refused. */
  lemma BadCapScenario()
    ensures NewRolling<int>(2, 4).None?
    ensures NewRolling<int>(256, 4096).Some?
  {
  }
}
