/** Shared vocabulary: optional values, results, the aborts the engine can
    raise, and the fixed-width unsigned arithmetic its counters use. */
module Common {

  /** The conventional Some/None datatype. */
  datatype Option<+T> = None | Some(value: T) {
    function GetOr(default: T): T {
      match this
      case Some(v) => v
      case None => default
    }
  }

  /** Either a value or an error, usable with `:-`. */
  datatype Result<+T, +E> = Ok(value: T) | Err(error: E) {
    predicate IsFailure() {
      Err?
    }

    function PropagateFailure<U>(): Result<U, E>
      requires Err?
    {
      Err(error)
    }

    function Extract(): T
      requires Ok?
    {
      value
    }
  }

  /** The ways in which the engine aborts (a Rust panic): each names the
      failed `assert!`, `unwrap()` or `unreachable!()` of the source. */
  datatype Fault =
    | DoubleFree          // token generation differs from the pool's
    | UnknownKey          // a key beyond the pool's generation table
    | KeysExhausted       // the pool already holds 2^32 keys
    | UnknownToken        // a token that is not in the realm's ent_map
    | MissingEntity       // an entity handle that is not in the world
    | NotReplicated       // an entity without the Replicated component
    | MissingComponent    // removing a component the entity does not have
    | UnreachablePatch    // a Remove patch inside a Spawn
    | NoToken             // a key diff with neither an old nor a new token

  const U32_LIMIT: int := 0x1_0000_0000
  const U32_MAX: int := U32_LIMIT - 1

  type u32 = x: int | 0 <= x < U32_LIMIT

  /** `Wrapping<u32> + Wrapping(1)`. */
  function WrappingIncrement(x: u32): (r: u32)
    ensures x < U32_MAX ==> r == x + 1
    ensures x == U32_MAX ==> r == 0
  {
    (x + 1) % U32_LIMIT
  }

  /** `u32::saturating_add`. */
  function SaturatingAdd(a: u32, b: u32): (r: u32)
    ensures a + b <= U32_MAX ==> r == a + b
    ensures a + b > U32_MAX ==> r == U32_MAX
    ensures a <= r && b <= r
  {
    if a + b <= U32_MAX then a + b else U32_MAX
  }

  /** `BTreeMap::get`. */
  function Lookup<K, V>(m: map<K, V>, k: K): (r: Option<V>)
    ensures r.Some? <==> k in m
    ensures r.Some? ==> r.value == m[k]
  {
    if k in m then Some(m[k]) else None
  }

  function Min(a: int, b: int): int {
    if a <= b then a else b
  }

  function Max(a: int, b: int): int {
    if a <= b then b else a
  }
}
