/** Small vocabulary shared by every model: optional values, fallible results, player keys
    and the saturating unsigned arithmetic of the implementation's `u64` counters. */
module Common {

  datatype Option<T> = None | Some(value: T)

  datatype Result<T, E> = Ok(value: T) | Err(error: E)

  /** A floating-point input: an exact real, or an infinity or not-a-number. */
  datatype Float = Finite(value: real) | NonFinite

  /** The identity every per-player structure is keyed by. */
  datatype PlayerKey = PlayerKey(region: nat, realm: nat, user: int)

  predicate ValidPlayer(k: PlayerKey) {
    k.region != 0 && k.realm != 0 && k.user > 0
  }

  const U64_MAX: nat := 0xFFFF_FFFF_FFFF_FFFF

  /** `u64::saturating_add` on counters that start within range. */
  function SatAdd(a: nat, b: nat): nat {
    if a + b <= U64_MAX then a + b else U64_MAX
  }

  /** `saturating_sub` on unsigned counters. */
  function SatSub(a: nat, b: nat): nat {
    if a >= b then a - b else 0
  }

  function Max(a: int, b: int): int {
    if a >= b then a else b
  }

  /** A subset has at most as many elements; a proper one has strictly fewer. */
  lemma SubsetSize<T>(a: set<T>, b: set<T>)
    requires a <= b
    ensures |a| <= |b|
    ensures a != b ==> |a| < |b|
  {
    if a != b {
      var x :| x in b && x !in a;
      SubsetSize(a, b - {x});
    } else {
    }
  }

  /** Pops what an acknowledgement covers off the front of a history ordered by `key`. */
  function DropThrough<T>(key: T -> nat, history: seq<T>, bound: nat): (rest: seq<T>)
    ensures |rest| <= |history|
  {
    if history != [] && key(history[0]) <= bound then DropThrough(key, history[1..], bound) else history
  }

  /** In a consecutively numbered history exactly the entries up to the bound are popped. */
  lemma {:induction false} DropThroughAt<T>(key: T -> nat, history: seq<T>, base: nat, bound: nat)
    requires forall i :: 0 <= i < |history| ==> key(history[i]) == base + 1 + i
    requires base <= bound <= base + |history|
    ensures DropThrough(key, history, bound) == history[bound - base..]
    decreases |history|
  {
    if history != [] && base < bound {
      DropThroughAt(key, history[1..], base + 1, bound);
      assert history[1..][bound - base - 1..] == history[bound - base..];
    } else if history != [] {
      assert history[0..] == history;
    }
  }
}
