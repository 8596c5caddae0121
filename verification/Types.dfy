// The values the cache stores, and the machine integers it stores them with.
module Types {
  const TWO_64: int := 0x1_0000_0000_0000_0000

  type U8 = n: int | 0 <= n <= 255
  type U64 = n: int | 0 <= n < TWO_64

  // What 64-bit arithmetic makes of a number. (The modulus is spelt out for the solver.)
  function Wrap(n: int): U64 {
    n % 0x1_0000_0000_0000_0000
  }

  // Equal as far as 64 bits can tell.
  predicate Congruent(a: int, b: int) {
    (a - b) % 0x1_0000_0000_0000_0000 == 0
  }

  // Wrapping at every step loses nothing against wrapping once at the end.
  lemma WrapLater(x: int, n: int, m: int)
    requires Congruent(n, m)
    ensures Wrap(Wrap(x) + n) == Wrap(x + m)
  {
  }

  datatype Option<+T> = None | Some(value: T)

  // A type-erased key: the identity of its concrete type, and the key itself.
  type TypeTag(==, !new)
  type Payload(==, !new)
  datatype Key = Key(tag: TypeTag, payload: Payload)

  // The type-erased cached value.
  type Value(!new)

  // A lower index is evicted later.
  datatype Policy = Critical | Standard | Volatile
  {
    function Index(): (i: nat)
      ensures i < 3
    {
      match this
      case Critical => 0
      case Standard => 1
      case Volatile => 2
    }
  }

  // The part of an entry that nothing changes while it is cached.
  datatype Core = Core(value: Value, size: U64, policy: Policy)

  // An entry at one moment: its fixed part, and the two signals of the clock.
  datatype EntryData = EntryData(core: Core, frequency: U8, clockBit: bool)
  {
    // A sweep evicts a cold entry and ages any other.
    predicate Cold() {
      !clockBit && frequency == 0
    }

    function Aged(): EntryData {
      if clockBit then this.(clockBit := false)
      else if frequency == 0 then this
      else this.(frequency := frequency - 1)
    }

    // A lookup sets the bit and counts up, saturating at 255.
    function Touched(): EntryData {
      this.(clockBit := true, frequency := if frequency < 255 then frequency + 1 else frequency)
    }

    // How many sweeps the entry can still be passed over in.
    function Heat(): nat {
      frequency + if clockBit then 1 else 0
    }
  }

  function Fresh(core: Core): EntryData {
    EntryData(core, 0, false)
  }
}
