/** A value that may be absent. */
module Optional {
  datatype Option<+T> = None | Some(value: T)
}

/** Octets. */
module Octets {
  type Byte = b: nat | b < 256
}

/** An erased position of a sequence, as std::list and std::vector erase leave it. */
module Sequences {
  function EraseAt<T>(s: seq<T>, i: nat): seq<T>
    requires i < |s|
  {
    s[..i] + s[i + 1..]
  }
}

/** Fixed-width arithmetic. */
module Words {
  /** An integer stored in a 32-bit int. */
  function ToInt32(x: int): int {
    (x + 0x8000_0000) % 0x1_0000_0000 - 0x8000_0000
  }

  const TWO_TO_64: nat := 0x1_0000_0000_0000_0000

  /** A number stored in a 64-bit unsigned counter: what is left of it after taking 2^64 away
      as often as it goes. */
  function Wrap(x: nat): (r: nat)
    ensures r < TWO_TO_64
  {
    if x < TWO_TO_64 then x else Wrap(x - TWO_TO_64)
  }

  /** That is the remainder modulo 2^64. */
  lemma {:induction false} WrapIsRemainder(x: nat) returns (q: nat)
    ensures x == q * TWO_TO_64 + Wrap(x)
  {
    if x < TWO_TO_64 {
      q := 0;
    } else {
      q := WrapIsRemainder(x - TWO_TO_64);
      q := q + 1;
    }
  }

  lemma {:induction false} WrapAdd(a: nat, b: nat)
    ensures Wrap(Wrap(a) + b) == Wrap(a + b)
    decreases a
  {
    if a >= TWO_TO_64 {
      WrapAdd(a - TWO_TO_64, b);
    }
  }

  /** A counter that held a wrapped total holds the next one after adding to it. */
  lemma WrapStep(counter: nat, total: nat, more: nat, next: nat, nextTotal: nat)
    requires counter == Wrap(total) && next == Wrap(counter + more) && nextTotal == total + more
    ensures next == Wrap(nextTotal)
  {
    WrapAdd(total, more);
  }
}
