/** The boolean operator that tags a path produced by combining shapes
    (render-wasm/src/shapes/bools.rs). */
module Bools {

  /** An unsigned 8-bit value, as passed in from the host. */
  type U8 = n: int | 0 <= n < 256

  datatype BoolType = Union | Difference | Intersection | Exclusion

  /** The default operator. */
  function Default(): (b: BoolType)
    ensures b.Union?
  {
    Union
  }

  /** The numeric tag of each operator in the host encoding: its position in
      the declaration order. */
  function Code(b: BoolType): (n: U8)
    ensures n < 4
  {
    match b
    case Union => 0
    case Difference => 1
    case Intersection => 2
    case Exclusion => 3
  }

  /** The host tag decoder. It never fails: an out-of-range tag decodes to the
      default operator instead of being rejected. */
  function FromU8(n: U8): (b: BoolType)
    ensures n < 4 ==> Code(b) == n
    ensures n >= 4 ==> b == Default()
  {
    match n
    case 0 => Union
    case 1 => Difference
    case 2 => Intersection
    case 3 => Exclusion
    case _ => Default()
  }

  /** Decoding the tag of any operator gives that operator back, so every
      operator is reachable from some tag. */
  lemma FromCode(b: BoolType)
    ensures FromU8(Code(b)) == b
  {
  }

  /** Exactly the tags 0, 1, 2 and 3 decode to the four operators in order. */
  lemma FromU8Table()
    ensures FromU8(0) == Union
    ensures FromU8(1) == Difference
    ensures FromU8(2) == Intersection
    ensures FromU8(3) == Exclusion
  {
  }

  /** `Union` comes out of the decoder exactly for tag 0 and every tag of 4
      or more; each other operator comes from exactly one tag. */
  lemma FromU8UnionIff(n: U8)
    ensures FromU8(n) == Union <==> (n == 0 || n >= 4)
    ensures FromU8(n) == Difference <==> n == 1
    ensures FromU8(n) == Intersection <==> n == 2
    ensures FromU8(n) == Exclusion <==> n == 3
  {
  }
}
