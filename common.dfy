/** Values shared by both broadcaster variants. */
module Common {

  /** A piece of the audio byte stream. */
  type Bytes = seq<bv8>

  datatype Option<T> = None | Some(value: T)

  /** The pieces of a stream joined back together, in order. */
  function Flatten(cs: seq<Bytes>): Bytes
  {
    if cs == [] then [] else cs[0] + Flatten(cs[1..])
  }

  function Min(a: nat, b: nat): (r: nat)
    ensures r <= a && r <= b && (r == a || r == b)
  {
    if a <= b then a else b
  }
}
