/** Types shared by the modules of the relay's model. */
module Prelude {

  datatype Option<+T> = None | Some(value: T)

  /** A byte of a payment, of a raw transaction or of saved state; `Octets` says it is one. */
  type Byte = int

  predicate Octets(s: seq<Byte>) {
    forall i :: 0 <= i < |s| ==> 0 <= s[i] < 256
  }

  const U64_MAX: nat := 0xffff_ffff_ffff_ffff

  function Min(a: int, b: int): (r: int) {
    if a <= b then a else b
  }

  function Max(a: int, b: int): (r: int) {
    if a < b then b else a
  }

  function SaturatingSub(a: nat, b: nat): (r: nat) {
    if a < b then 0 else a - b
  }

  predicate Distinct<T(==)>(s: seq<T>) {
    forall i, j :: 0 <= i < j < |s| ==> s[i] != s[j]
  }

  lemma Associates<T>(a: seq<T>, b: seq<T>, c: seq<T>)
    ensures a + (b + c) == (a + b) + c
  {
  }
}
