/** Small vocabulary shared by the whole model. */
module Base {

  datatype Option<+T> = None | Some(value: T)

  /** The boot mode and boot type that the library's settings hold. */
  datatype Mode = Autoboot | Hostboot | Cronus

  datatype BootType = Normal | Mpipl

  /** An unsigned eight-bit value that takes part in no bit operation. */
  type Byte = x: int | 0 <= x < 256

  lemma Regroup<T>(a: seq<T>, b: seq<T>, c: seq<T>)
    ensures a + (b + c) == a + b + c
  {
  }
}
