/** What the modules of this project share. */
module Common {

  datatype Option<+T> = None | Some(value: T)

  datatype Result<+T> = Ok(value: T) | Err(error: string)

  /** The first number an int64 cannot hold. */
  const LIMIT64 := 0x8000_0000_0000_0000

  const MAX_PORT := 65535

  lemma SubsetSize<T>(a: set<T>, b: set<T>)
    requires a <= b
    ensures |a| <= |b|
  {
    assert b == a + (b - a);
  }
}
