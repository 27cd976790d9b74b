/** Go's value types as the tester uses them: bytes, byte strings, and the
    zero-filled slices that `make` produces. */
module GoTypes {

  /** A Go `byte` (`uint8`). */
  newtype byte = b: int | 0 <= b < 256

  /** A Go `string` is an immutable sequence of bytes; `[]byte(s)` is the identity on it. */
  type GoString = seq<byte>

  datatype Option<+T> = None | Some(value: T)

  datatype Result<+T, +E> = Ok(value: T) | Err(error: E)

  /** `n` zero bytes, as `make([]byte, n)` yields. */
  function Zeros(n: nat): (z: seq<byte>)
    ensures |z| == n
    ensures forall i | 0 <= i < n :: z[i] == 0
  {
    seq(n, i => 0)
  }

  /** The bytes of an ASCII string literal of the Go source. */
  function Ascii(s: string): (r: GoString)
    requires forall i | 0 <= i < |s| :: s[i] < 128 as char
    ensures |r| == |s|
    ensures forall i | 0 <= i < |s| :: r[i] as int == s[i] as int
  {
    seq(|s|, i requires 0 <= i < |s| => s[i] as int as byte)
  }
}
