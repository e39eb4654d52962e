/** Shared vocabulary of the decoder: bytes, UTF-16 strings, the error
    taxonomy, failure-compatible results and little-endian integers. */
module WzBase {

  /** One byte of the memory-mapped archive or of the keystream. */
  newtype byte = x: int | 0 <= x < 256

  /** A decoded name or value: a sequence of UTF-16 code units (wzstring). */
  type WzString = seq<bv16>

  /** The keystream is byte-indexable at every offset; the archive's key
      object extends itself on demand, so it is a total function here. */
  type KeyStream = nat -> byte

  /** Why an operation cannot finish. The original aborts (assert(0)),
      dereferences null or reads past the mapping in these cases. */
  datatype Error =
    | OutOfRange      // a read past the end of the buffer, or a negative seek
    | MalformedData   // unknown type tag, extended class or string-block tag
    | InvalidPath     // ".." above the root
    | NodeNotFound    // missing child during path traversal
    | TooDeep         // nesting deeper than the model's recursion bound
    | DanglingLink    // a UOL node whose target was never resolved

  datatype Result<+T> = Ok(value: T) | Err(error: Error) {
    predicate IsFailure() { Err? }
    function PropagateFailure<U>(): Result<U> requires Err? { Err(error) }
    function Extract(): T requires Ok? { value }
  }

  datatype Option<+T> = None | Some(value: T)

  /** A value read at some position together with the position just after it. */
  datatype Decoded<+T> = Decoded(value: T, next: nat)

  /** Drops the position of a decoded result. */
  function ValueOf<T>(r: Result<Decoded<T>>): (v: Result<T>)
    ensures v.Ok? <==> r.Ok?
    ensures v.Ok? ==> v.value == r.value.value
    ensures v.Err? ==> v.error == r.error
  {
    match r
    case Ok(d) => Ok(d.value)
    case Err(e) => Err(e)
  }

  const TWO32: int := 0x1_0000_0000

  predicate IsI32(v: int) { -0x8000_0000 <= v < 0x8000_0000 }

  function Pow256(n: nat): (r: nat)
    ensures r > 0
  {
    if n == 0 then 1 else 256 * Pow256(n - 1)
  }

  /** The unsigned little-endian value of a byte string. */
  function LE(s: seq<byte>): nat
  {
    if s == [] then 0 else s[0] as nat + 256 * LE(s[1..])
  }

  lemma {:induction false} LEBound(s: seq<byte>)
    ensures LE(s) < Pow256(|s|)
  {
    if s != [] {
      LEBound(s[1..]);
    }
  }

  /** The n-byte little-endian encoding of u (taken modulo 256^n). */
  function LEBytes(u: nat, n: nat): (s: seq<byte>)
    ensures |s| == n
  {
    if n == 0 then [] else [(u % 256) as byte] + LEBytes(u / 256, n - 1)
  }

  /** Encoding an n-byte unsigned value and reading it back gives it back. */
  lemma {:induction false} LEBytesRoundTrip(u: nat, n: nat)
    requires u < Pow256(n)
    ensures LE(LEBytes(u, n)) == u
  {
    if n > 0 {
      LEBytesRoundTrip(u / 256, n - 1);
      var s := LEBytes(u, n);
      assert s[0] as nat == u % 256;
      assert s[1..] == LEBytes(u / 256, n - 1);
    }
  }

  /** Reinterprets one byte as a signed 8-bit value (i8). */
  function I8(b: byte): (v: int)
    ensures -128 <= v < 128
    ensures v % 256 == b as int
  {
    if b < 128 then b as int else b as int - 256
  }

  /** Reinterprets an unsigned 32-bit value as a signed one (i32). */
  function I32(u: nat): (v: int)
    requires u < TWO32
    ensures IsI32(v)
    ensures v % TWO32 == u
  {
    if u < 0x8000_0000 then u else u - TWO32
  }

  /** Signed 32-bit arithmetic: the two's-complement wrap of an exact
      result, which is the result itself when it fits. */
  function Wrap32(v: int): (r: int)
    ensures IsI32(r) && (r - v) % TWO32 == 0
    ensures IsI32(v) ==> r == v
  {
    I32(v % TWO32)
  }

  /** The two's-complement bit pattern of a signed 32-bit value. */
  lemma I32OfPattern(v: int)
    requires IsI32(v)
    ensures I32(v % TWO32) == v
  {
  }
}
