/** Types shared by every module of the model. */
module Prelude {

  /** An octet, for the binary codecs. Text (Redis keys, hash fields, JSON,
      decimal numbers) is `string`: each char stands for the octet of the same
      value, and the statements hold for every char. */
  type byte = x: int | 0 <= x < 256

  type bytes = seq<byte>

  datatype Option<+T> = None | Some(value: T)

  /** NGX_OK with a value, NGX_DECLINED, NGX_ERROR. */
  datatype Rc<+T> = Ok(value: T) | Declined | Error

  /** What became of a Redis command: applied and answered, applied but the
      reply was lost, or never applied. */
  datatype Outcome = Done | Lost | Failed

  /** Octets of an authenticator's AAGUID. */
  const AAGUID_LEN := 16

  const INT64_MIN := -0x8000_0000_0000_0000
  const INT64_MAX := 0x7fff_ffff_ffff_ffff
  const UINT32_MAX := 0xffff_ffff
  const INT32_MIN := -0x8000_0000
  const INT32_MAX := 0x7fff_ffff

  type uint32 = x: int | 0 <= x <= UINT32_MAX

  type int64 = x: int | INT64_MIN <= x <= INT64_MAX

  newtype uint64 = x: int | 0 <= x < 0x1_0000_0000_0000_0000

  /** The two's-complement reading of the low 64 bits of x: what a C cast to
      int64_t, or a wrapping int64_t operation, leaves. */
  function AsInt64(x: int): (r: int)
    ensures INT64_MIN <= r <= INT64_MAX
    ensures INT64_MIN <= x <= INT64_MAX ==> r == x
  {
    var low := x % 0x1_0000_0000_0000_0000;
    if low <= INT64_MAX then low else low - 0x1_0000_0000_0000_0000
  }

  /** Text as octets and back; the inverse of each other on octets. */
  function OctetsOf(s: string): (b: bytes)
    ensures |b| == |s|
  {
    seq(|s|, i requires 0 <= i < |s| => s[i] as int % 256)
  }

  function TextOf(b: bytes): (s: string)
    ensures |s| == |b| && OctetsOf(s) == b
  {
    seq(|b|, i requires 0 <= i < |b| => b[i] as char)
  }
}
