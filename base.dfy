/** Octets, the ASCII constants of the wire protocol, and an Option type. */
module Base {

  /** One octet of the byte stream. */
  newtype byte = x: int | 0 <= x < 256

  /** Text and wire data alike are octet sequences (Rust `&str` is UTF-8 bytes). */
  type Bytes = seq<byte>

  const CR: byte := 0x0D
  const LF: byte := 0x0A
  const SP: byte := 0x20
  const DQUOTE: byte := 0x22
  const BACKSLASH: byte := 0x5C
  const PLUS: byte := 0x2B

  /** CR LF, the line terminator of section 2.2.1 of RFC 3501. */
  const CRLF: Bytes := [CR, LF]

  datatype Option<T> = None | Some(value: T) {
    function GetOr(default: T): T {
      match this
      case Some(v) => v
      case None => default
    }
  }

  predicate IsAscii(s: string) {
    forall i | 0 <= i < |s| :: s[i] as int < 128
  }

  /** The octets of an ASCII string literal. */
  function Ascii(s: string): (r: Bytes)
    requires IsAscii(s)
    ensures |r| == |s|
    ensures forall i | 0 <= i < |s| :: r[i] as int == s[i] as int
  {
    if s == [] then [] else [s[0] as int as byte] + Ascii(s[1..])
  }

  lemma AppendAssociates<T>(a: seq<T>, b: seq<T>, c: seq<T>)
    ensures a + b + c == a + (b + c)
  {
  }
}
