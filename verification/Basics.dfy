/** Types and conversions that several models share. */
module Basics {

  datatype Option<T> = None | Some(value: T)

  type Byte = x: nat | x < 256 witness 0
  type Bytes = seq<Byte>

  /** The C conversion of an unsigned 32-bit number to int */
  function Signed(x: nat): int {
    if x < 0x8000_0000 then x else x - 0x1_0000_0000
  }

  /** strcpy, memcpy or a store through a pointer, within the buffer */
  function Written(bs: Bytes, at: nat, data: Bytes): (r: Bytes)
    ensures |r| == |bs|
  {
    seq(|bs|, i requires 0 <= i < |bs| => if at <= i < at + |data| then data[i - at] else bs[i])
  }

  method WriteAt(buf: array<Byte>, at: nat, data: Bytes)
    requires at + |data| <= buf.Length
    modifies buf
    ensures buf[..] == Written(old(buf[..]), at, data)
  {
    forall i | 0 <= i < |data| {
      buf[at + i] := data[i];
    }
  }
}
