/** Reading integers and length-prefixed vectors from the front of a byte sequence (crates/sni_router/src/protocol/reader.rs). */
module Cursor {
  import opened Wrappers
  import opened Bytes

  type Vector8 = s: seq<byte> | |s| < 0x100
  type Vector16 = s: seq<byte> | |s| < 0x1_0000

  /** What one read yields and what it leaves unread; a failed read may still have used its length prefix. */
  datatype Read<+T> = Read(value: Option<T>, rest: seq<byte>)

  function ReadBytes(s: seq<byte>, len: nat): Read<seq<byte>> {
    if |s| < len then Read(None, s) else Read(Some(s[..len]), s[len..])
  }

  function ReadU8(s: seq<byte>): Read<byte> {
    if |s| < 1 then Read(None, s) else Read(Some(s[0]), s[1..])
  }

  function ReadU16(s: seq<byte>): Read<u16> {
    if |s| < 2 then Read(None, s) else Read(Some(U16From(s[0], s[1])), s[2..])
  }

  function ReadVec8(s: seq<byte>): Read<seq<byte>> {
    var len := ReadU8(s);
    if len.value.None? then Read(None, len.rest) else ReadBytes(len.rest, len.value.value)
  }

  function ReadVec16(s: seq<byte>): Read<seq<byte>> {
    var len := ReadU16(s);
    if len.value.None? then Read(None, len.rest) else ReadBytes(len.rest, len.value.value)
  }

  class Reader {
    var remaining: seq<byte>

    constructor (bytes: seq<byte>)
      ensures remaining == bytes
    {
      remaining := bytes;
    }

    method Bytes(len: nat) returns (head: Option<seq<byte>>)
      modifies this
      ensures Read(head, remaining) == ReadBytes(old(remaining), len)
    {
      if |remaining| < len {
        return None;
      }
      head := Some(remaining[..len]);
      remaining := remaining[len..];
    }

    method U8() returns (value: Option<byte>)
      modifies this
      ensures Read(value, remaining) == ReadU8(old(remaining))
    {
      var b := Bytes(1);
      value := if b.Some? then Some(b.value[0]) else None;
    }

    method U16() returns (value: Option<u16>)
      modifies this
      ensures Read(value, remaining) == ReadU16(old(remaining))
    {
      var b := Bytes(2);
      value := if b.Some? then Some(U16From(b.value[0], b.value[1])) else None;
    }

    method Vec8() returns (bytes: Option<seq<byte>>)
      modifies this
      ensures Read(bytes, remaining) == ReadVec8(old(remaining))
    {
      var len := U8();
      if len.None? {
        return None;
      }
      bytes := Bytes(len.value);
    }

    method Vec16() returns (bytes: Option<seq<byte>>)
      modifies this
      ensures Read(bytes, remaining) == ReadVec16(old(remaining))
    {
      var len := U16();
      if len.None? {
        return None;
      }
      bytes := Bytes(len.value);
    }
  }

  // ----- Length-prefixed vectors ----------------------------------------------

  function Vec8(v: Vector8): seq<byte> {
    [|v|] + v
  }

  function Vec16(v: Vector16): seq<byte> {
    U16Bytes(|v|) + v
  }

  /** Reading a length-prefixed vector succeeds exactly on its encoding followed by the rest. */
  lemma Vec8Exactly(s: seq<byte>, v: seq<byte>, rest: seq<byte>)
    ensures ReadVec8(s) == Read(Some(v), rest) <==> |v| < 0x100 && s == Vec8(v) + rest
  {
    if ReadVec8(s) == Read(Some(v), rest) {
      assert s == [s[0]] + s[1..];
      assert s[1..] == v + rest;
    }
    if |v| < 0x100 && s == Vec8(v) + rest {
      assert s[1..] == v + rest;
    }
  }

  lemma Vec16Exactly(s: seq<byte>, v: seq<byte>, rest: seq<byte>)
    ensures ReadVec16(s) == Read(Some(v), rest) <==> |v| < 0x1_0000 && s == Vec16(v) + rest
  {
    if ReadVec16(s) == Read(Some(v), rest) {
      U16RoundTrip(s[0], s[1]);
      hide U16Bytes, U16From;
      assert s == [s[0], s[1]] + s[2..];
      assert s[2..] == v + rest;
    }
    if |v| < 0x1_0000 && s == Vec16(v) + rest {
      assert s[..2] == U16Bytes(|v|) && s[2..] == v + rest;
      assert U16From(s[0], s[1]) == |v|;
    }
  }
}
