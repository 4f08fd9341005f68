/** Fixed-width integers, the library's error conditions, network byte order,
    and the caller-owned byte vector that every serializer appends to. */
module Wire {

  newtype byte = x: int | 0 <= x < 0x100
  newtype u16 = x: int | 0 <= x < 0x1_0000
  newtype u32 = x: int | 0 <= x < 0x1_0000_0000

  /** The exceptions the codec raises. */
  datatype Error =
    | Truncated     // a fixed-width read or a label would run past the buffer
    | EofInName     // a name continues at or beyond the end of the buffer
    | TooManyJumps  // more than six compression pointers in one name
    | LabelTooLong  // a label of more than 63 bytes on the write side
    | InvalidName   // the domain-name validator rejected a question name

  datatype Result<T> = Ok(value: T) | Err(error: Error)

  datatype Option<T> = None | Some(value: T)

  /** What a serializer appended to the caller's buffer, and whether it
      returned normally (`ok`) or threw "label too long" after appending
      `bytes`. */
  datatype Output = Output(bytes: seq<byte>, ok: bool)

  /** Run `b` after `a`, unless `a` threw. */
  function Then(a: Output, b: Output): (r: Output)
    ensures a.ok ==> r.bytes == a.bytes + b.bytes && r.ok == b.ok
    ensures !a.ok ==> r == a
  {
    if a.ok then Output(a.bytes + b.bytes, b.ok) else a
  }

  /** Whatever the second part does, what the first part wrote stays at
      the front. */
  lemma ThenPrefix(a: Output, b: Output, n: nat)
    requires n <= |a.bytes|
    ensures |Then(a, b).bytes| >= n && Then(a, b).bytes[..n] == a.bytes[..n]
  {
    if a.ok {
      assert (a.bytes + b.bytes)[..n] == a.bytes[..n];
    }
  }

  /** Network byte order of a 16-bit value: high byte first. */
  function BigEndian16(v: u16): (r: seq<byte>)
    ensures |r| == 2 && r[0] as int * 0x100 + r[1] as int == v as int
  {
    [(v / 0x100) as byte, (v % 0x100) as byte]
  }

  /** Network byte order of a 32-bit value: most significant byte first. */
  function BigEndian32(v: u32): (r: seq<byte>)
    ensures |r| == 4
    ensures ((r[0] as int * 0x100 + r[1] as int) * 0x100 + r[2] as int) * 0x100 + r[3] as int == v as int
  {
    Digits32(v as int);
    [(v / 0x100_0000) as byte, (v / 0x1_0000 % 0x100) as byte, (v / 0x100 % 0x100) as byte, (v % 0x100) as byte]
  }

  /** The four base-256 digits of a 32-bit value. */
  lemma Digits32(v: int)
    requires 0 <= v < 0x1_0000_0000
    ensures 0 <= v / 0x100_0000 < 0x100
    ensures v / 0x1_0000 == v / 0x100_0000 * 0x100 + v / 0x1_0000 % 0x100
    ensures v / 0x100 == v / 0x1_0000 * 0x100 + v / 0x100 % 0x100
    ensures v == v / 0x100 * 0x100 + v % 0x100
  {
  }

  /** Four bytes read big-endian have those bytes as their digits. */
  lemma DigitsOf32(a: int, b: int, c: int, d: int)
    requires 0 <= a < 0x100 && 0 <= b < 0x100 && 0 <= c < 0x100 && 0 <= d < 0x100
    ensures var v := ((a * 0x100 + b) * 0x100 + c) * 0x100 + d;
      && 0 <= v < 0x1_0000_0000
      && v / 0x100_0000 == a && v / 0x1_0000 % 0x100 == b && v / 0x100 % 0x100 == c && v % 0x100 == d
  {
    var v := ((a * 0x100 + b) * 0x100 + c) * 0x100 + d;
    assert v / 0x100 == (a * 0x100 + b) * 0x100 + c;
    assert v / 0x1_0000 == a * 0x100 + b;
  }

  /** A std::string stores bytes: a Dafny string models one when every
      character is below 256. */
  predicate Narrow(s: string)
  {
    forall i :: 0 <= i < |s| ==> s[i] as int < 0x100
  }

  /** Storing a char into a uint8_t keeps its low eight bits. */
  function CharByte(c: char): byte
  {
    (c as int % 0x100) as byte
  }

  function ByteChar(b: byte): char
  {
    (b as int) as char
  }

  function Bytes(s: string): (r: seq<byte>)
    ensures |r| == |s| && forall i :: 0 <= i < |s| ==> r[i] == CharByte(s[i])
  {
    seq(|s|, i requires 0 <= i < |s| => CharByte(s[i]))
  }

  function Chars(bs: seq<byte>): (r: string)
    ensures |r| == |bs| && forall i :: 0 <= i < |bs| ==> r[i] == ByteChar(bs[i])
  {
    seq(|bs|, i requires 0 <= i < |bs| => ByteChar(bs[i]))
  }

  /** Reading back the bytes of a narrow string gives the string. */
  lemma CharsOfBytes(s: string)
    requires Narrow(s)
    ensures Chars(Bytes(s)) == s
  {
  }

  /** The caller's std::vector<uint8_t>, passed by reference to every
      serializer. */
  class ByteVector {
    var data: seq<byte>

    constructor ()
      ensures data == []
    {
      data := [];
    }

    /** push_back of one byte. */
    method PushBack(b: byte)
      modifies this
      ensures data == old(data) + [b]
    {
      data := data + [b];
    }

    /** insert(end(), ...) of a whole run of bytes. */
    method Insert(bs: seq<byte>)
      modifies this
      ensures data == old(data) + bs
    {
      data := data + bs;
    }
  }
}
