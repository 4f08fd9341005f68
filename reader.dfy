/** ByteReader: bounds-checked big-endian reads over a const buffer, and the
    decoding of (possibly compressed) domain names, section 4.1.4 of RFC 1035. */
module Reader {
  import opened Wire
  import opened Bits

  /** The outcome of a read on a reader at position `pos`: what it returned
      or threw, and where the reader's index is afterwards. */
  datatype Read<T> = Read(result: Result<T>, pos: nat)

  /** The most compression pointers one name may follow. */
  const MAX_JUMPS: nat := 5

  function U8At(buf: seq<byte>, pos: nat): (r: Read<byte>)
    ensures r.result.Ok? <==> pos + 1 <= |buf|
    ensures r.result.Ok? ==> r.result.value == buf[pos] && r.pos == pos + 1
    ensures r.result.Err? ==> r.result.error == Truncated && r.pos == pos
  {
    if pos + 1 > |buf| then Read(Err(Truncated), pos) else Read(Ok(buf[pos]), pos + 1)
  }

  function U16At(buf: seq<byte>, pos: nat): (r: Read<u16>)
    ensures r.result.Ok? <==> pos + 2 <= |buf|
    ensures r.result.Ok? ==> r.pos == pos + 2
    ensures r.result.Err? ==> r.result.error == Truncated && r.pos == pos
  {
    if pos + 2 > |buf| then Read(Err(Truncated), pos)
    else Read(Ok((buf[pos] as int * 0x100 + buf[pos + 1] as int) as u16), pos + 2)
  }

  function U32At(buf: seq<byte>, pos: nat): (r: Read<u32>)
    ensures r.result.Ok? <==> pos + 4 <= |buf|
    ensures r.result.Ok? ==> r.pos == pos + 4
    ensures r.result.Err? ==> r.result.error == Truncated && r.pos == pos
  {
    if pos + 4 > |buf| then Read(Err(Truncated), pos)
    else
      var v := ((buf[pos] as int * 0x100 + buf[pos + 1] as int) * 0x100 + buf[pos + 2] as int) * 0x100 + buf[pos + 3] as int;
      Read(Ok(v as u32), pos + 4)
  }

  /** A 16-bit read gives the value whose network byte order is the two
      bytes read. */
  lemma U16AtBytes(buf: seq<byte>, pos: nat)
    ensures U16At(buf, pos).result.Ok? ==> BigEndian16(U16At(buf, pos).result.value) == buf[pos..pos + 2]
  {
  }

  /** A 32-bit read gives the value whose network byte order is the four
      bytes read. */
  lemma U32AtBytes(buf: seq<byte>, pos: nat)
    ensures U32At(buf, pos).result.Ok? ==> BigEndian32(U32At(buf, pos).result.value) == buf[pos..pos + 4]
  {
    if pos + 4 <= |buf| {
      DigitsOf32(buf[pos] as int, buf[pos + 1] as int, buf[pos + 2] as int, buf[pos + 3] as int);
    }
  }

  /** A length byte whose two top bits are both set, (len & 0xC0) == 0xC0,
      introduces a pointer. */
  predicate IsPointer(len: byte)
  {
    len as int / 0x40 == 3
  }

  /** `len & 0xC0` keeps the two top bits of the byte, so the pointer test
      is the source's mask test. */
  lemma PointerMask(len: byte)
    ensures And(len as nat, 0xC0) == len as nat / 0x40 * 0x40
    ensures IsPointer(len) <==> And(len as nat, 0xC0) == 0xC0
  {
    var a := len as nat;
    AndEven(a, 0x60);
    AndEven(a / 2, 0x30);
    AndEven(a / 4, 0x18);
    AndEven(a / 8, 0x0C);
    AndEven(a / 16, 0x06);
    AndEven(a / 32, 0x03);
    assert a / 2 / 2 == a / 4 && a / 4 / 2 == a / 8 && a / 8 / 2 == a / 16;
    assert a / 16 / 2 == a / 32 && a / 32 / 2 == a / 64;
    var top := a / 64;
    assert top < 4;
    assert And(top, 3) == top by {
      if top == 0 {
      } else if top == 1 {
        assert And(1, 3) == 1 + 2 * And(0, 1);
      } else if top == 2 {
        assert And(2, 3) == 2 * And(1, 1);
        assert And(1, 1) == 1 + 2 * And(0, 0);
      } else {
        assert And(3, 3) == 1 + 2 * And(1, 1);
        assert And(1, 1) == 1 + 2 * And(0, 0);
      }
    }
  }

  /** A mask whose low bit is clear halves the word: `a & 2b` is
      `(a >> 1 & b) << 1`. */
  lemma AndEven(a: nat, b: nat)
    requires b > 0
    ensures And(a, 2 * b) == 2 * And(a / 2, b)
  {
  }

  /** Appending a label to the name decoded so far: labels are joined by
      single dots, with no dot before the first. */
  function AddLabel(domain: string, lbl: string): string
  {
    (if domain == "" then "" else domain + ".") + lbl
  }

  /** The variables of readDomain's loop: the index, the name so far, the
      return position remembered at the first jump (if any) and the number of
      jumps taken. */
  datatype NameState = NameState(index: nat, domain: string, jumpReturn: Option<nat>, jumps: nat)

  /** One pass of the loop either leaves it, with the result and the final
      index, or continues from a new state. */
  datatype NameStep = Done(read: Read<string>) | Next(state: NameState)

  /** One pass of readDomain's loop. Every pass that continues either
      consumes a label, moving the index forward without passing the end of
      the buffer, or follows a pointer, using up one of the jumps. */
  function Step(buf: seq<byte>, s: NameState): (r: NameStep)
    requires s.jumps <= MAX_JUMPS + 1
    ensures r.Next? ==> r.state.jumps <= MAX_JUMPS + 1
    ensures r.Next? ==> r.state.jumps == s.jumps + 1 || (r.state.jumps == s.jumps && s.index < r.state.index <= |buf|)
  {
    if s.index >= |buf| then Done(Read(Err(EofInName), s.index))
    else
      var len := buf[s.index];
      if len == 0 then
        Done(Read(Ok(s.domain), if s.jumpReturn.Some? then s.jumpReturn.value else s.index + 1))
      else if IsPointer(len) then
        if s.jumps > MAX_JUMPS then Done(Read(Err(TooManyJumps), s.index))
        else if s.index + 2 > |buf| then Done(Read(Err(Truncated), s.index))
        else
          var offset := (len as int % 0x40) * 0x100 + buf[s.index + 1] as int;
          var back := if s.jumpReturn.None? then Some(s.index + 2) else s.jumpReturn;
          Next(NameState(offset, s.domain, back, s.jumps + 1))
      else if s.index + 1 + len as int > |buf| then Done(Read(Err(Truncated), s.index + 1))
      else
        var lbl := Chars(buf[s.index + 1..s.index + 1 + len as int]);
        Next(NameState(s.index + 1 + len as int, AddLabel(s.domain, lbl), s.jumpReturn, s.jumps))
  }

  /** readDomain's loop run to its end from state `s`. */
  function ReadName(buf: seq<byte>, s: NameState): Read<string>
    requires s.jumps <= MAX_JUMPS + 1
    decreases MAX_JUMPS + 1 - s.jumps, |buf| - s.index
  {
    match Step(buf, s)
    case Done(r) => r
    case Next(t) => ReadName(buf, t)
  }

  /** readDomain called with the reader at `pos`: a name read without
      error leaves the reader past at least one byte. */
  function NameAt(buf: seq<byte>, pos: nat): (r: Read<string>)
    ensures r.result.Ok? ==> r.pos > pos
  {
    var s := NameState(pos, "", None, 0);
    if ReadName(buf, s).result.Ok? then
      ReadNameAdvances(buf, s);
      ReadName(buf, s)
    else ReadName(buf, s)
  }

  /** Only the 0xC0 prefix is special: every length byte below 0xC0 other
      than zero, 0x40 to 0xBF included, is an ordinary label length. */
  lemma PointerTag(len: byte)
    ensures IsPointer(len) <==> len >= 0xC0
  {
  }

  /** Once a pointer has been followed, the name ends with the reader two
      bytes past that first pointer, whatever later pointers do. */
  lemma {:induction false} JumpReturnIsFinal(buf: seq<byte>, s: NameState)
    requires s.jumps <= MAX_JUMPS + 1 && s.jumpReturn.Some?
    requires ReadName(buf, s).result.Ok?
    ensures ReadName(buf, s).pos == s.jumpReturn.value
    decreases MAX_JUMPS + 1 - s.jumps, |buf| - s.index
  {
    match Step(buf, s)
    case Done(r) =>
    case Next(t) => JumpReturnIsFinal(buf, t);
  }

  /** Before any jump, a name read without error ends beyond the index it
      started from. */
  lemma {:induction false} ReadNameAdvances(buf: seq<byte>, s: NameState)
    requires s.jumps <= MAX_JUMPS + 1 && s.jumpReturn.None?
    requires ReadName(buf, s).result.Ok?
    ensures ReadName(buf, s).pos > s.index
    decreases MAX_JUMPS + 1 - s.jumps, |buf| - s.index
  {
    match Step(buf, s)
    case Done(r) =>
    case Next(t) =>
      if t.jumpReturn.Some? {
        JumpReturnIsFinal(buf, t);
      } else {
        ReadNameAdvances(buf, t);
      }
  }

  /** Meeting the first pointer at index p: the name read from there ends
      with the reader at p + 2. */
  lemma FirstPointerReturn(buf: seq<byte>, s: NameState)
    requires s.jumps <= MAX_JUMPS + 1 && s.jumpReturn.None?
    requires s.index < |buf| && IsPointer(buf[s.index])
    requires ReadName(buf, s).result.Ok?
    ensures ReadName(buf, s).pos == s.index + 2
  {
    JumpReturnIsFinal(buf, Step(buf, s).state);
  }

  /** A name that points to itself is cut off: six jumps are taken and the
      seventh throws, so decoding ends on every input. */
  lemma SelfPointerRejected()
    ensures NameAt([0xC0, 0x00], 0) == Read(Err(TooManyJumps), 0)
  {
    var buf: seq<byte> := [0xC0, 0x00];
    assert ReadName(buf, NameState(0, "", Some(2), 6)) == Read(Err(TooManyJumps), 0);
    assert ReadName(buf, NameState(0, "", Some(2), 5)) == Read(Err(TooManyJumps), 0);
    assert ReadName(buf, NameState(0, "", Some(2), 4)) == Read(Err(TooManyJumps), 0);
    assert ReadName(buf, NameState(0, "", Some(2), 3)) == Read(Err(TooManyJumps), 0);
    assert ReadName(buf, NameState(0, "", Some(2), 2)) == Read(Err(TooManyJumps), 0);
    assert ReadName(buf, NameState(0, "", Some(2), 1)) == Read(Err(TooManyJumps), 0);
  }

  /** When a pass of readDomain's loop throws, and what: a read at or past
      the end is EOF, a pointer beyond the jump limit is TooManyJumps, and a
      pointer cut by the end of the buffer, or a label running past it, is
      Truncated. No other pass throws. */
  lemma StepThrows(buf: seq<byte>, s: NameState)
    requires s.jumps <= MAX_JUMPS + 1
    ensures s.index >= |buf| ==> ReadName(buf, s) == Read(Err(EofInName), s.index)
    ensures s.index < |buf| && buf[s.index] >= 0xC0 && s.jumps > MAX_JUMPS
      ==> ReadName(buf, s) == Read(Err(TooManyJumps), s.index)
    ensures s.index < |buf| && buf[s.index] >= 0xC0 && s.jumps <= MAX_JUMPS && s.index + 2 > |buf|
      ==> ReadName(buf, s) == Read(Err(Truncated), s.index)
    ensures s.index < |buf| && 0 < buf[s.index] < 0xC0 && s.index + 1 + buf[s.index] as int > |buf|
      ==> ReadName(buf, s) == Read(Err(Truncated), s.index + 1)
    ensures (Step(buf, s).Done? && Step(buf, s).read.result.Err?) <==>
      || s.index >= |buf|
      || (buf[s.index] >= 0xC0 && (s.jumps > MAX_JUMPS || s.index + 2 > |buf|))
      || (0 < buf[s.index] < 0xC0 && s.index + 1 + buf[s.index] as int > |buf|)
  {
    if s.index < |buf| {
      PointerTag(buf[s.index]);
    }
  }

  /** Reading a name at or past the end of the buffer throws EOF. */
  lemma NameEof(buf: seq<byte>, pos: nat)
    requires pos >= |buf|
    ensures NameAt(buf, pos) == Read(Err(EofInName), pos)
  {
    StepThrows(buf, NameState(pos, "", None, 0));
  }

  /** A label whose length byte announces more bytes than remain throws
      Truncated, with the reader just past the length byte. */
  lemma LabelPastEnd(buf: seq<byte>, pos: nat)
    requires pos < |buf| && 0 < buf[pos] < 0xC0 && pos + 1 + buf[pos] as int > |buf|
    ensures NameAt(buf, pos) == Read(Err(Truncated), pos + 1)
  {
    StepThrows(buf, NameState(pos, "", None, 0));
  }

  /** A pointer whose second byte is missing throws Truncated. */
  lemma PointerCut(buf: seq<byte>, pos: nat)
    requires pos + 1 == |buf| && buf[pos] >= 0xC0
    ensures NameAt(buf, pos) == Read(Err(Truncated), pos)
  {
    StepThrows(buf, NameState(pos, "", None, 0));
  }

  /** A pointer to an offset at or past the end of the buffer is followed,
      and the read there throws EOF with the reader at that offset. */
  lemma JumpPastEnd(buf: seq<byte>, pos: nat)
    requires pos + 2 <= |buf| && buf[pos] >= 0xC0
    requires (buf[pos] as int % 0x40) * 0x100 + buf[pos + 1] as int >= |buf|
    ensures NameAt(buf, pos) == Read(Err(EofInName), (buf[pos] as int % 0x40) * 0x100 + buf[pos + 1] as int)
  {
    var o := (buf[pos] as int % 0x40) * 0x100 + buf[pos + 1] as int;
    PointerTag(buf[pos]);
    var t := NameState(o, "", Some(pos + 2), 1);
    assert Step(buf, NameState(pos, "", None, 0)) == Next(t);
    StepThrows(buf, t);
  }

  /** A bare zero byte is the empty name. */
  lemma EmptyName(buf: seq<byte>, pos: nat)
    requires pos < |buf| && buf[pos] == 0
    ensures NameAt(buf, pos) == Read(Ok(""), pos + 1)
  {
  }

  /** The buffer it reads is held by const reference: no reader operation
      changes it, and its index may be set anywhere. */
  class ByteReader {
    const buffer: seq<byte>
    var index: nat

    constructor (buff: seq<byte>)
      ensures buffer == buff && index == 0
    {
      buffer := buff;
      index := 0;
    }

    function Position(): (p: nat)
      reads this
      ensures p == index
    {
      index
    }

    /** Stores any position, with no bounds check: a bad position fails only
        at the next read. */
    method SetPosition(pos: nat)
      modifies this
      ensures index == pos
    {
      index := pos;
    }

    function GetBuffer(): (b: seq<byte>)
      ensures b == buffer
    {
      buffer
    }

    /** True when reading `n` bytes from here stays inside the buffer. */
    predicate CheckBounds(n: nat)
      reads this
      ensures CheckBounds(n) <==> index <= |buffer| && n <= |buffer[index..]|
    {
      index + n <= |buffer|
    }

    method ReadU8() returns (r: Result<byte>)
      modifies this
      ensures Read(r, index) == U8At(buffer, old(index))
    {
      if !CheckBounds(1) {
        return Err(Truncated);
      }
      r := Ok(buffer[index]);
      index := index + 1;
    }

    method ReadU16() returns (r: Result<u16>)
      modifies this
      ensures Read(r, index) == U16At(buffer, old(index))
    {
      if !CheckBounds(2) {
        return Err(Truncated);
      }
      var value := buffer[index] as int;
      value := value * 0x100;
      value := value + buffer[index + 1] as int;
      index := index + 2;
      r := Ok(value as u16);
    }

    method ReadU32() returns (r: Result<u32>)
      modifies this
      ensures Read(r, index) == U32At(buffer, old(index))
    {
      if !CheckBounds(4) {
        return Err(Truncated);
      }
      var value := buffer[index] as int * 0x100_0000;
      value := value + buffer[index + 1] as int * 0x1_0000;
      value := value + buffer[index + 2] as int * 0x100;
      value := value + buffer[index + 3] as int;
      index := index + 4;
      r := Ok(value as u32);
    }

    /** The inner loop of readDomain: append the next `len` bytes, one
        character each, to the name being built. */
    method CopyLabel(domain: string, len: nat) returns (d: string)
      requires CheckBounds(len)
      modifies this
      ensures index == old(index) + len
      ensures d == domain + Chars(buffer[old(index)..index])
    {
      d := domain;
      ghost var start := index;
      for i := 0 to len
        invariant index == start + i
        invariant d == domain + Chars(buffer[start..index])
      {
        assert Chars(buffer[start..index + 1]) == Chars(buffer[start..index]) + [ByteChar(buffer[index])];
        d := d + [ByteChar(buffer[index])];
        index := index + 1;
      }
    }

    method ReadDomain() returns (r: Result<string>)
      modifies this
      ensures Read(r, index) == NameAt(buffer, old(index))
    {
      var domain := "";
      var jumped := false;
      var jumpReturnPos: nat := 0;
      var jumpsCount: nat := 0;
      ghost var goal := NameAt(buffer, index);

      while true
        invariant jumpsCount <= MAX_JUMPS + 1
        invariant ReadName(buffer, NameState(index, domain, if jumped then Some(jumpReturnPos) else None, jumpsCount)) == goal
        decreases MAX_JUMPS + 1 - jumpsCount, |buffer| - index
      {
        ghost var s := NameState(index, domain, if jumped then Some(jumpReturnPos) else None, jumpsCount);
        if index >= |buffer| {
          return Err(EofInName);
        }
        var len := buffer[index];
        if len == 0 {
          index := index + 1;
          break;
        }
        if IsPointer(len) {
          if jumpsCount > MAX_JUMPS {
            return Err(TooManyJumps);
          }
          jumpsCount := jumpsCount + 1;
          if !CheckBounds(2) {
            return Err(Truncated);
          }
          var offset := (len as int % 0x40) * 0x100 + buffer[index + 1] as int;
          if !jumped {
            jumpReturnPos := index + 2;
          }
          index := offset;
          jumped := true;
          assert Step(buffer, s) == Next(NameState(index, domain, Some(jumpReturnPos), jumpsCount));
          continue;
        }
        index := index + 1;
        if !CheckBounds(len as nat) {
          return Err(Truncated);
        }
        if domain != "" {
          domain := domain + ".";
        }
        domain := CopyLabel(domain, len as nat);
        assert Step(buffer, s) == Next(NameState(index, domain, s.jumpReturn, jumpsCount));
      }
      if jumped {
        index := jumpReturnPos;
      }
      return Ok(domain);
    }
  }
}
