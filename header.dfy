/** The 12-byte message header, section 4.1.1 of RFC 1035: the id, the flag
    word with its masks (AD and CD from section 3.2 of RFC 4035), and the
    four section counts. */
module Header {
  import opened Wire
  import opened Reader
  import opened Writer
  import opened Text
  import opened Bits

  /** The flag word's bits, counted from the least significant: each
      single-bit mask of the source is `1 << bit`; OPCODE_MASK is the
      four bits 11 to 14 and RCODE_MASK the four bits 0 to 3. */
  const QR_BIT: nat := 15
  const AA_BIT: nat := 10
  const TC_BIT: nat := 9
  const RD_BIT: nat := 8
  const RA_BIT: nat := 7
  const AD_BIT: nat := 5
  const CD_BIT: nat := 4
  const OPCODE_SHIFT: nat := 11
  const RCODE_SHIFT: nat := 0
  const CODE_WIDTH: nat := 4

  /** OPCODE and RCODE are 8-bit enumerations; these are their named values,
      but a cast can produce any byte. */
  const OPCODE_QUERY: byte := 0
  const OPCODE_IQUERY: byte := 1
  const OPCODE_STATUS: byte := 2
  const RCODE_NOERROR: byte := 0
  const RCODE_FORMATERROR: byte := 1
  const RCODE_SERVERFAILURE: byte := 2
  const RCODE_NAMEERROR: byte := 3
  const RCODE_NOTIMPLEMENTED: byte := 4
  const RCODE_REFUSED: byte := 5

  /** The getters' `flags & mask` converted to bool. */
  predicate Has(flags: u16, bit: nat)
  {
    Bit(flags as nat, bit)
  }

  /** A boolean setter: `flags | mask` when on, `flags & ~mask` when off. */
  function SetFlag(flags: u16, bit: nat, on: bool): (r: u16)
    requires bit < 16
    ensures Has(r, bit) == on
    ensures forall j: nat :: j != bit ==> Has(r, j) == Has(flags, j)
  {
    Pow2Values();
    SetBitBelow(flags as nat, bit, on, 16);
    SetBit(flags as nat, bit, on) as u16
  }

  /** opcode(): `(flags & OPCODE_MASK) >> 11`, the four bits 11 to 14
      moved down to bits 0 to 3. */
  function OpcodeOf(flags: u16): (r: byte)
    ensures r < 16
    ensures forall j: nat :: OPCODE_SHIFT <= j < OPCODE_SHIFT + CODE_WIDTH ==> (Has(flags, j) <==> Bit(r as nat, j - OPCODE_SHIFT))
  {
    Pow2Values();
    FieldBits(flags as nat, OPCODE_SHIFT, CODE_WIDTH);
    Field(flags as nat, OPCODE_SHIFT, CODE_WIDTH) as byte
  }

  /** rcode(): `flags & RCODE_MASK`, the four low bits. */
  function RcodeOf(flags: u16): (r: byte)
    ensures r < 16
    ensures forall j: nat :: j < CODE_WIDTH ==> (Bit(r as nat, j) <==> Has(flags, j))
  {
    Pow2Values();
    FieldBits(flags as nat, RCODE_SHIFT, CODE_WIDTH);
    Field(flags as nat, RCODE_SHIFT, CODE_WIDTH) as byte
  }

  /** setOpcode: clear the opcode field, then or in `(op << 11) & OPCODE_MASK`;
      only the low four bits of `op` survive, and no bit outside the field
      moves. */
  function WithOpcode(flags: u16, op: byte): (r: u16)
    ensures OpcodeOf(r) as int == op as int % 16
    ensures forall j: nat :: (j < OPCODE_SHIFT || j >= OPCODE_SHIFT + CODE_WIDTH) ==> Has(r, j) == Has(flags, j)
  {
    Pow2Values();
    SetFieldBelow(flags as nat, OPCODE_SHIFT, CODE_WIDTH, op as nat, 16);
    Low4(op as nat);
    SetField(flags as nat, OPCODE_SHIFT, CODE_WIDTH, op as nat) as u16
  }

  /** setRcode: clear the low four bits, then or in `rc & RCODE_MASK`. */
  function WithRcode(flags: u16, rc: byte): (r: u16)
    ensures RcodeOf(r) as int == rc as int % 16
    ensures forall j: nat :: j >= RCODE_SHIFT + CODE_WIDTH ==> Has(r, j) == Has(flags, j)
  {
    Pow2Values();
    SetFieldBelow(flags as nat, RCODE_SHIFT, CODE_WIDTH, rc as nat, 16);
    Low4(rc as nat);
    SetField(flags as nat, RCODE_SHIFT, CODE_WIDTH, rc as nat) as u16
  }

  /** The header's value: what serialize writes and toString prints. */
  datatype HeaderFields = HeaderFields(id: u16, flags: u16, qdCount: u16, anCount: u16, nsCount: u16, arCount: u16)

  /** serialize: the six fields in order, each big-endian. */
  function HeaderBytes(h: HeaderFields): (r: seq<byte>)
    ensures |r| == 12
  {
    BigEndian16(h.id) + BigEndian16(h.flags) + BigEndian16(h.qdCount)
      + BigEndian16(h.anCount) + BigEndian16(h.nsCount) + BigEndian16(h.arCount)
  }

  /** toString: id, flags and the four counts in decimal, one per line. */
  function HeaderText(h: HeaderFields): string
  {
    "id: " + Decimal(h.id as nat) + "\n"
      + ("flags: " + Decimal(h.flags as nat) + "\n"
      + ("qdcount: " + Decimal(h.qdCount as nat) + "\n"
      + ("ancount: " + Decimal(h.anCount as nat) + "\n"
      + ("nscount: " + Decimal(h.nsCount as nat) + "\n"
      + ("arcount: " + Decimal(h.arCount as nat))))))
  }

  /** A flag word is determined by its sixteen bits. */
  lemma FlagsDetermined(f: u16, g: u16)
    requires forall j: nat :: j < 16 ==> Has(f, j) == Has(g, j)
    ensures f == g
  {
    Pow2Values();
    var v, w := f as nat, g as nat;
    forall j: nat | j < 16
      ensures Bit(v, j) == Bit(w, j)
    {
      assert Has(f, j) == Has(g, j);
    }
    BitsDetermine(v, w, 16);
  }

  /** The source's masks: each single-bit mask is `1 << bit`, OPCODE_MASK
      `0xF << 11` is bits 11 to 14 and RCODE_MASK `0x000F` bits 0 to 3. */
  lemma MaskValues()
    ensures Pow2(QR_BIT) == 0x8000 && Pow2(AA_BIT) == 0x400 && Pow2(TC_BIT) == 0x200
    ensures Pow2(RD_BIT) == 0x100 && Pow2(RA_BIT) == 0x80 && Pow2(AD_BIT) == 0x20 && Pow2(CD_BIT) == 0x10
    ensures (Pow2(CODE_WIDTH) - 1) * Pow2(OPCODE_SHIFT) == 0x7800
    ensures (Pow2(CODE_WIDTH) - 1) * Pow2(RCODE_SHIFT) == 0xF
  {
    assert Pow2(1) == 2 && Pow2(2) == 4 && Pow2(3) == 8 && Pow2(4) == 0x10;
    assert Pow2(5) == 0x20 && Pow2(6) == 0x40 && Pow2(7) == 0x80 && Pow2(8) == 0x100;
    assert Pow2(9) == 0x200 && Pow2(10) == 0x400 && Pow2(11) == 0x800;
    assert Pow2(12) == 0x1000 && Pow2(13) == 0x2000 && Pow2(14) == 0x4000 && Pow2(15) == 0x8000;
  }

  /** A boolean setter is `flags | mask` when its argument is true and
      `flags & ~mask` on sixteen bits when it is false. */
  lemma SetFlagIsMaskOp(f: u16, bit: nat)
    requires bit < 16
    ensures SetFlag(f, bit, true) as nat == Or(f as nat, Pow2(bit))
    ensures SetFlag(f, bit, false) as nat == And(f as nat, Pow2(16) - 1 - Pow2(bit))
  {
    Pow2Values();
    Pow2Less(bit, 16);
    var v, m := f as nat, Pow2(bit);
    var on, off := SetFlag(f, bit, true) as nat, SetFlag(f, bit, false) as nat;
    var o := Or(v, m);
    OrBelow(v, m, 16);
    forall j: nat | j < 16
      ensures Bit(on, j) == Bit(o, j)
    {
      OrBits(v, m, j);
      PowBits(bit, j);
    }
    BitsDetermine(on, o, 16);
    var ones := Pow2(16) - 1;
    AllOnes(16, bit);
    var a := And(v, ones - m);
    AndBelow(v, ones - m, 16);
    forall j: nat | j < 16
      ensures Bit(off, j) == Bit(a, j)
    {
      AndBits(v, ones - m, j);
      AllOnes(16, j);
      SubBit(ones, bit, j);
    }
    BitsDetermine(off, a, 16);
  }

  /** Bit 6 (0x0040) lies in no mask: no setter changes it. */
  lemma ReservedBitUntouched(f: u16, bit: nat, on: bool, op: byte, rc: byte)
    requires bit in {QR_BIT, AA_BIT, TC_BIT, RD_BIT, RA_BIT, AD_BIT, CD_BIT}
    ensures Has(SetFlag(f, bit, on), 6) == Has(f, 6)
    ensures Has(WithOpcode(f, op), 6) == Has(f, 6)
    ensures Has(WithRcode(f, rc), 6) == Has(f, 6)
  {
  }

  /** Only the low four bits of an opcode are kept: 20 reads back as 4. */
  lemma OpcodeTwenty(f: u16)
    ensures OpcodeOf(WithOpcode(f, 20)) == 4
  {
  }

  /** Boolean setters on different flags commute. */
  lemma SettersCommute(f: u16, a: nat, x: bool, b: nat, y: bool)
    requires a < 16 && b < 16 && a != b
    ensures SetFlag(SetFlag(f, a, x), b, y) == SetFlag(SetFlag(f, b, y), a, x)
  {
    FlagsDetermined(SetFlag(SetFlag(f, a, x), b, y), SetFlag(SetFlag(f, b, y), a, x));
  }

  /** Of two calls to the same boolean setter, the last one wins. */
  lemma LastSetterWins(f: u16, a: nat, x: bool, y: bool)
    requires a < 16
    ensures SetFlag(SetFlag(f, a, x), a, y) == SetFlag(f, a, y)
  {
    FlagsDetermined(SetFlag(SetFlag(f, a, x), a, y), SetFlag(f, a, y));
  }

  /** Setting a flag to the value it already has changes nothing. */
  lemma SetterKeepsEqual(f: u16, a: nat)
    requires a < 16
    ensures SetFlag(f, a, Has(f, a)) == f
  {
    FlagsDetermined(SetFlag(f, a, Has(f, a)), f);
  }

  /** setOpcode leaves the response code, and setRcode the opcode. */
  lemma CodesIndependent(f: u16, op: byte, rc: byte)
    ensures RcodeOf(WithOpcode(f, op)) == RcodeOf(f)
    ensures OpcodeOf(WithRcode(f, rc)) == OpcodeOf(f)
  {
    FieldFrame(WithOpcode(f, op) as nat, f as nat, RCODE_SHIFT, CODE_WIDTH);
    FieldFrame(WithRcode(f, rc) as nat, f as nat, OPCODE_SHIFT, CODE_WIDTH);
  }

  /** A boolean setter leaves both codes. */
  lemma SetterKeepsCodes(f: u16, a: nat, on: bool)
    requires a < 16 && a !in {0, 1, 2, 3, 11, 12, 13, 14}
    ensures OpcodeOf(SetFlag(f, a, on)) == OpcodeOf(f)
    ensures RcodeOf(SetFlag(f, a, on)) == RcodeOf(f)
  {
    FieldFrame(SetFlag(f, a, on) as nat, f as nat, OPCODE_SHIFT, CODE_WIDTH);
    FieldFrame(SetFlag(f, a, on) as nat, f as nat, RCODE_SHIFT, CODE_WIDTH);
  }

  /** A response with recursion desired and available and the name error
      code has the familiar flag word 0x8183. */
  lemma NameErrorResponseFlags()
    ensures WithRcode(SetFlag(SetFlag(SetFlag(0, QR_BIT, true), RD_BIT, true), RA_BIT, true), RCODE_NAMEERROR) == 0x8183
  {
    var f := SetFlag(SetFlag(SetFlag(0, QR_BIT, true), RD_BIT, true), RA_BIT, true);
    assert f == 0x8180;
  }

  /** The high bit of the third byte written is the QR flag. */
  lemma QrInThirdByte(h: HeaderFields)
    ensures HeaderBytes(h)[2] >= 0x80 <==> Has(h.flags, QR_BIT)
  {
    assert HeaderBytes(h)[2] == BigEndian16(h.flags)[0];
    Pow2Values();
    TopBit(h.flags as nat, 15);
  }

  /** Six 16-bit reads over the twelve bytes give the six fields back. */
  lemma HeaderRoundTrip(h: HeaderFields, rest: seq<byte>)
    ensures var buf := HeaderBytes(h) + rest;
      && U16At(buf, 0) == Read(Ok(h.id), 2)
      && U16At(buf, 2) == Read(Ok(h.flags), 4)
      && U16At(buf, 4) == Read(Ok(h.qdCount), 6)
      && U16At(buf, 6) == Read(Ok(h.anCount), 8)
      && U16At(buf, 8) == Read(Ok(h.nsCount), 10)
      && U16At(buf, 10) == Read(Ok(h.arCount), 12)
  {
    var buf := HeaderBytes(h) + rest;
    U16RoundTrip([], h.id, buf[2..]);
    assert buf == [] + BigEndian16(h.id) + buf[2..];
    U16RoundTrip(buf[..2], h.flags, buf[4..]);
    assert buf == buf[..2] + BigEndian16(h.flags) + buf[4..];
    U16RoundTrip(buf[..4], h.qdCount, buf[6..]);
    assert buf == buf[..4] + BigEndian16(h.qdCount) + buf[6..];
    U16RoundTrip(buf[..6], h.anCount, buf[8..]);
    assert buf == buf[..6] + BigEndian16(h.anCount) + buf[8..];
    U16RoundTrip(buf[..8], h.nsCount, buf[10..]);
    assert buf == buf[..8] + BigEndian16(h.nsCount) + buf[10..];
    U16RoundTrip(buf[..10], h.arCount, buf[12..]);
    assert buf == buf[..10] + BigEndian16(h.arCount) + buf[12..];
  }

  /** The text form loses nothing: two headers that print the same are the
      same header. */
  lemma HeaderTextInjective(g: HeaderFields, h: HeaderFields)
    requires HeaderText(g) == HeaderText(h)
    ensures g == h
  {
    NamedLinesSplit("id: ", g.id as nat, h.id as nat,
      "flags: " + Decimal(g.flags as nat) + "\n" + ("qdcount: " + Decimal(g.qdCount as nat) + "\n" + ("ancount: " + Decimal(g.anCount as nat) + "\n" + ("nscount: " + Decimal(g.nsCount as nat) + "\n" + ("arcount: " + Decimal(g.arCount as nat))))),
      "flags: " + Decimal(h.flags as nat) + "\n" + ("qdcount: " + Decimal(h.qdCount as nat) + "\n" + ("ancount: " + Decimal(h.anCount as nat) + "\n" + ("nscount: " + Decimal(h.nsCount as nat) + "\n" + ("arcount: " + Decimal(h.arCount as nat))))));
    NamedLinesSplit("flags: ", g.flags as nat, h.flags as nat,
      "qdcount: " + Decimal(g.qdCount as nat) + "\n" + ("ancount: " + Decimal(g.anCount as nat) + "\n" + ("nscount: " + Decimal(g.nsCount as nat) + "\n" + ("arcount: " + Decimal(g.arCount as nat)))),
      "qdcount: " + Decimal(h.qdCount as nat) + "\n" + ("ancount: " + Decimal(h.anCount as nat) + "\n" + ("nscount: " + Decimal(h.nsCount as nat) + "\n" + ("arcount: " + Decimal(h.arCount as nat)))));
    NamedLinesSplit("qdcount: ", g.qdCount as nat, h.qdCount as nat,
      "ancount: " + Decimal(g.anCount as nat) + "\n" + ("nscount: " + Decimal(g.nsCount as nat) + "\n" + ("arcount: " + Decimal(g.arCount as nat))),
      "ancount: " + Decimal(h.anCount as nat) + "\n" + ("nscount: " + Decimal(h.nsCount as nat) + "\n" + ("arcount: " + Decimal(h.arCount as nat))));
    NamedLinesSplit("ancount: ", g.anCount as nat, h.anCount as nat,
      "nscount: " + Decimal(g.nsCount as nat) + "\n" + ("arcount: " + Decimal(g.arCount as nat)),
      "nscount: " + Decimal(h.nsCount as nat) + "\n" + ("arcount: " + Decimal(h.arCount as nat)));
    NamedLinesSplit("nscount: ", g.nsCount as nat, h.nsCount as nat,
      "arcount: " + Decimal(g.arCount as nat),
      "arcount: " + Decimal(h.arCount as nat));
    assert Decimal(g.arCount as nat) == ("arcount: " + Decimal(g.arCount as nat))[9..];
    DecimalInjective(g.arCount as nat, h.arCount as nat);
    assert g.flags as nat == h.flags as nat;
  }

  /** A line "name value" followed by a newline and more text determines
      the value and the text after it. */
  lemma NamedLinesSplit(name: string, m: nat, n: nat, rest1: string, rest2: string)
    requires '\n' !in name
    requires name + Decimal(m) + "\n" + rest1 == name + Decimal(n) + "\n" + rest2
    ensures m == n && rest1 == rest2
  {
    DecimalHasNoSeparator(m, '\n');
    DecimalHasNoSeparator(n, '\n');
    assert (name + Decimal(m)) + "\n" + rest1 == (name + Decimal(n)) + "\n" + rest2;
    SeparatorSplit(name + Decimal(m), rest1, name + Decimal(n), rest2, '\n');
    assert Decimal(m) == (name + Decimal(m))[|name|..];
    assert Decimal(n) == (name + Decimal(n))[|name|..];
    DecimalInjective(m, n);
  }

  /** The header object: the id, the flag word and the counts, updated in
      place by the setters the builder calls. */
  class DnsHeader {
    var id: u16
    var flags: u16
    var qdCount: u16
    var anCount: u16
    var nsCount: u16
    var arCount: u16

    function Fields(): HeaderFields
      reads this
    {
      HeaderFields(id, flags, qdCount, anCount, nsCount, arCount)
    }

    /** A default header is all zero. */
    constructor ()
      ensures Fields() == HeaderFields(0, 0, 0, 0, 0, 0)
    {
      id, flags := 0, 0;
      qdCount, anCount, nsCount, arCount := 0, 0, 0, 0;
    }

    method SetId(i: u16)
      modifies this
      ensures Fields() == old(Fields()).(id := i)
    {
      id := i;
    }

    method SetResponse(r: bool)
      modifies this
      ensures Fields() == old(Fields()).(flags := SetFlag(old(flags), QR_BIT, r))
    {
      flags := SetFlag(flags, QR_BIT, r);
    }

    method SetQuery(q: bool)
      modifies this
      ensures Fields() == old(Fields()).(flags := SetFlag(old(flags), QR_BIT, !q))
    {
      flags := if q then SetFlag(flags, QR_BIT, false) else SetFlag(flags, QR_BIT, true);
    }

    method SetAuthoritative(a: bool)
      modifies this
      ensures Fields() == old(Fields()).(flags := SetFlag(old(flags), AA_BIT, a))
    {
      flags := SetFlag(flags, AA_BIT, a);
    }

    method SetTruncated(t: bool)
      modifies this
      ensures Fields() == old(Fields()).(flags := SetFlag(old(flags), TC_BIT, t))
    {
      flags := SetFlag(flags, TC_BIT, t);
    }

    method SetRecursionDesired(rd: bool)
      modifies this
      ensures Fields() == old(Fields()).(flags := SetFlag(old(flags), RD_BIT, rd))
    {
      flags := SetFlag(flags, RD_BIT, rd);
    }

    method SetRecursionAvailable(ra: bool)
      modifies this
      ensures Fields() == old(Fields()).(flags := SetFlag(old(flags), RA_BIT, ra))
    {
      flags := SetFlag(flags, RA_BIT, ra);
    }

    method SetAuthenticData(ad: bool)
      modifies this
      ensures Fields() == old(Fields()).(flags := SetFlag(old(flags), AD_BIT, ad))
    {
      flags := SetFlag(flags, AD_BIT, ad);
    }

    method SetCheckingDisabled(cd: bool)
      modifies this
      ensures Fields() == old(Fields()).(flags := SetFlag(old(flags), CD_BIT, cd))
    {
      flags := SetFlag(flags, CD_BIT, cd);
    }

    method SetOpcode(op: byte)
      modifies this
      ensures Fields() == old(Fields()).(flags := WithOpcode(old(flags), op))
    {
      flags := WithOpcode(flags, op);
    }

    method SetRcode(rc: byte)
      modifies this
      ensures Fields() == old(Fields()).(flags := WithRcode(old(flags), rc))
    {
      flags := WithRcode(flags, rc);
    }

    predicate IsResponse()
      reads this
      ensures IsResponse() <==> And(flags as nat, 0x8000) != 0
    {
      MaskValues();
      TestBit(flags as nat, QR_BIT);
      Has(flags, QR_BIT)
    }

    predicate IsQuery()
      reads this
      ensures IsQuery() <==> And(flags as nat, 0x8000) == 0
    {
      !IsResponse()
    }

    predicate AuthAns()
      reads this
      ensures AuthAns() <==> And(flags as nat, 0x400) != 0
    {
      MaskValues();
      TestBit(flags as nat, AA_BIT);
      Has(flags, AA_BIT)
    }

    predicate Truncation()
      reads this
      ensures Truncation() <==> And(flags as nat, 0x200) != 0
    {
      MaskValues();
      TestBit(flags as nat, TC_BIT);
      Has(flags, TC_BIT)
    }

    predicate RecursionDesired()
      reads this
      ensures RecursionDesired() <==> And(flags as nat, 0x100) != 0
    {
      MaskValues();
      TestBit(flags as nat, RD_BIT);
      Has(flags, RD_BIT)
    }

    predicate RecursionAvailable()
      reads this
      ensures RecursionAvailable() <==> And(flags as nat, 0x80) != 0
    {
      MaskValues();
      TestBit(flags as nat, RA_BIT);
      Has(flags, RA_BIT)
    }

    predicate AuthenticData()
      reads this
      ensures AuthenticData() <==> And(flags as nat, 0x20) != 0
    {
      MaskValues();
      TestBit(flags as nat, AD_BIT);
      Has(flags, AD_BIT)
    }

    predicate CheckingDisabled()
      reads this
      ensures CheckingDisabled() <==> And(flags as nat, 0x10) != 0
    {
      MaskValues();
      TestBit(flags as nat, CD_BIT);
      Has(flags, CD_BIT)
    }

    function Opcode(): (r: byte)
      reads this
      ensures r < 16
      ensures forall j: nat :: OPCODE_SHIFT <= j < OPCODE_SHIFT + CODE_WIDTH ==> (Has(flags, j) <==> Bit(r as nat, j - OPCODE_SHIFT))
    {
      OpcodeOf(flags)
    }

    function Rcode(): (r: byte)
      reads this
      ensures r < 16
      ensures forall j: nat :: j < CODE_WIDTH ==> (Bit(r as nat, j) <==> Has(flags, j))
    {
      RcodeOf(flags)
    }

    method Serialize(buff: ByteVector)
      modifies buff
      ensures buff.data == old(buff.data) + HeaderBytes(Fields())
    {
      WriteU16(buff, id);
      WriteU16(buff, flags);
      WriteU16(buff, qdCount);
      WriteU16(buff, anCount);
      WriteU16(buff, nsCount);
      WriteU16(buff, arCount);
    }

    function ToString(): (s: string)
      reads this
      ensures s == HeaderText(Fields())
    {
      HeaderText(Fields())
    }
  }
}
