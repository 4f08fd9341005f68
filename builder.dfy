/** The fluent packet builder and its PacketFlag enumeration: each call
    changes the packet it holds and keeps every header count equal to its
    section's length, modulo the 16-bit width of the counters. */
module Builder {
  import opened Wire
  import opened Bits
  import opened Header
  import opened Question
  import opened Records
  import opened Packet
  import opened DnsTypes

  /** PacketFlag: 16-bit values equal to the header's single-bit masks. */
  const NONE: u16 := 0
  const RESPONSE: u16 := 0x8000
  const AUTHORITATIVE: u16 := 0x400
  const TRUNCATED: u16 := 0x200
  const RECURSION_DES: u16 := 0x100
  const RECURSION_AVAIL: u16 := 0x80

  /** Each flag is the mask of its header bit. */
  lemma FlagsAreMasks()
    ensures RESPONSE as nat == Pow2(QR_BIT) && AUTHORITATIVE as nat == Pow2(AA_BIT)
    ensures TRUNCATED as nat == Pow2(TC_BIT) && RECURSION_DES as nat == Pow2(RD_BIT)
    ensures RECURSION_AVAIL as nat == Pow2(RA_BIT)
  {
    MaskValues();
  }

  /** operator|: a bit is set in `a | b` when it is set in either. */
  function FlagOr(a: u16, b: u16): (r: u16)
    ensures forall j: nat :: Has(r, j) == (Has(a, j) || Has(b, j))
  {
    Pow2Values();
    OrBelow(a as nat, b as nat, 16);
    OrBitsAll(a as nat, b as nat);
    Or(a as nat, b as nat) as u16
  }

  /** operator&: whether the two values share a set bit. */
  predicate FlagAnd(a: u16, b: u16)
  {
    And(a as nat, b as nat) != 0
  }

  /** `a & b` holds exactly when some bit is set in both. */
  lemma FlagAndShares(a: u16, b: u16)
    ensures FlagAnd(a, b) <==> exists j: nat :: Has(a, j) && Has(b, j)
  {
    if FlagAnd(a, b) {
      var j := NonZeroHasBit(And(a as nat, b as nat));
      AndBits(a as nat, b as nat, j);
      assert Has(a, j) && Has(b, j);
    } else {
      forall j: nat
        ensures !(Has(a, j) && Has(b, j))
      {
        AndBits(a as nat, b as nat, j);
        ZeroHasNoBits(j);
      }
    }
  }

  /** NONE shares no bit with anything. */
  lemma NoneNeverSet(x: u16)
    ensures !FlagAnd(NONE, x) && !FlagAnd(x, NONE)
  {
    FlagAndShares(NONE, x);
    FlagAndShares(x, NONE);
    forall j: nat
      ensures !Has(NONE, j)
    {
      ZeroHasNoBits(j);
    }
  }

  /** Any other value tests true against itself. */
  lemma FlagWithItself(x: u16)
    requires x != NONE
    ensures FlagAnd(x, x)
  {
    var j := NonZeroHasBit(x as nat);
    AndBits(x as nat, x as nat, j);
    ZeroHasNoBits(j);
  }

  /** Testing a combination against a single-bit flag tests that bit. */
  lemma FlagTest(f: u16, bit: nat)
    requires bit < 16
    ensures Pow2(bit) < 0x1_0000
    ensures FlagAnd(f, Pow2(bit) as u16) <==> Has(f, bit)
  {
    Pow2Values();
    Pow2Less(bit, 16);
    TestBit(f as nat, bit);
  }

  /** withFlags: the five setters, each told whether its flag is in
      `flags`. */
  function ApplyFlags(f: u16, flags: u16): u16
  {
    var f1 := SetFlag(f, QR_BIT, FlagAnd(flags, RESPONSE));
    var f2 := SetFlag(f1, AA_BIT, FlagAnd(flags, AUTHORITATIVE));
    var f3 := SetFlag(f2, TC_BIT, FlagAnd(flags, TRUNCATED));
    var f4 := SetFlag(f3, RD_BIT, FlagAnd(flags, RECURSION_DES));
    SetFlag(f4, RA_BIT, FlagAnd(flags, RECURSION_AVAIL))
  }

  /** After withFlags each of QR, AA, TC, RD and RA is set exactly when it
      is in `flags`; every other bit, and with them the opcode, the rcode,
      AD and CD, is as before. */
  lemma ApplyFlagsMeaning(f: u16, flags: u16)
    ensures var r := ApplyFlags(f, flags);
      && Has(r, QR_BIT) == Has(flags, QR_BIT)
      && Has(r, AA_BIT) == Has(flags, AA_BIT)
      && Has(r, TC_BIT) == Has(flags, TC_BIT)
      && Has(r, RD_BIT) == Has(flags, RD_BIT)
      && Has(r, RA_BIT) == Has(flags, RA_BIT)
      && (forall j: nat :: j !in {QR_BIT, AA_BIT, TC_BIT, RD_BIT, RA_BIT} ==> Has(r, j) == Has(f, j))
      && OpcodeOf(r) == OpcodeOf(f) && RcodeOf(r) == RcodeOf(f)
  {
    FlagsAreMasks();
    FlagTest(flags, QR_BIT);
    FlagTest(flags, AA_BIT);
    FlagTest(flags, TC_BIT);
    FlagTest(flags, RD_BIT);
    FlagTest(flags, RA_BIT);
    var f1 := SetFlag(f, QR_BIT, FlagAnd(flags, RESPONSE));
    var f2 := SetFlag(f1, AA_BIT, FlagAnd(flags, AUTHORITATIVE));
    var f3 := SetFlag(f2, TC_BIT, FlagAnd(flags, TRUNCATED));
    var f4 := SetFlag(f3, RD_BIT, FlagAnd(flags, RECURSION_DES));
    SetterKeepsCodes(f, QR_BIT, FlagAnd(flags, RESPONSE));
    SetterKeepsCodes(f1, AA_BIT, FlagAnd(flags, AUTHORITATIVE));
    SetterKeepsCodes(f2, TC_BIT, FlagAnd(flags, TRUNCATED));
    SetterKeepsCodes(f3, RD_BIT, FlagAnd(flags, RECURSION_DES));
    SetterKeepsCodes(f4, RA_BIT, FlagAnd(flags, RECURSION_AVAIL));
  }

  /** The bits of RESPONSE | RECURSION_DES are QR and RD. */
  lemma ResponseOrRecursionBits(j: nat)
    ensures Has(FlagOr(RESPONSE, RECURSION_DES), j) <==> j == QR_BIT || j == RD_BIT
  {
    FlagsAreMasks();
    PowBits(QR_BIT, j);
    PowBits(RD_BIT, j);
  }

  /** RESPONSE | RECURSION_DES is 0x8100. */
  lemma ResponseOrRecursion()
    ensures FlagOr(RESPONSE, RECURSION_DES) == 0x8100
  {
    var both := FlagOr(RESPONSE, RECURSION_DES);
    Pow2Values();
    forall j: nat | j < 16
      ensures Bit(both as nat, j) == Bit(0x8100, j)
    {
      ResponseOrRecursionBits(j);
      PowBits(QR_BIT, j);
      PowBits(RD_BIT, j);
      PowBits(RD_BIT, QR_BIT);
      AddBit(Pow2(RD_BIT), QR_BIT, j);
    }
    BitsDetermine(both as nat, 0x8100, 16);
  }

  /** withFlags(RESPONSE | RECURSION_DES) on a fresh header gives 0x8100. */
  lemma ResponseWithRecursion()
    ensures ApplyFlags(0, FlagOr(RESPONSE, RECURSION_DES)) == 0x8100
  {
    var both := FlagOr(RESPONSE, RECURSION_DES);
    forall j: nat | j < 16
      ensures Has(ApplyFlags(0, both), j) == Has(both, j)
    {
      FreshHeaderBit(both, j);
    }
    FlagsDetermined(ApplyFlags(0, both), both);
    ResponseOrRecursion();
  }

  /** Bit j of withFlags(RESPONSE | RECURSION_DES) on a fresh header is bit
      j of the argument. */
  lemma FreshHeaderBit(both: u16, j: nat)
    requires both == FlagOr(RESPONSE, RECURSION_DES)
    ensures Has(ApplyFlags(0, both), j) == Has(both, j)
  {
    ApplyFlagsMeaning(0, both);
    ResponseOrRecursionBits(j);
    ZeroHasNoBits(j);
  }

  /** A 16-bit counter's `++`. */
  function Inc(c: u16): (r: u16)
    ensures r as int == (c as int + 1) % 0x1_0000
  {
    if c == 0xFFFF then 0 else c + 1
  }

  /** A count that equals its section's length modulo 2^16 still does after
      one entry is added and the count incremented. */
  lemma IncKeepsCount<T>(c: u16, xs: seq<T>, x: T)
    requires c as int == |xs| % 0x1_0000
    ensures Inc(c) as int == |xs + [x]| % 0x1_0000
  {
  }

  /** The builder: the packet under construction. */
  class PacketBuilder {
    const packet: DnsPacket

    /** Every header count equals its section's length modulo 2^16. */
    predicate CountsMatch()
      reads this, packet, packet.header
    {
      && packet.header.qdCount as int == |packet.questions| % 0x1_0000
      && packet.header.anCount as int == |packet.answers| % 0x1_0000
      && packet.header.nsCount as int == |packet.authority| % 0x1_0000
      && packet.header.arCount as int == |packet.additional| % 0x1_0000
    }

    /** A default builder holds an all-zero header and empty sections. */
    constructor ()
      ensures fresh(packet) && fresh(packet.header)
      ensures packet.Value() == PacketValue(HeaderFields(0, 0, 0, 0, 0, 0), [], [], [], [])
      ensures CountsMatch()
    {
      packet := new DnsPacket();
    }

    /** PacketBuilder(id) differs from the default only in the id. */
    constructor WithId(id: u16)
      ensures fresh(packet) && fresh(packet.header)
      ensures packet.Value() == PacketValue(HeaderFields(id, 0, 0, 0, 0, 0), [], [], [], [])
      ensures CountsMatch()
    {
      packet := new DnsPacket();
      new;
      packet.header.SetId(id);
    }

    method SetId(id: u16)
      modifies packet.header
      ensures packet.Value() == old(packet.Value()).(header := old(packet.header.Fields()).(id := id))
      ensures old(CountsMatch()) ==> CountsMatch()
    {
      packet.header.SetId(id);
    }

    method WithOpcode(op: byte)
      modifies packet.header
      ensures packet.Value() == old(packet.Value()).(header := old(packet.header.Fields()).(flags := Header.WithOpcode(old(packet.header.flags), op)))
      ensures old(CountsMatch()) ==> CountsMatch()
    {
      packet.header.SetOpcode(op);
    }

    method WithRcode(rc: byte)
      modifies packet.header
      ensures packet.Value() == old(packet.Value()).(header := old(packet.header.Fields()).(flags := Header.WithRcode(old(packet.header.flags), rc)))
      ensures old(CountsMatch()) ==> CountsMatch()
    {
      packet.header.SetRcode(rc);
    }

    method WithFlags(flags: u16)
      modifies packet.header
      ensures packet.Value() == old(packet.Value()).(header := old(packet.header.Fields()).(flags := ApplyFlags(old(packet.header.flags), flags)))
      ensures old(CountsMatch()) ==> CountsMatch()
    {
      packet.header.SetResponse(FlagAnd(flags, RESPONSE));
      packet.header.SetAuthoritative(FlagAnd(flags, AUTHORITATIVE));
      packet.header.SetTruncated(FlagAnd(flags, TRUNCATED));
      packet.header.SetRecursionDesired(FlagAnd(flags, RECURSION_DES));
      packet.header.SetRecursionAvailable(FlagAnd(flags, RECURSION_AVAIL));
    }

    method WithRawFlags(flags: u16)
      modifies packet.header
      ensures packet.Value() == old(packet.Value()).(header := old(packet.header.Fields()).(flags := flags))
      ensures old(CountsMatch()) ==> CountsMatch()
    {
      packet.header.flags := flags;
    }

    /** addQuestion: a question of class IN and one more in qdCount; when
        the name fails validation the question's constructor throws and
        nothing changes. */
    method AddQuestion(valid: string -> bool, name: string, qtype: u16) returns (r: Result<()>)
      modifies packet, packet.header
      ensures r.Ok? <==> valid(name)
      ensures r.Err? ==> r.error == InvalidName && packet.Value() == old(packet.Value())
      ensures r.Ok? ==> packet.Value() == old(packet.Value()).(
        header := old(packet.header.Fields()).(qdCount := Inc(old(packet.header.qdCount))),
        questions := old(packet.questions) + [DnsQuestion(name, qtype, CLASS_IN)])
      ensures old(CountsMatch()) ==> CountsMatch()
    {
      var q := NewQuestion(valid, name, qtype, CLASS_IN);
      if q.Err? {
        return Err(q.error);
      }
      packet.questions := packet.questions + [q.value];
      packet.header.qdCount := Inc(packet.header.qdCount);
      return Ok(());
    }

    method AddAnswer(record: RecordRef)
      modifies packet, packet.header
      ensures packet.Value() == old(packet.Value()).(
        header := old(packet.header.Fields()).(anCount := Inc(old(packet.header.anCount))),
        answers := old(packet.answers) + [record])
      ensures old(CountsMatch()) ==> CountsMatch()
    {
      packet.answers := packet.answers + [record];
      packet.header.anCount := Inc(packet.header.anCount);
    }

    /** addAuthority increments the header's nsCount. */
    method AddAuthority(record: RecordRef)
      modifies packet, packet.header
      ensures packet.Value() == old(packet.Value()).(
        header := old(packet.header.Fields()).(nsCount := Inc(old(packet.header.nsCount))),
        authority := old(packet.authority) + [record])
      ensures old(CountsMatch()) ==> CountsMatch()
    {
      packet.authority := packet.authority + [record];
      packet.header.nsCount := Inc(packet.header.nsCount);
    }

    method AddAdditional(record: RecordRef)
      modifies packet, packet.header
      ensures packet.Value() == old(packet.Value()).(
        header := old(packet.header.Fields()).(arCount := Inc(old(packet.header.arCount))),
        additional := old(packet.additional) + [record])
      ensures old(CountsMatch()) ==> CountsMatch()
    {
      packet.additional := packet.additional + [record];
      packet.header.arCount := Inc(packet.header.arCount);
    }

    /** expectedAnswers only reserves capacity: nothing observable changes. */
    method ExpectedAnswers(count: nat)
    {
    }

    /** build hands the packet over. */
    method Build() returns (p: DnsPacket)
      ensures p == packet
    {
      p := packet;
    }
  }
}
