/** Resource records (section 4.1.3 of RFC 1035) and the record types the
    library implements: A, NS, CNAME, PTR and MX (section 3.3 and 3.4.1 of
    RFC 1035), and a record of any other type carried as raw bytes. */
module Records {
  import opened Wire
  import opened Reader
  import opened Writer
  import opened Text
  import opened DnsTypes

  /** What each record type adds to the common fields. */
  datatype RData =
    | A(address: u32)
    | NS(ns: string)
    | CNAME(cname: string)
    | PTR(ptr: string)
    | MX(preference: u16, exchange: string)
    | Unknown(code: u16, rdata: seq<byte>)

  /** A record: owner name, TTL and the type's data. No constructor
      validates a name, and the getters return the stored fields. */
  datatype ResourceRecord = ResourceRecord(name: string, ttl: u32, data: RData)

  /** getType: each constructor fixes the type code; an unknown record keeps
      the code it was given. */
  function TypeOf(r: ResourceRecord): u16
  {
    match r.data
    case A(_) => TYPE_A
    case NS(_) => TYPE_NS
    case CNAME(_) => TYPE_CNAME
    case PTR(_) => TYPE_PTR
    case MX(_, _) => TYPE_MX
    case Unknown(code, _) => code
  }

  /** A size_t stored into a uint16_t. */
  function Low16(n: nat): (r: u16)
    ensures n < 0x1_0000 ==> r as nat == n
  {
    (n % 0x1_0000) as u16
  }

  /** Type, class IN and TTL, as every record writes them. */
  function FixedFields(r: ResourceRecord): seq<byte>
  {
    BigEndian16(TypeOf(r)) + BigEndian16(CLASS_IN) + BigEndian32(r.ttl)
  }

  /** The base serialize: the owner name, then type, class and TTL. */
  function BaseBytes(r: ResourceRecord): (o: Output)
    ensures o.ok == DomainBytes(r.name).ok
  {
    Then(DomainBytes(r.name), Output(FixedFields(r), true))
  }

  /** The RDATA each type produces: for the name-carrying types, what the
      temporary vector receives, which may end in "label too long". */
  function RDataBytes(d: RData): (o: Output)
    ensures d.A? ==> o.ok && |o.bytes| == 4
    ensures d.Unknown? ==> o.ok && o.bytes == d.rdata
    ensures d.MX? ==> o.ok == DomainBytes(d.exchange).ok && |o.bytes| >= 2
  {
    match d
    case A(address) => Output(BigEndian32(address), true)
    case NS(ns) => DomainBytes(ns)
    case CNAME(cname) => DomainBytes(cname)
    case PTR(ptr) => DomainBytes(ptr)
    case MX(preference, exchange) => Then(Output(BigEndian16(preference), true), DomainBytes(exchange))
    case Unknown(_, rdata) => Output(rdata, true)
  }

  /** serialize: an A record writes no owner name and a fixed RDLENGTH of 4;
      every other record writes the base fields, then RDLENGTH (the RDATA
      size cut to 16 bits) and the RDATA. When the RDATA throws, only the
      base fields were appended. */
  function RecordBytes(r: ResourceRecord): (o: Output)
    ensures o.ok <==> r.data.A? || (DomainBytes(r.name).ok && RDataBytes(r.data).ok)
    ensures r.data.A? ==> |o.bytes| == 14
  {
    if r.data.A? then
      Output(FixedFields(r) + BigEndian16(4) + BigEndian32(r.data.address), true)
    else
      var t := RDataBytes(r.data);
      Then(BaseBytes(r), if t.ok then Output(BigEndian16(Low16(|t.bytes|)) + t.bytes, true) else Output([], false))
  }

  method SerializeBase(r: ResourceRecord, buff: ByteVector) returns (ok: bool)
    modifies buff
    ensures buff.data == old(buff.data) + BaseBytes(r).bytes
    ensures ok == BaseBytes(r).ok
  {
    ghost var d := DomainBytes(r.name);
    ok := WriteDomain(buff, r.name);
    if !ok {
      return;
    }
    ghost var mid := buff.data;
    WriteU16(buff, TypeOf(r));
    WriteU16(buff, CLASS_IN);
    WriteU32(buff, r.ttl);
    assert buff.data == mid + FixedFields(r);
    AppendAssoc(old(buff.data), d.bytes, FixedFields(r));
  }

  /** The temporary vector of the name-carrying types. */
  method WriteTarget(d: RData, tmp: ByteVector) returns (ok: bool)
    requires d.NS? || d.CNAME? || d.PTR? || d.MX?
    modifies tmp
    ensures tmp.data == old(tmp.data) + RDataBytes(d).bytes
    ensures ok == RDataBytes(d).ok
  {
    match d
    case NS(ns) =>
      ok := WriteDomain(tmp, ns);
    case CNAME(cname) =>
      ok := WriteDomain(tmp, cname);
    case PTR(ptr) =>
      ok := WriteDomain(tmp, ptr);
    case MX(preference, exchange) =>
      WriteU16(tmp, preference);
      ok := WriteDomain(tmp, exchange);
      AppendAssoc(old(tmp.data), BigEndian16(preference), DomainBytes(exchange).bytes);
  }

  /** ARecord::serialize: type, class, TTL, RDLENGTH 4 and the address,
      with no owner name. */
  method SerializeA(r: ResourceRecord, buff: ByteVector)
    requires r.data.A?
    modifies buff
    ensures buff.data == old(buff.data) + RecordBytes(r).bytes
  {
    WriteU16(buff, TypeOf(r));
    WriteU16(buff, CLASS_IN);
    WriteU32(buff, r.ttl);
    WriteU16(buff, 4);
    WriteU32(buff, r.data.address);
  }

  /** Each record type's serialize. */
  method Serialize(r: ResourceRecord, buff: ByteVector) returns (ok: bool)
    modifies buff
    ensures buff.data == old(buff.data) + RecordBytes(r).bytes
    ensures ok == RecordBytes(r).ok
  {
    if r.data.A? {
      SerializeA(r, buff);
      ok := true;
      return;
    }
    ghost var b := BaseBytes(r);
    ghost var t := RDataBytes(r.data);
    RecordLayout(r);
    ok := SerializeBase(r, buff);
    if !ok {
      return;
    }
    var payload: seq<byte>;
    if r.data.Unknown? {
      payload := r.data.rdata;
    } else {
      var tmp := new ByteVector();
      ok := WriteTarget(r.data, tmp);
      if !ok {
        return;
      }
      payload := tmp.data;
    }
    assert payload == t.bytes && t.ok;
    WriteU16(buff, Low16(|payload|));
    buff.Insert(payload);
    AppendAssoc(old(buff.data) + b.bytes, BigEndian16(Low16(|payload|)), payload);
    AppendAssoc(old(buff.data), b.bytes, BigEndian16(Low16(|payload|)) + payload);
  }

  /** The layout of every record but A: base fields, then RDLENGTH and the
      RDATA; a failing RDATA leaves the base fields and the error; a failing
      owner name leaves its partial output. */
  lemma RecordLayout(r: ResourceRecord)
    requires !r.data.A?
    ensures var b, t := BaseBytes(r), RDataBytes(r.data);
      && (b.ok && t.ok ==> RecordBytes(r) == Output(b.bytes + BigEndian16(Low16(|t.bytes|)) + t.bytes, true))
      && (b.ok && !t.ok ==> RecordBytes(r) == Output(b.bytes, false))
      && (!b.ok ==> RecordBytes(r) == b)
  {
    var b, t := BaseBytes(r), RDataBytes(r.data);
    if b.ok && t.ok {
      AppendAssoc(b.bytes, BigEndian16(Low16(|t.bytes|)), t.bytes);
    }
  }

  /** The base fields are the owner name and exactly eight bytes: the type,
      the class 1 and the TTL. */
  lemma BaseLayout(r: ResourceRecord)
    ensures BaseBytes(r).ok == DomainBytes(r.name).ok
    ensures DomainBytes(r.name).ok ==>
      BaseBytes(r).bytes == DomainBytes(r.name).bytes + BigEndian16(TypeOf(r)) + [0, 1] + BigEndian32(r.ttl)
    ensures DomainBytes(r.name).ok ==> |BaseBytes(r).bytes| == |DomainBytes(r.name).bytes| + 8
  {
    assert BigEndian16(CLASS_IN) == [0, 1];
    if DomainBytes(r.name).ok {
      AppendAssoc(DomainBytes(r.name).bytes, BigEndian16(TypeOf(r)) + [0, 1], BigEndian32(r.ttl));
      AppendAssoc(DomainBytes(r.name).bytes, BigEndian16(TypeOf(r)), [0, 1]);
    }
  }

  /** Reading the base fields back: the owner name without its trailing
      dot, the type, the class 1 and the TTL. */
  lemma BaseRoundTrip(pre: seq<byte>, r: ResourceRecord, post: seq<byte>)
    requires Encodable(r.name)
    ensures BaseBytes(r).ok
    ensures var buf := pre + BaseBytes(r).bytes + post;
      var n := |pre| + |DomainBytes(r.name).bytes|;
      && NameAt(buf, |pre|) == Read(Ok(StripDot(r.name)), n)
      && U16At(buf, n) == Read(Ok(TypeOf(r)), n + 2)
      && U16At(buf, n + 2) == Read(Ok(CLASS_IN), n + 4)
      && U32At(buf, n + 4) == Read(Ok(r.ttl), n + 8)
  {
    BaseNameReadsBack(pre, r, post);
    BaseFixedReadsBack(pre, r, post);
  }

  /** The owner name at the start of the base fields reads back. */
  lemma BaseNameReadsBack(pre: seq<byte>, r: ResourceRecord, post: seq<byte>)
    requires Encodable(r.name)
    ensures BaseBytes(r).ok
    ensures NameAt(pre + BaseBytes(r).bytes + post, |pre|)
         == Read(Ok(StripDot(r.name)), |pre| + |DomainBytes(r.name).bytes|)
  {
    var enc := DomainBytes(r.name).bytes;
    var fixed := FixedFields(r);
    NameRoundTrip(pre, r.name, fixed + post);
    assert BaseBytes(r).bytes == enc + fixed;
    AppendAssoc(pre, enc, fixed);
    AppendAssoc(pre + enc, fixed, post);
  }

  /** The type, class and TTL behind the owner name read back. */
  lemma BaseFixedReadsBack(pre: seq<byte>, r: ResourceRecord, post: seq<byte>)
    requires DomainBytes(r.name).ok
    ensures var buf := pre + BaseBytes(r).bytes + post;
      var n := |pre| + |DomainBytes(r.name).bytes|;
      && U16At(buf, n) == Read(Ok(TypeOf(r)), n + 2)
      && U16At(buf, n + 2) == Read(Ok(CLASS_IN), n + 4)
      && U32At(buf, n + 4) == Read(Ok(r.ttl), n + 8)
  {
    var enc := DomainBytes(r.name).bytes;
    var fixed := FixedFields(r);
    assert BaseBytes(r).bytes == enc + fixed;
    AppendAssoc(pre, enc, fixed);
    FixedRoundTrip(pre + enc, TypeOf(r), CLASS_IN, r.ttl, post);
  }

  /** Type, class and TTL written in a row read back in that order. */
  lemma FixedRoundTrip(pre: seq<byte>, t: u16, c: u16, ttl: u32, post: seq<byte>)
    ensures var buf := pre + (BigEndian16(t) + BigEndian16(c) + BigEndian32(ttl)) + post;
      var n := |pre|;
      && U16At(buf, n) == Read(Ok(t), n + 2)
      && U16At(buf, n + 2) == Read(Ok(c), n + 4)
      && U32At(buf, n + 4) == Read(Ok(ttl), n + 8)
  {
    var ty, cl, tl := BigEndian16(t), BigEndian16(c), BigEndian32(ttl);
    var buf := pre + (ty + cl + tl) + post;
    assert buf == pre + ty + (cl + tl + post);
    U16RoundTrip(pre, t, cl + tl + post);
    assert buf == (pre + ty) + cl + (tl + post);
    U16RoundTrip(pre + ty, c, tl + post);
    assert buf == (pre + ty + cl) + tl + post;
    U32RoundTrip(pre + ty + cl, ttl, post);
  }

  /** Every record but A begins with its base fields, whatever follows. */
  lemma RecordStartsWithBase(r: ResourceRecord)
    requires !r.data.A? && BaseBytes(r).ok
    ensures |BaseBytes(r).bytes| <= |RecordBytes(r).bytes|
    ensures RecordBytes(r).bytes[..|BaseBytes(r).bytes|] == BaseBytes(r).bytes
  {
    RecordLayout(r);
  }

  /** A record other than A whose parts encode: base, RDLENGTH, RDATA. */
  lemma RecordSplit(r: ResourceRecord)
    requires !r.data.A? && BaseBytes(r).ok && RDataBytes(r.data).ok
    ensures RecordBytes(r).ok
    ensures RecordBytes(r).bytes
      == BaseBytes(r).bytes + (BigEndian16(Low16(|RDataBytes(r.data).bytes|)) + RDataBytes(r.data).bytes)
  {
    var t := RDataBytes(r.data).bytes;
    RecordLayout(r);
    AppendAssoc(BaseBytes(r).bytes, BigEndian16(Low16(|t|)), t);
  }

  /** RDLENGTH counts exactly the RDATA bytes that follow it: reading it
      back gives the length of the RDATA, which comes next. */
  lemma {:induction false} RdLengthReadsBack(pre: seq<byte>, r: ResourceRecord, post: seq<byte>)
    requires !r.data.A? && BaseBytes(r).ok && RDataBytes(r.data).ok
    requires |RDataBytes(r.data).bytes| < 0x1_0000
    ensures var buf := pre + RecordBytes(r).bytes + post;
      var p := |pre| + |BaseBytes(r).bytes|;
      var t := RDataBytes(r.data).bytes;
      && U16At(buf, p) == Read(Ok(|t| as u16), p + 2)
      && p + 2 + |t| <= |buf| && buf[p + 2..p + 2 + |t|] == t
  {
    RecordSplit(r);
    LengthThenData(pre, BaseBytes(r).bytes, RDataBytes(r.data).bytes, RecordBytes(r).bytes, post);
  }

  /** A 16-bit length written behind `b`, followed by the data it counts. */
  lemma LengthThenData(pre: seq<byte>, b: seq<byte>, t: seq<byte>, rec: seq<byte>, post: seq<byte>)
    requires |t| < 0x1_0000 && rec == b + (BigEndian16(Low16(|t|)) + t)
    ensures var buf := pre + rec + post;
      var p := |pre| + |b|;
      && U16At(buf, p) == Read(Ok(|t| as u16), p + 2)
      && p + 2 + |t| <= |buf| && buf[p + 2..p + 2 + |t|] == t
  {
    var len := BigEndian16(Low16(|t|));
    assert Low16(|t|) == |t| as u16;
    var buf := pre + (b + (len + t)) + post;
    assert buf == (pre + b) + len + (t + post);
    U16RoundTrip(pre + b, Low16(|t|), t + post);
    assert buf[|pre + b| + 2..] == t + post;
  }

  /** A name target written as good labels makes RDATA of the name's
      length plus two; MX adds its two preference bytes. */
  lemma TargetLength(d: RData)
    requires d.NS? || d.CNAME? || d.PTR? || d.MX?
    requires var n := if d.NS? then d.ns else if d.CNAME? then d.cname else if d.PTR? then d.ptr else d.exchange;
      Encodable(n) && StripDot(n) != ""
    ensures RDataBytes(d).ok
    ensures var n := if d.NS? then d.ns else if d.CNAME? then d.cname else if d.PTR? then d.ptr else d.exchange;
      |RDataBytes(d).bytes| == |StripDot(n)| + 2 + (if d.MX? then 2 else 0)
  {
    var n := if d.NS? then d.ns else if d.CNAME? then d.cname else if d.PTR? then d.ptr else d.exchange;
    DomainLength(n);
  }

  /** The A record writes no owner name: records that differ only in their
      owner serialize the same fourteen bytes, with RDLENGTH 4 followed by
      the address most significant byte first. */
  lemma AOmitsOwner(r: ResourceRecord, s: ResourceRecord)
    requires r.data.A? && s.data == r.data && s.ttl == r.ttl
    ensures RecordBytes(r) == RecordBytes(s)
    ensures RecordBytes(r).ok && |RecordBytes(r).bytes| == 14
    ensures RecordBytes(r).bytes[8..10] == [0, 4]
    ensures RecordBytes(r).bytes[10..] == BigEndian32(r.data.address)
  {
  }

  /** The labels of the test vectors, one at a time. */
  lemma ExampleLabel()
    ensures GoodLabel("example") && LabelBytes("example") == [7, 101, 120, 97, 109, 112, 108, 101]
  {
    var b := Bytes("example");
    assert b[0] == 101 && b[1] == 120 && b[2] == 97 && b[3] == 109 && b[4] == 112 && b[5] == 108 && b[6] == 101;
    assert b == [101, 120, 97, 109, 112, 108, 101];
  }

  lemma ComLabel()
    ensures GoodLabel("com") && LabelBytes("com") == [3, 99, 111, 109]
  {
    var b := Bytes("com");
    assert b[0] == 99 && b[1] == 111 && b[2] == 109;
    assert b == [99, 111, 109];
  }

  lemma MailLabel()
    ensures GoodLabel("mail") && LabelBytes("mail") == [4, 109, 97, 105, 108]
  {
    var b := Bytes("mail");
    assert b[0] == 109 && b[1] == 97 && b[2] == 105 && b[3] == 108;
    assert b == [109, 97, 105, 108];
  }

  lemma UnknownLabel()
    ensures GoodLabel("unknown") && LabelBytes("unknown") == [7, 117, 110, 107, 110, 111, 119, 110]
  {
    var b := Bytes("unknown");
    assert b[0] == 117 && b[1] == 110 && b[2] == 107 && b[3] == 110 && b[4] == 111 && b[5] == 119 && b[6] == 110;
    assert b == [117, 110, 107, 110, 111, 119, 110];
  }

  /** The encoding of example.com, used by the MX vector. */
  lemma ExampleCom()
    ensures DomainBytes("example.com") == Output([7, 101, 120, 97, 109, 112, 108, 101, 3, 99, 111, 109, 0], true)
  {
    var e: seq<byte> := [7, 101, 120, 97, 109, 112, 108, 101];
    var c: seq<byte> := [3, 99, 111, 109];
    assert e + c + [0] == [7, 101, 120, 97, 109, 112, 108, 101, 3, 99, 111, 109, 0];
    assert "example" + "." + "com" == "example.com";
    ExampleLabel();
    ComLabel();
    TwoLabels("example", "com");
  }

  lemma MailExampleCom()
    ensures DomainBytes("mail.example.com") == Output([4, 109, 97, 105, 108, 7, 101, 120, 97, 109, 112, 108, 101, 3, 99, 111, 109, 0], true)
  {
    var m: seq<byte> := [4, 109, 97, 105, 108];
    var e: seq<byte> := [7, 101, 120, 97, 109, 112, 108, 101];
    var c: seq<byte> := [3, 99, 111, 109];
    assert m + e + c + [0] == [4, 109, 97, 105, 108, 7, 101, 120, 97, 109, 112, 108, 101, 3, 99, 111, 109, 0];
    assert "mail" + "." + "example" + "." + "com" == "mail.example.com";
    MailLabel();
    ExampleLabel();
    ComLabel();
    ThreeLabels("mail", "example", "com");
  }

  /** The MX record example.com / 3600 / 10 / mail.example.com, with
      RDLENGTH 20. */
  lemma MxVector()
    ensures RecordBytes(ResourceRecord("example.com", 3600, MX(10, "mail.example.com")))
         == Output([7, 101, 120, 97, 109, 112, 108, 101, 3, 99, 111, 109, 0,
                    0, 15, 0, 1, 0, 0, 0x0E, 0x10,
                    0, 20, 0, 10,
                    4, 109, 97, 105, 108, 7, 101, 120, 97, 109, 112, 108, 101, 3, 99, 111, 109, 0], true)
  {
    var owner: seq<byte> := [7, 101, 120, 97, 109, 112, 108, 101, 3, 99, 111, 109, 0];
    var exch: seq<byte> := [4, 109, 97, 105, 108, 7, 101, 120, 97, 109, 112, 108, 101, 3, 99, 111, 109, 0];
    var fixed: seq<byte> := [0, 15, 0, 1, 0, 0, 0x0E, 0x10];
    var rdata: seq<byte> := [0, 10] + exch;
    var r := ResourceRecord("example.com", 3600, MX(10, "mail.example.com"));
    MxPieces(owner, fixed, rdata);
    assert FixedFields(r) == fixed by {
      assert BigEndian16(15) + BigEndian16(1) + BigEndian32(3600) == fixed;
    }
    assert RDataBytes(r.data) == Output(rdata, true) by {
      assert BigEndian16(10) == [0, 10];
      MailExampleCom();
    }
    assert BigEndian16(Low16(|rdata|)) == [0, 20];
    ExampleCom();
    AfterOwner(r, owner);
  }

  lemma MxPieces(owner: seq<byte>, fixed: seq<byte>, rdata: seq<byte>)
    requires owner == [7, 101, 120, 97, 109, 112, 108, 101, 3, 99, 111, 109, 0]
    requires fixed == [0, 15, 0, 1, 0, 0, 0x0E, 0x10]
    requires rdata == [0, 10, 4, 109, 97, 105, 108, 7, 101, 120, 97, 109, 112, 108, 101, 3, 99, 111, 109, 0]
    ensures owner + fixed + ([0, 20] + rdata)
        == [7, 101, 120, 97, 109, 112, 108, 101, 3, 99, 111, 109, 0,
            0, 15, 0, 1, 0, 0, 0x0E, 0x10,
            0, 20, 0, 10,
            4, 109, 97, 105, 108, 7, 101, 120, 97, 109, 112, 108, 101, 3, 99, 111, 109, 0]
  {
  }

  /** A record other than A whose owner and RDATA encode: the owner, the
      fixed fields, RDLENGTH and the RDATA. */
  lemma AfterOwner(r: ResourceRecord, owner: seq<byte>)
    requires !r.data.A? && RDataBytes(r.data).ok
    requires DomainBytes(r.name) == Output(owner, true)
    ensures var t := RDataBytes(r.data).bytes;
      RecordBytes(r) == Output(owner + FixedFields(r) + (BigEndian16(Low16(|t|)) + t), true)
  {
  }

  lemma UnknownCom()
    ensures DomainBytes("unknown.com") == Output([7, 117, 110, 107, 110, 111, 119, 110, 3, 99, 111, 109, 0], true)
  {
    var u: seq<byte> := [7, 117, 110, 107, 110, 111, 119, 110];
    var c: seq<byte> := [3, 99, 111, 109];
    assert u + c + [0] == [7, 117, 110, 107, 110, 111, 119, 110, 3, 99, 111, 109, 0];
    assert "unknown" + "." + "com" == "unknown.com";
    UnknownLabel();
    ComLabel();
    TwoLabels("unknown", "com");
  }

  /** The unknown record unknown.com / 999 / 3600 / [1, 2, 3]. */
  lemma UnknownVector()
    ensures RecordBytes(ResourceRecord("unknown.com", 3600, Unknown(999, [1, 2, 3])))
         == Output([7, 117, 110, 107, 110, 111, 119, 110, 3, 99, 111, 109, 0,
                    0x03, 0xE7, 0, 1, 0, 0, 0x0E, 0x10, 0, 3, 1, 2, 3], true)
  {
    var owner: seq<byte> := [7, 117, 110, 107, 110, 111, 119, 110, 3, 99, 111, 109, 0];
    var fixed: seq<byte> := [0x03, 0xE7, 0, 1, 0, 0, 0x0E, 0x10];
    var r := ResourceRecord("unknown.com", 3600, Unknown(999, [1, 2, 3]));
    assert owner + fixed + ([0, 3] + [1, 2, 3]) == [7, 117, 110, 107, 110, 111, 119, 110, 3, 99, 111, 109, 0,
                            0x03, 0xE7, 0, 1, 0, 0, 0x0E, 0x10, 0, 3, 1, 2, 3];
    assert FixedFields(r) == fixed by {
      assert BigEndian16(999) + BigEndian16(1) + BigEndian32(3600) == fixed;
    }
    assert BigEndian16(Low16(|r.data.rdata|)) == [0, 3];
    UnknownCom();
    AfterOwner(r, owner);
  }

  /** The presentation prefix every toString starts with. */
  function OwnerText(r: ResourceRecord): string
  {
    r.name + " " + Decimal(r.ttl as nat) + " IN "
  }

  /** The hexadecimal tail of an unknown record: nothing for empty data,
      otherwise " ( ", every byte as two upper-case digits and a space,
      then ")". */
  function RdataText(rdata: seq<byte>): string
  {
    if rdata == [] then "" else " ( " + HexList(rdata) + ")"
  }

  /** toString of every type but A (whose address printing is not part of
      this model). */
  function RecordText(r: ResourceRecord): string
    requires !r.data.A?
  {
    match r.data
    case NS(ns) => OwnerText(r) + "NS " + ns
    case CNAME(cname) => OwnerText(r) + "CNAME " + cname
    case PTR(ptr) => OwnerText(r) + "PTR " + ptr
    case MX(preference, exchange) => OwnerText(r) + "MX " + Decimal(preference as nat) + " " + exchange
    case Unknown(code, rdata) =>
      OwnerText(r) + "TYPE" + Decimal(code as nat) + " \\# " + Decimal(|rdata|) + RdataText(rdata)
  }

  /** ARecord::toString: "A Record: ", the owner, the TTL, then the address
      as inet_ntoa prints it. inet_ntoa is a foreign call, the parameter
      `ntoa` here. */
  function AText(ntoa: u32 -> string, r: ResourceRecord): string
    requires r.data.A?
  {
    "A Record: " + OwnerText(r) + "A " + ntoa(r.data.address)
  }

  /** The toString a record pointer dispatches to. */
  function AnyText(ntoa: u32 -> string, r: ResourceRecord): string
  {
    if r.data.A? then AText(ntoa, r) else RecordText(r)
  }

  /** Every record's text shows its owner and TTL first, after the prefix
      "A Record: " for an A record. */
  lemma TextStartsWithOwner(ntoa: u32 -> string, r: ResourceRecord)
    ensures var s, o := AnyText(ntoa, r), OwnerText(r);
      if r.data.A? then |s| >= 10 + |o| && s[..10] == "A Record: " && s[10..10 + |o|] == o
      else |s| >= |o| && s[..|o|] == o
  {
    var s, o := AnyText(ntoa, r), OwnerText(r);
    var rest := match r.data
      case A(address) => "A " + ntoa(address)
      case NS(ns) => "NS " + ns
      case CNAME(cname) => "CNAME " + cname
      case PTR(ptr) => "PTR " + ptr
      case MX(p, e) => "MX " + Decimal(p as nat) + " " + e
      case Unknown(c, d) => "TYPE" + Decimal(c as nat) + " \\# " + Decimal(|d|) + RdataText(d);
    if r.data.A? {
      assert s == "A Record: " + (o + rest);
      assert s[10..] == o + rest;
    } else {
      assert s == o + rest;
    }
  }

  /** The unknown record's toString, building the stream byte by byte. */
  method UnknownText(r: ResourceRecord) returns (s: string)
    requires r.data.Unknown?
    ensures s == RecordText(r)
  {
    var rdata := r.data.rdata;
    s := OwnerText(r) + "TYPE" + Decimal(r.data.code as nat) + " \\# " + Decimal(|rdata|);
    assert RecordText(r) == s + RdataText(rdata);
    if rdata != [] {
      var hex := "";
      for i := 0 to |rdata|
        invariant hex == HexList(rdata[..i])
      {
        HexListAppend(rdata[..i], rdata[i]);
        assert rdata[..i + 1] == rdata[..i] + [rdata[i]];
        hex := hex + Hex2(rdata[i]) + " ";
      }
      assert rdata[..|rdata|] == rdata;
      s := s + (" ( " + hex + ")");
    }
  }

  /** The hex tail loses nothing: it lists the data's length in groups and
      decodes back to the data. */
  lemma RdataTextRoundTrip(rdata: seq<byte>)
    requires rdata != []
    ensures var t := RdataText(rdata);
      |t| == 3 * |rdata| + 4 && t[..3] == " ( " && t[|t| - 1] == ')'
      && UnHexList(t[3..|t| - 1]) == rdata
  {
    var t := RdataText(rdata);
    assert t[3..|t| - 1] == HexList(rdata);
    HexListRoundTrip(rdata);
  }

  lemma MxText()
    ensures RecordText(ResourceRecord("example.com", 3600, MX(10, "mail.example.com")))
         == "example.com 3600 IN MX 10 mail.example.com"
  {
    var r := ResourceRecord("example.com", 3600, MX(10, "mail.example.com"));
    assert "example.com 3600 IN " + "MX " + "10" + " " + "mail.example.com"
        == "example.com 3600 IN MX 10 mail.example.com";
    assert RecordText(r) == OwnerText(r) + "MX " + Decimal(10) + " " + "mail.example.com";
    assert OwnerText(r) == "example.com 3600 IN " by {
      DecimalLiterals();
    }
    assert Decimal(10) == "10" by {
      DecimalLiterals();
    }
  }

  lemma UnknownTextVector()
    ensures RecordText(ResourceRecord("unknown.com", 3600, Unknown(999, [0xAB, 0xCD])))
         == "unknown.com 3600 IN TYPE999 \\# 2 ( AB CD )"
  {
    var r := ResourceRecord("unknown.com", 3600, Unknown(999, [0xAB, 0xCD]));
    assert RecordText(r) == OwnerText(r) + "TYPE" + Decimal(999) + " \\# " + Decimal(2) + RdataText([0xAB, 0xCD]);
    UnknownOwnerText();
    DecimalLiterals();
    AbCdText();
    UnknownTextPieces();
  }

  lemma UnknownOwnerText()
    ensures OwnerText(ResourceRecord("unknown.com", 3600, Unknown(999, [0xAB, 0xCD]))) == "unknown.com 3600 IN "
  {
    DecimalLiterals();
  }

  lemma UnknownTextPieces()
    ensures "unknown.com 3600 IN " + "TYPE" + "999" + " \\# " + "2" + " ( AB CD )"
         == "unknown.com 3600 IN TYPE999 \\# 2 ( AB CD )"
  {
  }

  /** The RDATA 0xAB 0xCD in the generic form. */
  lemma AbCdText()
    ensures RdataText([0xAB, 0xCD]) == " ( AB CD )"
  {
    assert HexList([0xCD]) == "CD ";
    assert HexList([0xAB, 0xCD]) == "AB CD ";
  }

  /** The decimal renderings the vectors above use. */
  lemma DecimalLiterals()
    ensures Decimal(2) == "2" && Decimal(10) == "10" && Decimal(999) == "999" && Decimal(3600) == "3600"
  {
    assert Decimal(36) == "36";
    assert Decimal(360) == "360";
    assert Decimal(99) == "99";
  }

  /** Without data the text stops after the length: no parentheses. */
  lemma EmptyUnknownText(r: ResourceRecord)
    requires r.data.Unknown? && r.data.rdata == []
    ensures RecordText(r) == OwnerText(r) + "TYPE" + Decimal(r.data.code as nat) + " \\# 0"
    ensures '(' !in RecordText(r)[|OwnerText(r)|..]
  {
    var rest := "TYPE" + Decimal(r.data.code as nat) + " \\# 0";
    assert RecordText(r) == OwnerText(r) + rest;
    DecimalHasNoSeparator(r.data.code as nat, '(');
    assert RecordText(r)[|OwnerText(r)|..] == rest;
    assert rest == "TYPE" + Decimal(r.data.code as nat) + " \\# 0";
  }
}
