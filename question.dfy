/** A question entry (section 4.1.2 of RFC 1035): a name checked by the
    library's domain-name validator, a 16-bit type and a 16-bit class. */
module Question {
  import opened Wire
  import opened Reader
  import opened Writer
  import opened Text
  import opened DnsTypes

  datatype DnsQuestion = DnsQuestion(name: string, qtype: u16, qclass: u16)

  /** Both constructors: store the name and the two codes (the enumeration
      constructor stores the enumerators' numeric codes), then run the
      validator, which throws on a name it rejects, so no question exists.
      The validator's body is not part of this model: it is the parameter
      `valid`. */
  function NewQuestion(valid: string -> bool, name: string, qtype: u16, qclass: u16): (r: Result<DnsQuestion>)
    ensures r.Ok? <==> valid(name)
    ensures r.Ok? ==> r.value.name == name && r.value.qtype == qtype && r.value.qclass == qclass
    ensures r.Err? ==> r.error == InvalidName
  {
    if valid(name) then Ok(DnsQuestion(name, qtype, qclass)) else Err(InvalidName)
  }

  /** serialize: the encoded name, then the type and the class big-endian;
      a "label too long" from the name stops it before the codes. */
  function QuestionBytes(q: DnsQuestion): (r: Output)
    ensures r.ok == DomainBytes(q.name).ok
  {
    Then(DomainBytes(q.name), Output(BigEndian16(q.qtype) + BigEndian16(q.qclass), true))
  }

  method Serialize(q: DnsQuestion, buff: ByteVector) returns (ok: bool)
    modifies buff
    ensures buff.data == old(buff.data) + QuestionBytes(q).bytes
    ensures ok == QuestionBytes(q).ok
  {
    ghost var d := DomainBytes(q.name);
    ghost var codes := BigEndian16(q.qtype) + BigEndian16(q.qclass);
    assert QuestionBytes(q) == Then(d, Output(codes, true));
    ok := WriteDomain(buff, q.name);
    if !ok {
      return;
    }
    WriteU16(buff, q.qtype);
    WriteU16(buff, q.qclass);
    AppendAssoc(old(buff.data) + d.bytes, BigEndian16(q.qtype), BigEndian16(q.qclass));
    AppendAssoc(old(buff.data), d.bytes, codes);
  }

  /** The question adds exactly four bytes to its encoded name, or stops
      with the name's error after the name's partial output. */
  lemma QuestionLength(q: DnsQuestion)
    ensures QuestionBytes(q).ok == DomainBytes(q.name).ok
    ensures DomainBytes(q.name).ok ==> |QuestionBytes(q).bytes| == |DomainBytes(q.name).bytes| + 4
    ensures !DomainBytes(q.name).ok ==> QuestionBytes(q).bytes == DomainBytes(q.name).bytes
  {
  }

  /** The encoding of google.com, type A, class IN. */
  lemma GoogleComQuestion()
    ensures QuestionBytes(DnsQuestion("google.com", TYPE_A, CLASS_IN))
         == Output([6, 103, 111, 111, 103, 108, 101, 3, 99, 111, 109, 0, 0, 1, 0, 1], true)
  {
    var enc: seq<byte> := [6, 103, 111, 111, 103, 108, 101, 3, 99, 111, 109, 0];
    assert BigEndian16(1) == [0, 1];
    assert enc + [0, 1] + [0, 1] == [6, 103, 111, 111, 103, 108, 101, 3, 99, 111, 109, 0, 0, 1, 0, 1];
    GoogleCom();
    QuestionAfterName(DnsQuestion("google.com", TYPE_A, CLASS_IN), enc);
  }

  lemma QuestionAfterName(q: DnsQuestion, enc: seq<byte>)
    requires DomainBytes(q.name) == Output(enc, true)
    ensures QuestionBytes(q) == Output(enc + BigEndian16(q.qtype) + BigEndian16(q.qclass), true)
  {
  }

  /** A question written anywhere in a message reads back: the name without
      its trailing dot, then the type, then the class. */
  lemma QuestionRoundTrip(pre: seq<byte>, q: DnsQuestion, post: seq<byte>)
    requires Encodable(q.name)
    ensures QuestionBytes(q).ok
    ensures var buf := pre + QuestionBytes(q).bytes + post;
      var n := |pre| + |DomainBytes(q.name).bytes|;
      && NameAt(buf, |pre|) == Read(Ok(StripDot(q.name)), n)
      && U16At(buf, n) == Read(Ok(q.qtype), n + 2)
      && U16At(buf, n + 2) == Read(Ok(q.qclass), n + 4)
  {
    var enc := DomainBytes(q.name).bytes;
    var codes := BigEndian16(q.qtype) + BigEndian16(q.qclass);
    NameRoundTrip(pre, q.name, codes + post);
    QuestionAfterName(q, enc);
    var buf := pre + QuestionBytes(q).bytes + post;
    assert buf == pre + enc + (codes + post);
    U16RoundTrip(pre + enc, q.qtype, BigEndian16(q.qclass) + post);
    assert buf == (pre + enc) + BigEndian16(q.qtype) + (BigEndian16(q.qclass) + post);
    U16RoundTrip(pre + enc + BigEndian16(q.qtype), q.qclass, post);
    assert buf == (pre + enc + BigEndian16(q.qtype)) + BigEndian16(q.qclass) + post;
  }

  /** toString: the name as stored, the type's name and the class in
      decimal. */
  function QuestionText(q: DnsQuestion): string
  {
    "name: " + q.name + " type: " + TypeName(q.qtype) + " qclass: " + Decimal(q.qclass as nat)
  }

  /** The text read back: for names without a space and types the switch
      names, the toString text determines the question. */
  lemma QuestionTextInjective(q1: DnsQuestion, q2: DnsQuestion)
    requires ' ' !in q1.name && ' ' !in q2.name && Named(q1.qtype)
    requires QuestionText(q1) == QuestionText(q2)
    ensures q1 == q2
  {
    var t1, t2 := TypeName(q1.qtype), TypeName(q2.qtype);
    var d1, d2 := Decimal(q1.qclass as nat), Decimal(q2.qclass as nat);
    var w1, w2 := "qclass: " + d1, "qclass: " + d2;
    var z1, z2 := t1 + [' '] + w1, t2 + [' '] + w2;
    var y1, y2 := "type:" + [' '] + z1, "type:" + [' '] + z2;
    var x1, x2 := q1.name + [' '] + y1, q2.name + [' '] + y2;
    QuestionTextShape(q1);
    QuestionTextShape(q2);
    SeparatorSplit("name:", x1, "name:", x2, ' ');
    SeparatorSplit(q1.name, y1, q2.name, y2, ' ');
    SeparatorSplit("type:", z1, "type:", z2, ' ');
    NoSpaceInTypeName(q1.qtype);
    NoSpaceInTypeName(q2.qtype);
    SeparatorSplit(t1, w1, t2, w2, ' ');
    assert d1 == w1[8..] && d2 == w2[8..];
    DecimalInjective(q1.qclass as nat, q2.qclass as nat);
    TypeNameInjective(q1.qtype, q2.qtype);
  }

  /** The text as four space-separated pieces. */
  lemma QuestionTextShape(q: DnsQuestion)
    ensures QuestionText(q)
         == "name:" + [' '] + (q.name + [' '] + ("type:" + [' '] + (TypeName(q.qtype) + [' '] + ("qclass: " + Decimal(q.qclass as nat)))))
  {
  }

  /** No type name holds a space. */
  lemma NoSpaceInTypeName(t: u16)
    ensures ' ' !in TypeName(t)
  {
  }

  lemma GoogleComQuestionText()
    ensures QuestionText(DnsQuestion("google.com", TYPE_A, CLASS_IN)) == "name: google.com type: A qclass: 1"
  {
  }

  /** A CNAME question prints its type as "Unknown", like any code without
      a name. */
  lemma CnameQuestionText(name: string, qclass: u16)
    ensures QuestionText(DnsQuestion(name, TYPE_CNAME, qclass)) == QuestionText(DnsQuestion(name, 999, qclass))
  {
  }
}
