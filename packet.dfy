/** A whole message, section 4.1 of RFC 1035: the header, then the question,
    answer, authority and additional sections, written one after another. */
module Packet {
  import opened Wire
  import opened Writer
  import opened Text
  import opened Header
  import opened Question
  import opened Records

  /** A section entry as the packet stores it: a shared pointer to a record,
      null (None) when the record factory built none. */
  type RecordRef = Option<ResourceRecord>

  predicate NoNull(rs: seq<RecordRef>)
  {
    forall i :: 0 <= i < |rs| ==> rs[i].Some?
  }

  /** The records a section without null pointers points to. */
  function Targets(rs: seq<RecordRef>): (ts: seq<ResourceRecord>)
    requires NoNull(rs)
    ensures |ts| == |rs| && forall i :: 0 <= i < |rs| ==> rs[i] == Some(ts[i])
  {
    seq(|rs|, i requires 0 <= i < |rs| && NoNull(rs) => rs[i].value)
  }

  /** The parts written one after another, stopping at the first that
      fails. */
  function Each<T>(xs: seq<T>, enc: T -> Output): Output
  {
    if xs == [] then Output([], true) else Then(Each(xs[..|xs| - 1], enc), enc(xs[|xs| - 1]))
  }

  /** A run of parts succeeds exactly when every part does, and then it is
      the concatenation of their encodings. */
  lemma {:induction false} EachOk<T>(xs: seq<T>, enc: T -> Output)
    ensures Each(xs, enc).ok <==> forall i :: 0 <= i < |xs| ==> enc(xs[i]).ok
    ensures (forall i :: 0 <= i < |xs| ==> enc(xs[i]).ok) ==> Each(xs, enc).bytes == Flatten(xs, enc)
  {
    if xs != [] {
      var init := xs[..|xs| - 1];
      EachOk(init, enc);
      assert forall i :: 0 <= i < |init| ==> init[i] == xs[i];
    }
  }

  /** The concatenation of the parts' bytes. */
  function Flatten<T>(xs: seq<T>, enc: T -> Output): seq<byte>
  {
    if xs == [] then [] else Flatten(xs[..|xs| - 1], enc) + enc(xs[|xs| - 1]).bytes
  }

  /** Once a prefix of the parts fails, nothing after it is written. */
  lemma {:induction false} EachStops<T>(xs: seq<T>, k: nat, enc: T -> Output)
    requires k <= |xs| && !Each(xs[..k], enc).ok
    ensures Each(xs, enc) == Each(xs[..k], enc)
    decreases |xs| - k
  {
    if k < |xs| {
      var ys := xs[..k + 1];
      assert ys[..|ys| - 1] == xs[..k];
      EachStops(xs, k + 1, enc);
    } else {
      assert xs[..k] == xs;
    }
  }

  /** The message's value: what serialize writes and toString prints. */
  datatype PacketValue = PacketValue(
    header: HeaderFields,
    questions: seq<DnsQuestion>,
    answers: seq<RecordRef>,
    authority: seq<RecordRef>,
    additional: seq<RecordRef>)

  predicate Dereferencable(p: PacketValue)
  {
    NoNull(p.answers) && NoNull(p.authority) && NoNull(p.additional)
  }

  /** serialize: the header with its counts as stored, then each section in
      list order; the first part that throws ends the output. */
  function MessageBytes(p: PacketValue): (r: Output)
    requires Dereferencable(p)
    ensures |r.bytes| >= 12 && r.bytes[..12] == HeaderBytes(p.header)
  {
    var h := Output(HeaderBytes(p.header), true);
    var q := Then(h, Each(p.questions, QuestionBytes));
    ThenPrefix(h, Each(p.questions, QuestionBytes), 12);
    var an := Then(q, Each(Targets(p.answers), RecordBytes));
    ThenPrefix(q, Each(Targets(p.answers), RecordBytes), 12);
    var ns := Then(an, Each(Targets(p.authority), RecordBytes));
    ThenPrefix(an, Each(Targets(p.authority), RecordBytes), 12);
    ThenPrefix(ns, Each(Targets(p.additional), RecordBytes), 12);
    Then(ns, Each(Targets(p.additional), RecordBytes))
  }

  /** When every part encodes, the message is exactly the header followed
      by the parts' encodings, in order; the header counts are whatever the
      header holds, never recomputed from the sections. */
  lemma MessageLayout(p: PacketValue)
    requires Dereferencable(p)
    requires forall i :: 0 <= i < |p.questions| ==> QuestionBytes(p.questions[i]).ok
    requires forall i :: 0 <= i < |p.answers| ==> RecordBytes(p.answers[i].value).ok
    requires forall i :: 0 <= i < |p.authority| ==> RecordBytes(p.authority[i].value).ok
    requires forall i :: 0 <= i < |p.additional| ==> RecordBytes(p.additional[i].value).ok
    ensures MessageBytes(p).ok
    ensures MessageBytes(p).bytes == HeaderBytes(p.header)
      + Flatten(p.questions, QuestionBytes)
      + Flatten(Targets(p.answers), RecordBytes)
      + Flatten(Targets(p.authority), RecordBytes)
      + Flatten(Targets(p.additional), RecordBytes)
    ensures MessageBytes(p).bytes[..12] == HeaderBytes(p.header)
  {
    var q := Each(p.questions, QuestionBytes);
    EachOk(p.questions, QuestionBytes);
    var an := RecordsOk(p.answers);
    var ns := RecordsOk(p.authority);
    var ar := RecordsOk(p.additional);
    var h := HeaderBytes(p.header);
    ThenChain(h, q, Each(Targets(p.answers), RecordBytes),
      Each(Targets(p.authority), RecordBytes), Each(Targets(p.additional), RecordBytes));
    TakeOfAppend(h + q.bytes + an + ns, ar, 12);
    TakeOfAppend(h + q.bytes + an, ns, 12);
    TakeOfAppend(h + q.bytes, an, 12);
    TakeOfAppend(h, q.bytes, 12);
  }

  /** Four parts that all encode, written behind a fixed prefix. */
  lemma ThenChain(a: seq<byte>, b: Output, c: Output, d: Output, e: Output)
    requires b.ok && c.ok && d.ok && e.ok
    ensures Then(Then(Then(Then(Output(a, true), b), c), d), e)
      == Output(a + b.bytes + c.bytes + d.bytes + e.bytes, true)
  {
  }

  /** Bytes appended behind a prefix leave the prefix where it is. */
  lemma TakeOfAppend(x: seq<byte>, y: seq<byte>, n: nat)
    requires n <= |x|
    ensures (x + y)[..n] == x[..n]
  {
  }

  /** A section whose records all encode is written as their
      concatenation. */
  lemma RecordsOk(rs: seq<RecordRef>) returns (bytes: seq<byte>)
    requires NoNull(rs)
    requires forall i :: 0 <= i < |rs| ==> RecordBytes(rs[i].value).ok
    ensures bytes == Flatten(Targets(rs), RecordBytes)
    ensures Each(Targets(rs), RecordBytes) == Output(bytes, true)
  {
    var ts := Targets(rs);
    EachOk(ts, RecordBytes);
    bytes := Flatten(ts, RecordBytes);
  }

  /** A message whose sections are empty is its twelve header bytes. */
  lemma HeaderOnly(h: HeaderFields)
    ensures MessageBytes(PacketValue(h, [], [], [], [])) == Output(HeaderBytes(h), true)
  {
    var p := PacketValue(h, [], [], [], []);
    assert Targets(p.answers) == [];
  }

  /** A section in toString: its heading, then one line per entry, or
      nothing at all when the section is empty. */
  function Section<T>(heading: string, xs: seq<T>, line: T -> string): (s: string)
    ensures xs == [] ==> s == ""
    ensures xs != [] ==> |s| >= |heading| && s[..|heading|] == heading
  {
    if xs == [] then "" else heading + Lines(xs, line)
  }

  function Lines<T>(xs: seq<T>, line: T -> string): string
  {
    if xs == [] then "" else Lines(xs[..|xs| - 1], line) + line(xs[|xs| - 1])
  }

  function QuestionLine(q: DnsQuestion): string
  {
    "\n  " + QuestionText(q)
  }

  function RecordLine(ntoa: u32 -> string): ResourceRecord -> string
  {
    r => "\n" + AnyText(ntoa, r)
  }

  /** toString: a banner and the header, then the sections that are not
      empty. The address rendering of A records is the parameter `ntoa`. */
  function PacketText(ntoa: u32 -> string, p: PacketValue): string
    requires Dereferencable(p)
  {
    "<< Packet LOG >>\n" + HeaderText(p.header)
      + Section("\nQuestions:", p.questions, QuestionLine)
      + Section("\nAnswers:", Targets(p.answers), RecordLine(ntoa))
      + Section("\nAuthority:", Targets(p.authority), RecordLine(ntoa))
      + Section("\nAdditional:", Targets(p.additional), RecordLine(ntoa))
  }

  /** With every section empty the text is the banner and the header. */
  lemma EmptyPacketText(ntoa: u32 -> string, h: HeaderFields)
    ensures PacketText(ntoa, PacketValue(h, [], [], [], [])) == "<< Packet LOG >>\n" + HeaderText(h)
  {
    var p := PacketValue(h, [], [], [], []);
    assert Targets(p.answers) == [];
  }

  /** A packet with only questions shows the questions heading right after
      the header, and no other heading. */
  lemma QuestionsOnlyText(ntoa: u32 -> string, h: HeaderFields, qs: seq<DnsQuestion>)
    requires qs != []
    ensures var head := "<< Packet LOG >>\n" + HeaderText(h);
      PacketText(ntoa, PacketValue(h, qs, [], [], [])) == head + "\nQuestions:" + Lines(qs, QuestionLine)
  {
    var p := PacketValue(h, qs, [], [], []);
    assert Targets(p.answers) == [];
  }

  /** The message object: a header and the four sections, filled in by the
      builder. */
  class DnsPacket {
    const header: DnsHeader
    var questions: seq<DnsQuestion>
    var answers: seq<RecordRef>
    var authority: seq<RecordRef>
    var additional: seq<RecordRef>

    function Value(): PacketValue
      reads this, header
    {
      PacketValue(header.Fields(), questions, answers, authority, additional)
    }

    /** A new packet: default header, no entries. */
    constructor ()
      ensures fresh(header)
      ensures Value() == PacketValue(HeaderFields(0, 0, 0, 0, 0, 0), [], [], [], [])
    {
      header := new DnsHeader();
      questions, answers, authority, additional := [], [], [], [];
    }

    method Serialize(buff: ByteVector) returns (ok: bool)
      requires Dereferencable(Value())
      modifies buff
      ensures buff.data == old(buff.data) + MessageBytes(Value()).bytes
      ensures ok == MessageBytes(Value()).ok
    {
      ghost var p := Value();
      ghost var start := buff.data;
      header.Serialize(buff);
      ghost var h := Output(HeaderBytes(p.header), true);
      ghost var q := Each(p.questions, QuestionBytes);
      ok := WriteQuestions(questions, buff);
      ThenStep(start, h, q);
      if !ok {
        return;
      }
      ghost var hq := Then(h, q);
      ghost var an := Each(Targets(p.answers), RecordBytes);
      ok := WriteRecords(answers, buff);
      ThenStep(start, hq, an);
      if !ok {
        return;
      }
      ghost var hqa := Then(hq, an);
      ghost var ns := Each(Targets(p.authority), RecordBytes);
      ok := WriteRecords(authority, buff);
      ThenStep(start, hqa, ns);
      if !ok {
        return;
      }
      ghost var hqan := Then(hqa, ns);
      ghost var ar := Each(Targets(p.additional), RecordBytes);
      ok := WriteRecords(additional, buff);
      ThenStep(start, hqan, ar);
    }

    /** toString, one section loop after another. */
    method ToString(ntoa: u32 -> string) returns (log: string)
      requires Dereferencable(Value())
      ensures log == PacketText(ntoa, Value())
    {
      log := "<< Packet LOG >>\n" + header.ToString();
      var qs := AppendLines("\nQuestions:", questions, QuestionLine);
      log := log + qs;
      var an := AppendLines("\nAnswers:", Targets(answers), RecordLine(ntoa));
      log := log + an;
      var ns := AppendLines("\nAuthority:", Targets(authority), RecordLine(ntoa));
      log := log + ns;
      var ar := AppendLines("\nAdditional:", Targets(additional), RecordLine(ntoa));
      log := log + ar;
    }
  }

  /** Appending two outputs in turn appends their combination. */
  lemma ThenStep(start: seq<byte>, a: Output, b: Output)
    requires a.ok
    ensures start + a.bytes + b.bytes == start + Then(a, b).bytes
    ensures Then(a, b).ok == b.ok
  {
  }

  /** One section's loop in serialize, for the questions. */
  method WriteQuestions(qs: seq<DnsQuestion>, buff: ByteVector) returns (ok: bool)
    modifies buff
    ensures buff.data == old(buff.data) + Each(qs, QuestionBytes).bytes
    ensures ok == Each(qs, QuestionBytes).ok
  {
    ok := true;
    for i := 0 to |qs|
      invariant Each(qs[..i], QuestionBytes).ok
      invariant buff.data == old(buff.data) + Each(qs[..i], QuestionBytes).bytes
    {
      assert qs[..i + 1][..i] == qs[..i];
      ghost var before := buff.data;
      ok := Question.Serialize(qs[i], buff);
      AppendAssoc(old(buff.data), Each(qs[..i], QuestionBytes).bytes, QuestionBytes(qs[i]).bytes);
      if !ok {
        EachStops(qs, i + 1, QuestionBytes);
        return;
      }
    }
    assert qs[..|qs|] == qs;
  }

  /** One section's loop in serialize, for records. */
  method WriteRecords(rs: seq<RecordRef>, buff: ByteVector) returns (ok: bool)
    requires NoNull(rs)
    modifies buff
    ensures buff.data == old(buff.data) + Each(Targets(rs), RecordBytes).bytes
    ensures ok == Each(Targets(rs), RecordBytes).ok
  {
    ok := true;
    ghost var ts := Targets(rs);
    for i := 0 to |rs|
      invariant Each(ts[..i], RecordBytes).ok
      invariant buff.data == old(buff.data) + Each(ts[..i], RecordBytes).bytes
    {
      assert ts[..i + 1][..i] == ts[..i];
      ok := Records.Serialize(rs[i].value, buff);
      AppendAssoc(old(buff.data), Each(ts[..i], RecordBytes).bytes, RecordBytes(ts[i]).bytes);
      if !ok {
        EachStops(ts, i + 1, RecordBytes);
        return;
      }
    }
    assert ts[..|rs|] == ts;
  }

  /** One section's loop in toString: the heading when the section has
      entries, then a line per entry. */
  method AppendLines<T>(heading: string, xs: seq<T>, line: T -> string) returns (s: string)
    ensures s == Section(heading, xs, line)
  {
    s := "";
    if xs != [] {
      s := heading;
    }
    for i := 0 to |xs|
      invariant s == (if xs == [] then "" else heading) + Lines(xs[..i], line)
    {
      assert xs[..i + 1][..i] == xs[..i];
      s := s + line(xs[i]);
    }
    assert xs[..|xs|] == xs;
  }
}
