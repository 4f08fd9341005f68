/** PacketParser and RecordFactory: decoding a message by reading the header
    fields, then exactly as many questions and records as the header
    announces, through a ByteReader and into a PacketBuilder. */
module Parser {
  import opened Wire
  import opened Reader
  import opened Writer
  import opened Header
  import opened DnsTypes
  import opened Question
  import opened Records
  import opened Packet
  import opened Builder

  /** A 16-bit count of `n` entries, as the builder's counters hold it. */
  function Count(n: nat): (c: u16)
    ensures c as int == n % 0x1_0000
  {
    (n % 0x1_0000) as u16
  }

  /** One question as the parse loop reads it: the name, the type, a class
      that is read and dropped, then the question of class IN that the
      builder makes, which the validator may reject. */
  function QuestionAt(valid: string -> bool, buf: seq<byte>, pos: nat): (r: Read<DnsQuestion>)
    ensures r.result.Ok? ==> r.result.value.qclass == CLASS_IN && valid(r.result.value.name)
    ensures r.result.Ok? ==> r.pos >= pos + 5
  {
    var name := NameAt(buf, pos);
    if name.result.Err? then Read(Err(name.result.error), name.pos) else
    var t := U16At(buf, name.pos);
    if t.result.Err? then Read(Err(t.result.error), t.pos) else
    var c := U16At(buf, t.pos);
    if c.result.Err? then Read(Err(c.result.error), c.pos) else
    var q := NewQuestion(valid, name.result.value, t.result.value, CLASS_IN);
    Read(q, c.pos)
  }

  /** A section loop: `k` more reads of `step`, each from where the last
      one left the reader, after the `acc` already read; the first read
      that throws ends the loop. */
  function Repeat<T>(step: nat -> Read<T>, pos: nat, k: nat, acc: seq<T>): (r: Read<seq<T>>)
    ensures r.result.Ok? ==> |r.result.value| == |acc| + k && r.result.value[..|acc|] == acc
    decreases k
  {
    if k == 0 then Read(Ok(acc), pos)
    else
      var x := step(pos);
      if x.result.Err? then Read(Err(x.result.error), x.pos)
      else Repeat(step, x.pos, k - 1, acc + [x.result.value])
  }

  /** One read done, k - 1 to go. */
  lemma RepeatStep<T>(step: nat -> Read<T>, pos: nat, k: nat, acc: seq<T>, x: T, next: nat)
    requires k > 0 && step(pos) == Read(Ok(x), next)
    ensures Repeat(step, pos, k, acc) == Repeat(step, next, k - 1, acc + [x])
  {
  }

  /** What every read of `step` makes satisfies `p`: so does everything the
      loop adds. */
  lemma {:induction false} RepeatKeeps<T>(step: nat -> Read<T>, p: T -> bool, pos: nat, k: nat, acc: seq<T>)
    requires forall q: nat :: step(q).result.Ok? ==> p(step(q).result.value)
    ensures var r := Repeat(step, pos, k, acc);
      r.result.Ok? ==> forall i :: |acc| <= i < |r.result.value| ==> p(r.result.value[i])
    decreases k
  {
    if k > 0 {
      var x := step(pos);
      if x.result.Ok? {
        RepeatKeeps(step, p, x.pos, k - 1, acc + [x.result.value]);
      }
    }
  }

  /** When the i-th read, made at starts[i], returns the i-th part and
      leaves the reader at starts[i + 1], the loop returns all the parts
      and stops at the last of the starts. */
  lemma {:induction false} RepeatReads<T>(step: nat -> Read<T>, starts: seq<nat>, xs: seq<T>, acc: seq<T>)
    requires |starts| == |xs| + 1
    requires forall i {:trigger step(starts[i])} :: 0 <= i < |xs| ==> step(starts[i]) == Read(Ok(xs[i]), starts[i + 1])
    ensures Repeat(step, starts[0], |xs|, acc) == Read(Ok(acc + xs), starts[|xs|])
    decreases |xs|
  {
    if xs == [] {
      assert acc + xs == acc;
    } else {
      RepeatStep(step, starts[0], |xs|, acc, xs[0], starts[1]);
      RepeatReads(step, starts[1..], xs[1..], acc + [xs[0]]);
      assert acc + [xs[0]] + xs[1..] == acc + xs;
    }
  }

  /** The question loop's read: one question. */
  function QuestionStep(valid: string -> bool, buf: seq<byte>): nat -> Read<DnsQuestion>
  {
    (p: nat) => QuestionAt(valid, buf, p)
  }

  /** `k` more questions read from `pos`, after the `acc` already read. */
  function QuestionsFrom(valid: string -> bool, buf: seq<byte>, pos: nat, k: nat, acc: seq<DnsQuestion>): Read<seq<DnsQuestion>>
  {
    Repeat(QuestionStep(valid, buf), pos, k, acc)
  }

  /** Every question the loop adds has class IN and a name the validator
      accepts. */
  lemma QuestionsValid(valid: string -> bool, buf: seq<byte>, pos: nat, k: nat, acc: seq<DnsQuestion>)
    ensures var r := QuestionsFrom(valid, buf, pos, k, acc);
      r.result.Ok? ==> forall i :: |acc| <= i < |r.result.value| ==>
        r.result.value[i].qclass == CLASS_IN && valid(r.result.value[i].name)
  {
    var p := (q: DnsQuestion) => q.qclass == CLASS_IN && valid(q.name);
    RepeatKeeps(QuestionStep(valid, buf), p, pos, k, acc);
  }

  /** RecordFactory::create: the owner, the type, a class that is ignored,
      the TTL and RDLENGTH; an A record reads its address, every other type
      gives a null record; the reader then moves to the end RDLENGTH
      announces, whatever was read before it and unchecked against the
      buffer's size. */
  function RecordAt(buf: seq<byte>, pos: nat): (r: Read<RecordRef>)
    ensures r.result.Ok? && r.result.value.Some? ==> r.result.value.value.data.A?
    ensures r.result.Ok? ==> r.pos >= pos + 11
  {
    var name := NameAt(buf, pos);
    if name.result.Err? then Read(Err(name.result.error), name.pos) else
    var t := U16At(buf, name.pos);
    if t.result.Err? then Read(Err(t.result.error), t.pos) else
    var c := U16At(buf, t.pos);
    if c.result.Err? then Read(Err(c.result.error), c.pos) else
    var ttl := U32At(buf, c.pos);
    if ttl.result.Err? then Read(Err(ttl.result.error), ttl.pos) else
    var len := U16At(buf, ttl.pos);
    if len.result.Err? then Read(Err(len.result.error), len.pos) else
    var end := len.pos + len.result.value as nat;
    if t.result.value == TYPE_A then
      var ip := U32At(buf, len.pos);
      if ip.result.Err? then Read(Err(ip.result.error), ip.pos)
      else Read(Ok(Some(ResourceRecord(name.result.value, ttl.result.value, A(ip.result.value)))), end)
    else Read(Ok(None), end)
  }

  /** The record loops' read: one record. */
  function RecordStep(buf: seq<byte>): nat -> Read<RecordRef>
  {
    (p: nat) => RecordAt(buf, p)
  }

  /** `k` more records read from `pos`, after the `acc` already read. */
  function RecordsFrom(buf: seq<byte>, pos: nat, k: nat, acc: seq<RecordRef>): Read<seq<RecordRef>>
  {
    Repeat(RecordStep(buf), pos, k, acc)
  }

  /** The first pass of the question loop: its read throws, ending the
      loop, or adds a question. */
  lemma QuestionsFromFirst(valid: string -> bool, buf: seq<byte>, pos: nat, k: nat, acc: seq<DnsQuestion>)
    requires k > 0
    ensures var x := QuestionAt(valid, buf, pos);
      QuestionsFrom(valid, buf, pos, k, acc)
        == if x.result.Err? then Read(Err(x.result.error), x.pos)
           else QuestionsFrom(valid, buf, x.pos, k - 1, acc + [x.result.value])
  {
    assert QuestionStep(valid, buf)(pos) == QuestionAt(valid, buf, pos);
  }

  /** The first pass of a record loop: its read throws, ending the loop, or
      adds a record. */
  lemma RecordsFromFirst(buf: seq<byte>, pos: nat, k: nat, acc: seq<RecordRef>)
    requires k > 0
    ensures var x := RecordAt(buf, pos);
      RecordsFrom(buf, pos, k, acc)
        == if x.result.Err? then Read(Err(x.result.error), x.pos)
           else RecordsFrom(buf, x.pos, k - 1, acc + [x.result.value])
  {
    assert RecordStep(buf)(pos) == RecordAt(buf, pos);
  }

  /** The six header fields, read big-endian from the first twelve bytes:
      they are exactly what serialize would write there. */
  function HeaderAt(buf: seq<byte>): (h: HeaderFields)
    requires |buf| >= 12
    ensures HeaderBytes(h) == buf[..12]
  {
    var h := HeaderFields(U16At(buf, 0).result.value, U16At(buf, 2).result.value,
      U16At(buf, 4).result.value, U16At(buf, 6).result.value,
      U16At(buf, 8).result.value, U16At(buf, 10).result.value);
    U16AtBytes(buf, 0);
    U16AtBytes(buf, 2);
    U16AtBytes(buf, 4);
    U16AtBytes(buf, 6);
    U16AtBytes(buf, 8);
    U16AtBytes(buf, 10);
    assert buf[..12] == buf[0..2] + buf[2..4] + buf[4..6] + buf[6..8] + buf[8..10] + buf[10..12];
    h
  }

  /** PacketParser::parse: the six header fields, then the four sections,
      each exactly as long as its count; bytes after the last record are
      never looked at. */
  function ParseValue(valid: string -> bool, buf: seq<byte>): Result<PacketValue>
  {
    if |buf| < 12 then Err(Truncated)
    else
      var h := HeaderAt(buf);
      var qs := QuestionsFrom(valid, buf, 12, h.qdCount as nat, []);
      if qs.result.Err? then Err(qs.result.error) else
      var an := RecordsFrom(buf, qs.pos, h.anCount as nat, []);
      if an.result.Err? then Err(an.result.error) else
      var ns := RecordsFrom(buf, an.pos, h.nsCount as nat, []);
      if ns.result.Err? then Err(ns.result.error) else
      var ar := RecordsFrom(buf, ns.pos, h.arCount as nat, []);
      if ar.result.Err? then Err(ar.result.error) else
      Ok(PacketValue(h, qs.result.value, an.result.value, ns.result.value, ar.result.value))
  }

  /** Fewer than twelve bytes: one of the header reads throws. */
  lemma ShortInputTruncated(valid: string -> bool, buf: seq<byte>)
    requires |buf| < 12
    ensures ParseValue(valid, buf) == Err(Truncated)
  {
  }

  /** A parsed message's header re-serializes to the first twelve bytes, its
      sections are exactly as long as the counts say, and every question
      has class IN and a name the validator accepts. */
  lemma ParsedShape(valid: string -> bool, buf: seq<byte>)
    requires ParseValue(valid, buf).Ok?
    ensures var p := ParseValue(valid, buf).value;
      && HeaderBytes(p.header) == buf[..12]
      && |p.questions| == p.header.qdCount as int
      && |p.answers| == p.header.anCount as int
      && |p.authority| == p.header.nsCount as int
      && |p.additional| == p.header.arCount as int
      && forall i :: 0 <= i < |p.questions| ==> p.questions[i].qclass == CLASS_IN && valid(p.questions[i].name)
  {
    QuestionsValid(valid, buf, 12, HeaderAt(buf).qdCount as nat, []);
  }

  /** A header whose counts are all zero parses to a message with empty
      sections, whatever follows it. */
  lemma HeaderOnlyParse(valid: string -> bool, h: HeaderFields, rest: seq<byte>)
    requires h.qdCount == 0 && h.anCount == 0 && h.nsCount == 0 && h.arCount == 0
    ensures ParseValue(valid, HeaderBytes(h) + rest) == Ok(PacketValue(h, [], [], [], []))
  {
    HeaderRoundTrip(h, rest);
    assert HeaderAt(HeaderBytes(h) + rest) == h;
  }

  /** The bytes of a run of parts, the first part first. */
  lemma {:induction false} FlattenCons<T>(x: T, xs: seq<T>, enc: T -> Output)
    ensures Flatten([x] + xs, enc) == enc(x).bytes + Flatten(xs, enc)
    decreases |xs|
  {
    if xs != [] {
      var init := xs[..|xs| - 1];
      assert ([x] + xs)[..|xs|] == [x] + init;
      FlattenCons(x, init, enc);
    }
  }

  /** A question as written, with a name without a trailing dot and class
      IN, reads back as itself. */
  predicate Canonical(valid: string -> bool, q: DnsQuestion)
  {
    Encodable(q.name) && StripDot(q.name) == q.name && q.qclass == CLASS_IN && valid(q.name)
  }

  /** QuestionAt from the three reads it makes. */
  lemma QuestionAtReads(valid: string -> bool, buf: seq<byte>, pos: nat, name: string, n: nat, t: u16, c: u16)
    requires NameAt(buf, pos) == Read(Ok(name), n)
    requires U16At(buf, n) == Read(Ok(t), n + 2) && U16At(buf, n + 2) == Read(Ok(c), n + 4)
    ensures QuestionAt(valid, buf, pos) == Read(NewQuestion(valid, name, t, CLASS_IN), n + 4)
  {
  }

  lemma QuestionReadsBack(valid: string -> bool, pre: seq<byte>, q: DnsQuestion, post: seq<byte>)
    requires Canonical(valid, q)
    ensures QuestionBytes(q).ok
    ensures QuestionAt(valid, pre + QuestionBytes(q).bytes + post, |pre|)
         == Read(Ok(q), |pre| + |QuestionBytes(q).bytes|)
  {
    QuestionRoundTrip(pre, q, post);
    QuestionLength(q);
    var buf := pre + QuestionBytes(q).bytes + post;
    var n := |pre| + |DomainBytes(q.name).bytes|;
    CanonicalReads(valid, buf, |pre|, q, n);
  }

  /** The three reads of a canonical question give back the question. */
  lemma CanonicalReads(valid: string -> bool, buf: seq<byte>, pos: nat, q: DnsQuestion, n: nat)
    requires Canonical(valid, q)
    requires NameAt(buf, pos) == Read(Ok(StripDot(q.name)), n)
    requires U16At(buf, n) == Read(Ok(q.qtype), n + 2) && U16At(buf, n + 2) == Read(Ok(q.qclass), n + 4)
    ensures QuestionAt(valid, buf, pos) == Read(Ok(q), n + 4)
  {
    QuestionAtReads(valid, buf, pos, q.name, n, q.qtype, q.qclass);
  }

  /** A serialized question found at `pos` in any buffer reads back. */
  lemma QuestionAtIn(valid: string -> bool, buf: seq<byte>, pos: nat, q: DnsQuestion, end: nat)
    requires Canonical(valid, q)
    requires pos + |QuestionBytes(q).bytes| == end <= |buf| && buf[pos..end] == QuestionBytes(q).bytes
    ensures QuestionAt(valid, buf, pos) == Read(Ok(q), end)
  {
    var qb := QuestionBytes(q).bytes;
    var pre, post := buf[..pos], buf[end..];
    assert buf == pre + qb + post;
    QuestionReadsBack(valid, pre, q, post);
  }

  /** The parts before part i, then part i, begin the parts' bytes. */
  lemma {:induction false} FlattenPrefix<T>(xs: seq<T>, i: nat, enc: T -> Output)
    requires i <= |xs|
    ensures |Flatten(xs[..i], enc)| <= |Flatten(xs, enc)|
    ensures Flatten(xs, enc)[..|Flatten(xs[..i], enc)|] == Flatten(xs[..i], enc)
    decreases |xs|
  {
    if i < |xs| {
      var init := xs[..|xs| - 1];
      assert init[..i] == xs[..i];
      FlattenPrefix(init, i, enc);
    } else {
      assert xs[..i] == xs;
    }
  }

  /** A part within a slice that holds a run of parts. */
  lemma SliceWithin(buf: seq<byte>, pos: nat, whole: seq<byte>, a: seq<byte>, b: seq<byte>)
    requires pos + |whole| <= |buf| && buf[pos..pos + |whole|] == whole
    requires |a| + |b| <= |whole| && whole[..|a| + |b|] == a + b
    ensures buf[pos + |a|..pos + |a| + |b|] == b
  {
    forall k | 0 <= k < |b|
      ensures buf[pos + |a| + k] == b[k]
    {
      assert buf[pos..pos + |whole|][|a| + k] == whole[|a| + k];
      assert whole[..|a| + |b|][|a| + k] == (a + b)[|a| + k];
    }
  }

  /** Within a buffer that holds a run of serialized parts at `pos`, the
      i-th part lies between the ends of the parts before it and of the
      parts up to it. */
  lemma PartSlice<T>(buf: seq<byte>, pos: nat, xs: seq<T>, enc: T -> Output, i: nat, a: nat, b: nat)
    requires pos + |Flatten(xs, enc)| <= |buf| && buf[pos..pos + |Flatten(xs, enc)|] == Flatten(xs, enc)
    requires i < |xs| && a == pos + |Flatten(xs[..i], enc)| && b == pos + |Flatten(xs[..i + 1], enc)|
    ensures a + |enc(xs[i]).bytes| == b <= |buf| && buf[a..b] == enc(xs[i]).bytes
  {
    var before := Flatten(xs[..i], enc);
    assert Flatten(xs[..i + 1], enc) == before + enc(xs[i]).bytes by {
      assert xs[..i + 1][..i] == xs[..i];
    }
    FlattenPrefix(xs, i + 1, enc);
    SliceWithin(buf, pos, Flatten(xs, enc), before, enc(xs[i]).bytes);
  }

  /** The i-th of a run of serialized questions reads back where the ones
      before it end. */
  lemma QuestionInRun(valid: string -> bool, buf: seq<byte>, pos: nat, qs: seq<DnsQuestion>, i: nat, a: nat, b: nat)
    requires i < |qs| && Canonical(valid, qs[i])
    requires pos + |Flatten(qs, QuestionBytes)| <= |buf| && buf[pos..pos + |Flatten(qs, QuestionBytes)|] == Flatten(qs, QuestionBytes)
    requires a == pos + |Flatten(qs[..i], QuestionBytes)| && b == pos + |Flatten(qs[..i + 1], QuestionBytes)|
    ensures QuestionAt(valid, buf, a) == Read(Ok(qs[i]), b)
  {
    PartSlice(buf, pos, qs, QuestionBytes, i, a, b);
    QuestionAtIn(valid, buf, a, qs[i], b);
  }

  /** Serialized questions, one after another, read back in order. */
  lemma QuestionsReadBack(valid: string -> bool, buf: seq<byte>, pos: nat, qs: seq<DnsQuestion>, acc: seq<DnsQuestion>)
    requires forall i :: 0 <= i < |qs| ==> Canonical(valid, qs[i])
    requires pos + |Flatten(qs, QuestionBytes)| <= |buf| && buf[pos..pos + |Flatten(qs, QuestionBytes)|] == Flatten(qs, QuestionBytes)
    ensures QuestionsFrom(valid, buf, pos, |qs|, acc) == Read(Ok(acc + qs), pos + |Flatten(qs, QuestionBytes)|)
  {
    var starts := QuestionStarts(pos, qs);
    QuestionsLineUp(valid, buf, pos, qs, starts);
    RepeatReads(QuestionStep(valid, buf), starts, qs, acc);
    assert qs[..0] == [] && qs[..|qs|] == qs;
  }

  lemma StepIsQuestionAt(valid: string -> bool, buf: seq<byte>, a: nat, b: nat, q: DnsQuestion)
    requires QuestionAt(valid, buf, a) == Read(Ok(q), b)
    ensures QuestionStep(valid, buf)(a) == Read(Ok(q), b)
  {
  }

  /** Where each of a run of serialized questions starts, and where the
      last one ends. */
  function QuestionStarts(pos: nat, qs: seq<DnsQuestion>): (starts: seq<nat>)
    ensures |starts| == |qs| + 1
    ensures forall i :: 0 <= i <= |qs| ==> starts[i] == pos + |Flatten(qs[..i], QuestionBytes)|
  {
    seq(|qs| + 1, i requires 0 <= i <= |qs| => pos + |Flatten(qs[..i], QuestionBytes)|)
  }

  lemma QuestionsLineUp(valid: string -> bool, buf: seq<byte>, pos: nat, qs: seq<DnsQuestion>, starts: seq<nat>)
    requires forall i :: 0 <= i < |qs| ==> Canonical(valid, qs[i])
    requires pos + |Flatten(qs, QuestionBytes)| <= |buf| && buf[pos..pos + |Flatten(qs, QuestionBytes)|] == Flatten(qs, QuestionBytes)
    requires starts == QuestionStarts(pos, qs)
    ensures forall i :: 0 <= i < |qs| ==> QuestionStep(valid, buf)(starts[i]) == Read(Ok(qs[i]), starts[i + 1])
  {
    forall i | 0 <= i < |qs|
      ensures QuestionStep(valid, buf)(starts[i]) == Read(Ok(qs[i]), starts[i + 1])
    {
      QuestionInRun(valid, buf, pos, qs, i, starts[i], starts[i + 1]);
      StepIsQuestionAt(valid, buf, starts[i], starts[i + 1], qs[i]);
    }
  }

  /** serialize then parse: a message of questions only, whose counts match
      its sections, comes back unchanged, with any bytes after it ignored. */
  lemma QuestionsOnlyRoundTrip(valid: string -> bool, p: PacketValue, post: seq<byte>)
    requires p.answers == [] && p.authority == [] && p.additional == []
    requires p.header.qdCount as int == |p.questions|
    requires p.header.anCount == 0 && p.header.nsCount == 0 && p.header.arCount == 0
    requires forall i :: 0 <= i < |p.questions| ==> Canonical(valid, p.questions[i])
    ensures Dereferencable(p) && MessageBytes(p).ok
    ensures ParseValue(valid, MessageBytes(p).bytes + post) == Ok(p)
  {
    assert Dereferencable(p);
    var flat := Flatten(p.questions, QuestionBytes);
    assert MessageBytes(p).ok && MessageBytes(p).bytes == HeaderBytes(p.header) + flat by {
      forall i | 0 <= i < |p.questions|
        ensures QuestionBytes(p.questions[i]).ok
      {
        QuestionRoundTrip([], p.questions[i], []);
      }
      MessageLayout(p);
      assert Targets(p.answers) == [] && Targets(p.authority) == [] && Targets(p.additional) == [];
    }
    var buf := MessageBytes(p).bytes + post;
    assert HeaderAt(buf) == p.header by {
      assert buf == HeaderBytes(p.header) + (flat + post);
      HeaderRoundTrip(p.header, flat + post);
    }
    assert 12 + |flat| <= |buf| && buf[12..12 + |flat|] == flat by {
      assert buf == HeaderBytes(p.header) + flat + post;
    }
    QuestionsReadBack(valid, buf, 12, p.questions, []);
    assert [] + p.questions == p.questions;
  }

  /** The test vector: id 0x1337, RD set, one A question for google.com. */
  lemma GoogleComRoundTrip(valid: string -> bool)
    requires valid("google.com")
    ensures var p := PacketValue(HeaderFields(0x1337, 0x100, 1, 0, 0, 0),
        [DnsQuestion("google.com", TYPE_A, CLASS_IN)], [], [], []);
      && Dereferencable(p) && MessageBytes(p).ok
      && ParseValue(valid, MessageBytes(p).bytes) == Ok(p)
  {
    var q := DnsQuestion("google.com", TYPE_A, CLASS_IN);
    GoogleComEncodable();
    var p := PacketValue(HeaderFields(0x1337, 0x100, 1, 0, 0, 0), [q], [], [], []);
    QuestionsOnlyRoundTrip(valid, p, []);
    assert MessageBytes(p).bytes + [] == MessageBytes(p).bytes;
  }

  /** The factory's reader always ends RDLENGTH bytes past the RDLENGTH
      field, and only type A yields a record. */
  lemma FactorySkipsRdata(buf: seq<byte>, pos: nat)
    requires RecordAt(buf, pos).result.Ok?
    ensures var n := NameAt(buf, pos).pos;
      && RecordAt(buf, pos).pos == n + 10 + U16At(buf, n + 8).result.value as nat
      && (RecordAt(buf, pos).result.value.Some? <==> U16At(buf, n).result.value == TYPE_A)
  {
  }

  /** The five fields of a record's fixed part as the factory reads them:
      the owner, where it ends (`n`), type, class, TTL, where RDLENGTH sits
      (`m`) and RDLENGTH. */
  datatype FixedPart = FixedPart(name: string, n: nat, t: u16, c: u16, ttl: u32, m: nat, len: u16)

  /** The five reads of the fixed part from `pos`, if all of them succeed. */
  function FixedPartAt(buf: seq<byte>, pos: nat): Option<FixedPart>
  {
    var name := NameAt(buf, pos);
    var t := U16At(buf, name.pos);
    var c := U16At(buf, t.pos);
    var ttl := U32At(buf, c.pos);
    var len := U16At(buf, ttl.pos);
    if name.result.Ok? && t.result.Ok? && c.result.Ok? && ttl.result.Ok? && len.result.Ok? then
      Some(FixedPart(name.result.value, name.pos, t.result.value, c.result.value, ttl.result.value, ttl.pos, len.result.value))
    else None
  }

  /** RecordAt from the five reads of the fixed part. */
  lemma RecordAtReads(buf: seq<byte>, pos: nat, f: FixedPart)
    requires FixedPartAt(buf, pos) == Some(f)
    ensures f.t != TYPE_A ==> RecordAt(buf, pos) == Read(Ok(None), f.m + 2 + f.len as nat)
    ensures f.t == TYPE_A && U32At(buf, f.m + 2).result.Ok? ==>
      RecordAt(buf, pos) == Read(Ok(Some(ResourceRecord(f.name, f.ttl, A(U32At(buf, f.m + 2).result.value)))), f.m + 2 + f.len as nat)
  {
  }

  /** A record laid out as section 4.1.3 of RFC 1035 has it, owner first,
      is read by the factory: type A gives back the owner without a
      trailing dot, the TTL and the address, whatever the class field
      holds. */
  lemma AReadsBack(pre: seq<byte>, name: string, ttl: u32, ip: u32, post: seq<byte>)
    requires Encodable(name)
    ensures var r := ResourceRecord(name, ttl, A(ip));
      && BaseBytes(r).ok
      && RecordAt(pre + BaseBytes(r).bytes + (BigEndian16(4) + BigEndian32(ip) + post), |pre|)
         == Read(Ok(Some(ResourceRecord(StripDot(name), ttl, A(ip)))), |pre| + |BaseBytes(r).bytes| + 6)
  {
    var r := ResourceRecord(name, ttl, A(ip));
    var rest := BigEndian16(4) + BigEndian32(ip) + post;
    var head := pre + BaseBytes(r).bytes;
    var n := |pre| + |DomainBytes(name).bytes|;
    assert TypeOf(r) == TYPE_A;
    BaseRoundTrip(pre, r, rest);
    assert |head| == n + 8 by {
      BaseLayout(r);
    }
    ATail(head, ip, post);
    RecordAtReads(head + rest, |pre|, FixedPart(StripDot(name), n, TYPE_A, CLASS_IN, ttl, |head|, 4));
  }

  /** RDLENGTH 4 and an address, read after any prefix. */
  lemma ATail(head: seq<byte>, ip: u32, post: seq<byte>)
    ensures var buf := head + (BigEndian16(4) + BigEndian32(ip) + post);
      U16At(buf, |head|) == Read(Ok(4), |head| + 2) && U32At(buf, |head| + 2) == Read(Ok(ip), |head| + 6)
  {
    var buf := head + (BigEndian16(4) + BigEndian32(ip) + post);
    U16RoundTrip(head, 4, BigEndian32(ip) + post);
    assert buf == head + BigEndian16(4) + (BigEndian32(ip) + post);
    U32RoundTrip(head + BigEndian16(4), ip, post);
    assert buf == head + BigEndian16(4) + BigEndian32(ip) + post;
  }

  /** What the library writes for an A record, which has no owner name,
      does not read back: the zero high byte of the type is taken for the
      empty owner, the record becomes a null one of type 256, and the reader
      jumps past the end of the record. */
  lemma AWrittenNotReadBack(r: ResourceRecord, post: seq<byte>)
    requires r.data.A?
    ensures var b := RecordBytes(r).bytes;
      RecordAt(b + post, 0) == Read(Ok(None), 11 + 0x400 + b[10] as nat)
  {
    var b := RecordBytes(r).bytes;
    var buf := b + post;
    AOmitsOwner(r, r);
    assert BigEndian16(TypeOf(r)) == [0, 1];
    assert buf[0] == 0 && buf[1] == 1 && buf[2] == 0 && buf[9] == 4;
    EmptyName(buf, 0);
    assert U16At(buf, 1).result.value == 0x100;
    assert U16At(buf, 9).result.value as nat == 0x400 + b[10] as nat;
  }

  /** A record of another type, owner included, reads as a null record and
      is skipped exactly. */
  lemma OtherTypesSkipped(pre: seq<byte>, r: ResourceRecord, post: seq<byte>)
    requires !r.data.A? && TypeOf(r) != TYPE_A && Encodable(r.name)
    requires RDataBytes(r.data).ok && |RDataBytes(r.data).bytes| < 0x1_0000
    ensures RecordBytes(r).ok
    ensures RecordAt(pre + RecordBytes(r).bytes + post, |pre|) == Read(Ok(None), |pre| + |RecordBytes(r).bytes|)
  {
    var b, t := BaseBytes(r).bytes, RDataBytes(r.data).bytes;
    BaseOk(r);
    RecordSplit(r);
    SkipParts(pre, r, post, b, t, Low16(|t|), RecordBytes(r).bytes);
  }

  /** Base fields, then RDLENGTH and the data it counts: a record of a type
      other than A is skipped to its end. */
  lemma SkipParts(pre: seq<byte>, r: ResourceRecord, post: seq<byte>, b: seq<byte>, t: seq<byte>, len: u16, rec: seq<byte>)
    requires Encodable(r.name) && TypeOf(r) != TYPE_A
    requires b == BaseBytes(r).bytes && len as nat == |t|
    requires rec == b + (BigEndian16(len) + t)
    ensures RecordAt(pre + rec + post, |pre|) == Read(Ok(None), |pre| + |rec|)
  {
    var rest := BigEndian16(len) + t;
    LengthAfter(pre, b, len, t, post);
    BaseThenSkip(pre, r, rest + post, len, |pre| + |b| + |rest|);
    SkippedWhole(pre, b, rest, post, rec);
  }

  lemma BaseOk(r: ResourceRecord)
    requires Encodable(r.name)
    ensures BaseBytes(r).ok
  {
    NameRoundTrip([], r.name, []);
  }

  /** RDLENGTH behind `b` reads back as the length of the data after it. */
  lemma LengthAfter(pre: seq<byte>, b: seq<byte>, len: u16, t: seq<byte>, post: seq<byte>)
    requires len as nat == |t|
    ensures |BigEndian16(len) + t| == 2 + len as nat
    ensures U16At(pre + b + ((BigEndian16(len) + t) + post), |pre| + |b|) == Read(Ok(len), |pre| + |b| + 2)
  {
    U16RoundTrip(pre + b, len, t + post);
    assert (pre + b) + BigEndian16(len) + (t + post) == pre + b + ((BigEndian16(len) + t) + post);
  }

  /** A record skipped as its two parts is skipped as a whole. */
  lemma SkippedWhole(pre: seq<byte>, b: seq<byte>, rest: seq<byte>, post: seq<byte>, rec: seq<byte>)
    requires rec == b + rest
    requires RecordAt(pre + b + (rest + post), |pre|) == Read(Ok(None), |pre| + |b| + |rest|)
    ensures RecordAt(pre + rec + post, |pre|) == Read(Ok(None), |pre| + |rec|)
  {
    assert pre + rec + post == pre + b + (rest + post);
  }

  /** A record of a type other than A whose fixed part reads back is
      skipped to the end its RDLENGTH announces. */
  lemma BaseThenSkip(pre: seq<byte>, r: ResourceRecord, rest: seq<byte>, len: u16, end: nat)
    requires Encodable(r.name) && TypeOf(r) != TYPE_A
    requires var p := |pre| + |BaseBytes(r).bytes|;
      U16At(pre + BaseBytes(r).bytes + rest, p) == Read(Ok(len), p + 2)
    requires end == |pre| + |BaseBytes(r).bytes| + 2 + len as nat
    ensures RecordAt(pre + BaseBytes(r).bytes + rest, |pre|) == Read(Ok(None), end)
  {
    var f := FixedPart(StripDot(r.name), |pre| + |DomainBytes(r.name).bytes|, TypeOf(r), CLASS_IN, r.ttl, |pre| + |BaseBytes(r).bytes|, len);
    BaseFixedPart(pre, r, rest, len, f);
    SkipAfterFixed(pre + BaseBytes(r).bytes + rest, |pre|, f);
  }

  /** A fixed part of a type other than A that reads back ends the record
      where RDLENGTH says. */
  lemma SkipAfterFixed(buf: seq<byte>, pos: nat, f: FixedPart)
    requires FixedPartAt(buf, pos) == Some(f) && f.t != TYPE_A
    ensures RecordAt(buf, pos) == Read(Ok(None), f.m + 2 + f.len as nat)
  {
    RecordAtReads(buf, pos, f);
  }

  /** The fixed part of a record as written, owner first, reads back field
      by field, whatever follows it. */
  lemma BaseFixedPart(pre: seq<byte>, r: ResourceRecord, rest: seq<byte>, len: u16, f: FixedPart)
    requires Encodable(r.name)
    requires var p := |pre| + |BaseBytes(r).bytes|;
      U16At(pre + BaseBytes(r).bytes + rest, p) == Read(Ok(len), p + 2)
    requires f == FixedPart(StripDot(r.name), |pre| + |DomainBytes(r.name).bytes|, TypeOf(r), CLASS_IN, r.ttl, |pre| + |BaseBytes(r).bytes|, len)
    ensures BaseBytes(r).ok && |BaseBytes(r).bytes| == |DomainBytes(r.name).bytes| + 8
    ensures FixedPartAt(pre + BaseBytes(r).bytes + rest, |pre|) == Some(f)
  {
    var n := |pre| + |DomainBytes(r.name).bytes|;
    BaseRoundTrip(pre, r, rest);
    BaseLength(r);
    assert U32At(pre + BaseBytes(r).bytes + rest, n + 4) == Read(Ok(r.ttl), f.m);
  }

  /** A record's fixed part is eight bytes past its owner. */
  lemma BaseLength(r: ResourceRecord)
    ensures DomainBytes(r.name).ok ==> |BaseBytes(r).bytes| == |DomainBytes(r.name).bytes| + 8
  {
    BaseLayout(r);
  }

  /** The sections the parse fills, and what filling one with `rs` makes of
      a message: the section holds `rs` and its count is |rs|. */
  datatype Section = Answers | Authority | Additional

  function SectionOf(p: PacketValue, sec: Section): seq<RecordRef>
  {
    match sec
    case Answers => p.answers
    case Authority => p.authority
    case Additional => p.additional
  }

  function Fill(p: PacketValue, sec: Section, rs: seq<RecordRef>): (q: PacketValue)
    ensures SectionOf(q, sec) == rs
    ensures forall other: Section :: other != sec ==> SectionOf(q, other) == SectionOf(p, other)
  {
    match sec
    case Answers => p.(header := p.header.(anCount := Count(|rs|)), answers := rs)
    case Authority => p.(header := p.header.(nsCount := Count(|rs|)), authority := rs)
    case Additional => p.(header := p.header.(arCount := Count(|rs|)), additional := rs)
  }

  /** What addAnswer, addAuthority and addAdditional make of a message:
      the record at the end of the section and one more in its count. */
  function Added(p: PacketValue, sec: Section, x: RecordRef): PacketValue
  {
    match sec
    case Answers => p.(header := p.header.(anCount := Inc(p.header.anCount)), answers := p.answers + [x])
    case Authority => p.(header := p.header.(nsCount := Inc(p.header.nsCount)), authority := p.authority + [x])
    case Additional => p.(header := p.header.(arCount := Inc(p.header.arCount)), additional := p.additional + [x])
  }

  /** Adding to a filled section fills it with one record more. */
  lemma AddedFills(p: PacketValue, sec: Section, rs: seq<RecordRef>, x: RecordRef)
    ensures Added(Fill(p, sec, rs), sec, x) == Fill(p, sec, rs + [x])
  {
    IncKeepsCount(Count(|rs|), rs, x);
  }

  /** RecordFactory::create. */
  method Create(reader: ByteReader) returns (r: Result<RecordRef>)
    modifies reader
    ensures Read(r, reader.index) == RecordAt(reader.buffer, old(reader.index))
  {
    ghost var start := reader.index;
    var name := reader.ReadDomain();
    if name.Err? {
      return Err(name.error);
    }
    var rtype := reader.ReadU16();
    if rtype.Err? {
      return Err(rtype.error);
    }
    var rclass := reader.ReadU16();
    if rclass.Err? {
      return Err(rclass.error);
    }
    var ttl := reader.ReadU32();
    if ttl.Err? {
      return Err(ttl.error);
    }
    var rdlength := reader.ReadU16();
    if rdlength.Err? {
      return Err(rdlength.error);
    }
    var expectedEnd := reader.Position() + rdlength.value as nat;
    var record: RecordRef := None;
    if rtype.value == TYPE_A {
      var ip := reader.ReadU32();
      if ip.Err? {
        return Err(ip.error);
      }
      record := Some(ResourceRecord(name.value, ttl.value, A(ip.value)));
    }
    reader.SetPosition(expectedEnd);
    return Ok(record);
  }

  /** What addQuestion makes of a message whose question count is its
      number of questions: one question more, and the count still right. */
  lemma QuestionAddedCounts(start: PacketValue, qs: seq<DnsQuestion>, q: DnsQuestion)
    ensures var v := start.(header := start.header.(qdCount := Count(|qs|)), questions := qs);
      v.(header := v.header.(qdCount := Inc(v.header.qdCount)), questions := v.questions + [q])
        == start.(header := start.header.(qdCount := Count(|qs + [q]|)), questions := qs + [q])
  {
    IncKeepsCount(Count(|qs|), qs, q);
  }

  /** The question loop of parse. */
  method ReadQuestions(valid: string -> bool, reader: ByteReader, builder: PacketBuilder, count: u16) returns (r: Result<()>)
    requires builder.packet.header.qdCount == Count(|builder.packet.questions|)
    modifies reader, builder.packet, builder.packet.header
    ensures var s := QuestionsFrom(valid, reader.buffer, old(reader.index), count as nat, old(builder.packet.questions));
      && r.Ok? == s.result.Ok?
      && (r.Err? ==> r.error == s.result.error)
      && (r.Ok? ==> reader.index == s.pos && builder.packet.Value() == old(builder.packet.Value()).(
            header := old(builder.packet.header.Fields()).(qdCount := Count(|s.result.value|)),
            questions := s.result.value))
  {
    ghost var start := builder.packet.Value();
    ghost var goal := QuestionsFrom(valid, reader.buffer, reader.index, count as nat, builder.packet.questions);
    for i := 0 to count as int
      invariant QuestionsFrom(valid, reader.buffer, reader.index, count as nat - i, builder.packet.questions) == goal
      invariant builder.packet.Value() == start.(header := start.header.(qdCount := Count(|builder.packet.questions|)), questions := builder.packet.questions)
    {
      QuestionsFromFirst(valid, reader.buffer, reader.index, count as nat - i, builder.packet.questions);
      var name := reader.ReadDomain();
      if name.Err? {
        return Err(name.error);
      }
      var qtype := reader.ReadU16();
      if qtype.Err? {
        return Err(qtype.error);
      }
      var qclass := reader.ReadU16();
      if qclass.Err? {
        return Err(qclass.error);
      }
      ghost var qs := builder.packet.questions;
      var added := builder.AddQuestion(valid, name.value, qtype.value);
      if added.Err? {
        return Err(added.error);
      }
      QuestionAddedCounts(start, qs, DnsQuestion(name.value, qtype.value, CLASS_IN));
    }
    return Ok(());
  }

  /** One of the three record loops of parse: each record the factory
      makes goes to the section, and the section's count goes up by one. */
  method ReadSection(reader: ByteReader, builder: PacketBuilder, sec: Section, count: u16) returns (r: Result<()>)
    requires var p := builder.packet.Value(); p == Fill(p, sec, SectionOf(p, sec))
    modifies reader, builder.packet, builder.packet.header
    ensures var s := RecordsFrom(reader.buffer, old(reader.index), count as nat, SectionOf(old(builder.packet.Value()), sec));
      && r.Ok? == s.result.Ok?
      && (r.Err? ==> r.error == s.result.error)
      && (r.Ok? ==> reader.index == s.pos && builder.packet.Value() == Fill(old(builder.packet.Value()), sec, s.result.value))
  {
    ghost var start := builder.packet.Value();
    ghost var goal := RecordsFrom(reader.buffer, reader.index, count as nat, SectionOf(start, sec));
    ghost var got := SectionOf(start, sec);
    for i := 0 to count as int
      invariant RecordsFrom(reader.buffer, reader.index, count as nat - i, got) == goal
      invariant builder.packet.Value() == Fill(start, sec, got)
    {
      RecordsFromFirst(reader.buffer, reader.index, count as nat - i, got);
      var record := Create(reader);
      if record.Err? {
        return Err(record.error);
      }
      ghost var before := builder.packet.Value();
      match sec {
        case Answers => builder.AddAnswer(record.value);
        case Authority => builder.AddAuthority(record.value);
        case Additional => builder.AddAdditional(record.value);
      }
      assert builder.packet.Value() == Added(before, sec, record.value);
      AddedFills(start, sec, got, record.value);
      got := got + [record.value];
    }
    return Ok(());
  }

  /** The header part of parse: six 16-bit reads; the id and the flags go
      to the builder, the four counts are returned as loop bounds. */
  method ReadHeader(reader: ByteReader, builder: PacketBuilder) returns (r: Result<HeaderFields>)
    requires reader.index == 0
    requires builder.packet.Value() == PacketValue(HeaderFields(0, 0, 0, 0, 0, 0), [], [], [], [])
    modifies reader, builder.packet.header
    ensures r.Ok? <==> |reader.buffer| >= 12
    ensures r.Err? ==> r.error == Truncated
    ensures r.Ok? ==>
      && r.value == HeaderAt(reader.buffer) && reader.index == 12
      && builder.packet.Value() == PacketValue(HeaderFields(r.value.id, r.value.flags, 0, 0, 0, 0), [], [], [], [])
  {
    var id := reader.ReadU16();
    if id.Err? {
      return Err(id.error);
    }
    builder.SetId(id.value);
    var flags := reader.ReadU16();
    if flags.Err? {
      return Err(flags.error);
    }
    builder.WithRawFlags(flags.value);
    var qdCount := reader.ReadU16();
    if qdCount.Err? {
      return Err(qdCount.error);
    }
    var anCount := reader.ReadU16();
    if anCount.Err? {
      return Err(anCount.error);
    }
    var auCount := reader.ReadU16();
    if auCount.Err? {
      return Err(auCount.error);
    }
    var arCount := reader.ReadU16();
    if arCount.Err? {
      return Err(arCount.error);
    }
    builder.ExpectedAnswers(anCount.value as nat);
    return Ok(HeaderFields(id.value, flags.value, qdCount.value, anCount.value, auCount.value, arCount.value));
  }

  /** The message the builder holds after the four loops is the header
      read with the sections read, since each count the builder keeps is
      its section's length, which is the count read. */
  lemma ParsedValue(h: HeaderFields, qs: seq<DnsQuestion>, an: seq<RecordRef>, ns: seq<RecordRef>, ar: seq<RecordRef>)
    requires |qs| == h.qdCount as int && |an| == h.anCount as int && |ns| == h.nsCount as int && |ar| == h.arCount as int
    ensures var v0 := PacketValue(HeaderFields(h.id, h.flags, 0, 0, 0, 0), [], [], [], []);
      var v1 := v0.(header := v0.header.(qdCount := Count(|qs|)), questions := qs);
      Fill(Fill(Fill(v1, Answers, an), Authority, ns), Additional, ar) == PacketValue(h, qs, an, ns, ar)
  {
  }

  /** PacketParser::parse, proved to compute ParseValue. */
  method Parse(valid: string -> bool, rawData: seq<byte>) returns (r: Result<DnsPacket>)
    ensures r.Ok? == ParseValue(valid, rawData).Ok?
    ensures r.Err? ==> r.error == ParseValue(valid, rawData).error
    ensures r.Ok? ==> fresh(r.value) && fresh(r.value.header) && r.value.Value() == ParseValue(valid, rawData).value
  {
    var reader := new ByteReader(rawData);
    var builder := new PacketBuilder();
    var header := ReadHeader(reader, builder);
    if header.Err? {
      return Err(header.error);
    }
    var h := header.value;
    ghost var v0 := builder.packet.Value();
    ghost var qs := QuestionsFrom(valid, rawData, 12, h.qdCount as nat, []);
    var done := ReadQuestions(valid, reader, builder, h.qdCount);
    if done.Err? {
      return Err(done.error);
    }
    ghost var an := RecordsFrom(rawData, qs.pos, h.anCount as nat, []);
    done := ReadSection(reader, builder, Answers, h.anCount);
    if done.Err? {
      return Err(done.error);
    }
    ghost var ns := RecordsFrom(rawData, an.pos, h.nsCount as nat, []);
    done := ReadSection(reader, builder, Authority, h.nsCount);
    if done.Err? {
      return Err(done.error);
    }
    ghost var ar := RecordsFrom(rawData, ns.pos, h.arCount as nat, []);
    done := ReadSection(reader, builder, Additional, h.arCount);
    if done.Err? {
      return Err(done.error);
    }
    ParsedValue(h, qs.result.value, an.result.value, ns.result.value, ar.result.value);
    var packet := builder.Build();
    return Ok(packet);
  }
}
