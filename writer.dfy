/** The write side of the codec: big-endian integers and uncompressed domain
    names appended to the caller's byte vector, section 3.1 of RFC 1035. */
module Writer {
  import opened Wire
  import opened Reader

  method WriteU8(buffer: ByteVector, v: byte)
    modifies buffer
    ensures buffer.data == old(buffer.data) + [v]
  {
    buffer.PushBack(v);
  }

  method WriteU16(buffer: ByteVector, v: u16)
    modifies buffer
    ensures buffer.data == old(buffer.data) + BigEndian16(v)
  {
    buffer.PushBack((v / 0x100) as byte);
    buffer.PushBack((v % 0x100) as byte);
  }

  method WriteU32(buffer: ByteVector, v: u32)
    modifies buffer
    ensures buffer.data == old(buffer.data) + BigEndian32(v)
  {
    buffer.PushBack((v / 0x100_0000 % 0x100) as byte);
    buffer.PushBack((v / 0x1_0000 % 0x100) as byte);
    buffer.PushBack((v / 0x100 % 0x100) as byte);
    buffer.PushBack((v % 0x100) as byte);
  }

  /** What the reader gives back for a 16-bit value written in between any
      two runs of bytes. */
  lemma U16RoundTrip(pre: seq<byte>, v: u16, post: seq<byte>)
    ensures U16At(pre + BigEndian16(v) + post, |pre|) == Read(Ok(v), |pre| + 2)
  {
    var buf := pre + BigEndian16(v) + post;
    assert buf[|pre|..|pre| + 2] == BigEndian16(v);
  }

  lemma U32RoundTrip(pre: seq<byte>, v: u32, post: seq<byte>)
    ensures U32At(pre + BigEndian32(v) + post, |pre|) == Read(Ok(v), |pre| + 4)
  {
    var buf := pre + BigEndian32(v) + post;
    assert buf[|pre|..|pre| + 4] == BigEndian32(v);
  }

  /** The longest label a length byte may announce. */
  const MAX_LABEL: nat := 63

  /** A single trailing dot, the root of a fully qualified name, is dropped. */
  function StripDot(name: string): (s: string)
    ensures name != "" && name[|name| - 1] == '.' ==> name == s + "."
    ensures !(name != "" && name[|name| - 1] == '.') ==> s == name
  {
    if name != "" && name[|name| - 1] == '.' then name[..|name| - 1] else name
  }

  /** std::string::find('.', start): the first dot at or after `start`, or
      the length of the string when there is none. */
  function FindDot(s: string, start: nat): (e: nat)
    requires start <= |s|
    ensures start <= e <= |s|
    ensures '.' !in s[start..e]
    ensures e < |s| ==> s[e] == '.'
    decreases |s| - start
  {
    if start == |s| || s[start] == '.' then start else FindDot(s, start + 1)
  }

  /** The dot-separated parts of s[start..], empty ones included. */
  function SplitFrom(s: string, start: nat): (parts: seq<string>)
    requires start <= |s|
    ensures |parts| >= 1
    ensures forall i :: 0 <= i < |parts| ==> '.' !in parts[i]
    decreases |s| - start
  {
    var e := FindDot(s, start);
    if e == |s| then [s[start..]] else [s[start..e]] + SplitFrom(s, e + 1)
  }

  /** Parts joined by single dots. */
  function Join(parts: seq<string>): string
    requires |parts| >= 1
  {
    if |parts| == 1 then parts[0] else parts[0] + "." + Join(parts[1..])
  }

  /** Splitting loses nothing: joining the parts again gives the text back. */
  lemma {:induction false} JoinSplit(s: string, start: nat)
    requires start <= |s|
    ensures Join(SplitFrom(s, start)) == s[start..]
    decreases |s| - start
  {
    var e := FindDot(s, start);
    if e < |s| {
      var rest := SplitFrom(s, e + 1);
      var parts := [s[start..e]] + rest;
      assert SplitFrom(s, start) == parts;
      assert parts[0] == s[start..e] && parts[1..] == rest && |parts| > 1;
      JoinSplit(s, e + 1);
      assert Join(parts) == s[start..e] + "." + s[e + 1..];
      assert s[start..] == s[start..e] + "." + s[e + 1..];
    } else {
      assert SplitFrom(s, start) == [s[start..]];
    }
  }

  /** A dot at e, with none between start and e, is the one find returns. */
  lemma {:induction false} FindDotAt(s: string, start: nat, e: nat)
    requires start <= e < |s| && '.' !in s[start..e] && s[e] == '.'
    ensures FindDot(s, start) == e
    decreases e - start
  {
    if start < e {
      assert s[start] in s[start..e];
      assert s[start + 1..e] == s[start..e][1..];
      FindDotAt(s, start + 1, e);
    }
  }

  /** The search looks only at the text from its start on. */
  lemma {:induction false} FindDotSuffix(a: string, i: nat, b: string, j: nat)
    requires i <= |a| && j <= |b| && a[i..] == b[j..]
    ensures FindDot(a, i) - i == FindDot(b, j) - j
    decreases |a| - i
  {
    if i < |a| {
      assert a[i] == a[i..][0] && b[j] == b[j..][0];
      if a[i] != '.' {
        assert a[i + 1..] == a[i..][1..] && b[j + 1..] == b[j..][1..];
        FindDotSuffix(a, i + 1, b, j + 1);
      }
    }
  }

  /** So does the split. */
  lemma {:induction false} SplitSuffix(a: string, i: nat, b: string, j: nat)
    requires i <= |a| && j <= |b| && a[i..] == b[j..]
    ensures SplitFrom(a, i) == SplitFrom(b, j)
    decreases |a| - i, 1
  {
    FindDotSuffix(a, i, b, j);
    assert |a| - i == |b| - j by {
      assert |a[i..]| == |b[j..]|;
    }
    if FindDot(a, i) < |a| {
      SplitSuffixAtDot(a, i, b, j);
    } else {
      assert a[i..FindDot(a, i)] == a[i..] && b[j..FindDot(b, j)] == b[j..];
    }
  }

  /** The split of equal suffixes when a dot follows the first part. */
  lemma {:induction false} SplitSuffixAtDot(a: string, i: nat, b: string, j: nat)
    requires i <= |a| && j <= |b| && a[i..] == b[j..]
    requires FindDot(a, i) - i == FindDot(b, j) - j < |a| - i == |b| - j
    ensures SplitFrom(a, i) == SplitFrom(b, j)
    decreases |a| - i, 0
  {
    var e, f := FindDot(a, i), FindDot(b, j);
    SuffixParts(a, i, b, j, e, f);
    SplitSuffix(a, e + 1, b, f + 1);
    SplitAtDot(a, i);
    SplitAtDot(b, j);
  }

  /** Equal suffixes cut at the same distance give equal pieces. */
  lemma SuffixParts(a: string, i: nat, b: string, j: nat, e: nat, f: nat)
    requires i <= e < |a| && j <= f < |b| && e - i == f - j && a[i..] == b[j..]
    ensures a[i..e] == b[j..f] && a[e + 1..] == b[f + 1..]
  {
    assert a[i..e] == a[i..][..e - i] && b[j..f] == b[j..][..f - j];
    assert a[e + 1..] == a[i..][e + 1 - i..] && b[f + 1..] == b[j..][f + 1 - j..];
  }

  /** One step of the split when a dot follows the first part. */
  lemma SplitAtDot(s: string, start: nat)
    requires start <= |s| && FindDot(s, start) < |s|
    ensures SplitFrom(s, start) == [s[start..FindDot(s, start)]] + SplitFrom(s, FindDot(s, start) + 1)
  {
  }

  /** Joining parts that contain no dot and splitting again gives the parts
      back: the other half of JoinSplit. */
  lemma {:induction false} SplitJoin(parts: seq<string>)
    requires |parts| >= 1 && forall i :: 0 <= i < |parts| ==> '.' !in parts[i]
    ensures SplitFrom(Join(parts), 0) == parts
    decreases |parts|
  {
    var l := parts[0];
    if |parts| == 1 {
      assert l[0..] == l;
    } else {
      var rest := Join(parts[1..]);
      var s := l + "." + rest;
      assert s[0..|l|] == l;
      FindDotAt(s, 0, |l|);
      assert s == (l + ".") + rest;
      SplitSuffix(s, |l| + 1, rest, 0);
      assert rest[0..] == rest;
      SplitJoin(parts[1..]);
      assert parts == [l] + parts[1..];
    }
  }

  /** Joined parts end with the last part. */
  lemma {:induction false} JoinEnds(parts: seq<string>)
    requires |parts| >= 1
    ensures |Join(parts)| >= |parts[|parts| - 1]|
    ensures Join(parts)[|Join(parts)| - |parts[|parts| - 1]|..] == parts[|parts| - 1]
    decreases |parts|
  {
    if |parts| > 1 {
      JoinEnds(parts[1..]);
    }
  }

  /** A part that is empty because the text ends at a dot (or is empty)
      produces no label. */
  function DropEmptyLast(parts: seq<string>): seq<string>
  {
    if parts != [] && parts[|parts| - 1] == "" then parts[..|parts| - 1] else parts
  }

  /** The labels writeDomain emits for the text from `start` on. */
  function WireFrom(s: string, start: nat): seq<string>
    requires start <= |s|
  {
    DropEmptyLast(SplitFrom(s, start))
  }

  /** Length-prefixed labels, stopping with "label too long" at the first
      label over 63 bytes. */
  function LabelsBytes(labels: seq<string>): (o: Output)
    ensures o.ok <==> forall i :: 0 <= i < |labels| ==> |labels[i]| <= MAX_LABEL
  {
    if labels == [] then Output([], true)
    else if |labels[0]| > MAX_LABEL then Output([], false)
    else Then(Output(LabelBytes(labels[0]), true), LabelsBytes(labels[1..]))
  }

  /** What writeDomain appends for `name`, and whether it returns. */
  function DomainBytes(name: string): (o: Output)
    ensures o.ok ==> |o.bytes| >= 1 && o.bytes[|o.bytes| - 1] == 0
  {
    var s := StripDot(name);
    Then(LabelsBytes(WireFrom(s, 0)), Output([0], true))
  }

  /** writeDomain throws exactly when some label it would emit is longer
      than 63 bytes. */
  lemma DomainFails(name: string)
    ensures !DomainBytes(name).ok <==> exists l :: l in WireFrom(StripDot(name), 0) && |l| > MAX_LABEL
  {
    var ls := WireFrom(StripDot(name), 0);
    if exists l :: l in ls && |l| > MAX_LABEL {
      var l :| l in ls && |l| > MAX_LABEL;
      var i :| 0 <= i < |ls| && ls[i] == l;
    }
  }

  lemma {:induction false} LabelsBytesAppend(labels: seq<string>, l: string)
    requires forall i :: 0 <= i < |labels| ==> |labels[i]| <= MAX_LABEL
    ensures LabelsBytes(labels + [l]) == Then(LabelsBytes(labels), LabelsBytes([l]))
  {
    if labels == [] {
      assert labels + [l] == [l];
    } else {
      var first := Output(LabelBytes(labels[0]), true);
      assert (labels + [l])[0] == labels[0];
      assert (labels + [l])[1..] == labels[1..] + [l];
      assert LabelsBytes(labels + [l]) == Then(first, LabelsBytes(labels[1..] + [l]));
      LabelsBytesAppend(labels[1..], l);
      ThenAssoc(first, LabelsBytes(labels[1..]), LabelsBytes([l]));
    }
  }

  /** The writer's own test vector: "google.com" becomes two length-prefixed
      labels and the terminating zero. */
  lemma GoogleCom()
    ensures DomainBytes("google.com") == Output([6, 103, 111, 111, 103, 108, 101, 3, 99, 111, 109, 0], true)
  {
    var ls := GoogleComLabels();
    var g: seq<byte> := [6, 103, 111, 111, 103, 108, 101];
    var c: seq<byte> := [3, 99, 111, 109];
    assert LabelsBytes(ls) == Output(g + c, true) by {
      GoogleComLabelBytes();
      LabelsCons("com", []);
      LabelsCons("google", ["com"]);
      assert ls == ["google"] + ["com"] && ["com"] == ["com"] + [];
    }
    assert StripDot("google.com") == "google.com" by {
      GoogleComEncodable();
    }
    assert g + c + [0] == [6, 103, 111, 111, 103, 108, 101, 3, 99, 111, 109, 0];
  }

  lemma GoogleComLabelBytes()
    ensures LabelBytes("google") == [6, 103, 111, 111, 103, 108, 101]
    ensures LabelBytes("com") == [3, 99, 111, 109]
  {
    var g := Bytes("google");
    assert g[0] == 103 && g[1] == 111 && g[2] == 111 && g[3] == 103 && g[4] == 108 && g[5] == 101;
    assert g == [103, 111, 111, 103, 108, 101];
    var c := Bytes("com");
    assert c[0] == 99 && c[1] == 111 && c[2] == 109;
    assert c == [99, 111, 109];
  }



  lemma GoogleComLabels() returns (ls: seq<string>)
    ensures ls == WireFrom("google.com", 0) == ["google", "com"]
  {
    var s := "google.com";
    assert FindDot(s, 10) == 10 && FindDot(s, 9) == 10 && FindDot(s, 8) == 10 && FindDot(s, 7) == 10;
    assert FindDot(s, 6) == 6 && FindDot(s, 5) == 6 && FindDot(s, 4) == 6 && FindDot(s, 3) == 6;
    assert FindDot(s, 2) == 6 && FindDot(s, 1) == 6 && FindDot(s, 0) == 6;
    assert s[..6] == "google" && s[7..] == "com";
    WireAtDot(s, 0);
    WireAtEnd(s, 7);
    ls := WireFrom(s, 0);
  }

  /** google.com has no trailing dot and two good labels. */
  lemma GoogleComEncodable()
    ensures StripDot("google.com") == "google.com" && Encodable("google.com")
  {
    var s := "google.com";
    assert FindDot(s, 10) == 10 && FindDot(s, 9) == 10 && FindDot(s, 8) == 10 && FindDot(s, 7) == 10;
    assert FindDot(s, 6) == 6 && FindDot(s, 5) == 6 && FindDot(s, 4) == 6 && FindDot(s, 3) == 6;
    assert FindDot(s, 2) == 6 && FindDot(s, 1) == 6 && FindDot(s, 0) == 6;
    assert s[..6] == "google" && s[7..] == "com";
    assert SplitFrom(s, 7) == ["com"];
    assert SplitFrom(s, 0) == ["google", "com"];
  }

  /** The root: "" and "." are both written as the single terminating
      zero. */
  lemma RootName()
    ensures DomainBytes("") == Output([0], true)
    ensures DomainBytes(".") == Output([0], true)
  {
    assert StripDot(".") == "";
    assert WireFrom("", 0) == [];
  }

  /** "a..b" splits into "a", an empty part and "b". */
  lemma EmptyLabelSplit()
    ensures WireFrom("a..b", 0) == ["a", "", "b"]
  {
    var s := "a..b";
    assert FindDot(s, 0) == 1 && FindDot(s, 2) == 2 && FindDot(s, 3) == 4;
    assert s[3..] == "b" && s[2..2] == "" && s[0..1] == "a";
    assert SplitFrom(s, 3) == ["b"];
    assert SplitFrom(s, 2) == [""] + ["b"];
  }

  /** A label of one character is its length byte and that character. */
  lemma OneCharLabel(c: char, b: byte)
    requires c as int == b as int
    ensures LabelBytes([c]) == [1, b]
  {
    assert Bytes([c]) == [CharByte(c)];
  }

  /** The labels after the first are written behind it. */
  lemma LabelsCons(l: string, rest: seq<string>)
    requires |l| <= MAX_LABEL
    ensures LabelsBytes([l] + rest) == Then(Output(LabelBytes(l), true), LabelsBytes(rest))
  {
    assert ([l] + rest)[1..] == rest;
  }

  /** An empty label in the middle of a name is written as a zero byte. */
  lemma EmptyLabelWritten()
    ensures DomainBytes("a..b") == Output([1, 97, 0, 1, 98, 0], true)
  {
    EmptyLabelSplit();
    assert StripDot("a..b") == "a..b";
    EmptyLabelBytes();
    var w: seq<byte> := [1, 97, 0, 1, 98];
    assert w + [0] == [1, 97, 0, 1, 98, 0];
  }

  lemma EmptyLabelBytes()
    ensures LabelsBytes(["a", "", "b"]) == Output([1, 97, 0, 1, 98], true)
  {
    OneCharLabel('a', 97);
    OneCharLabel('b', 98);
    assert LabelBytes("") == [0];
    LabelsCons("b", []);
    LabelsCons("", ["b"]);
    LabelsCons("a", ["", "b"]);
    assert ["a", "", "b"] == ["a"] + ["", "b"] && ["", "b"] == [""] + ["b"] && ["b"] == ["b"] + [];
  }

  /** That zero byte ends the name for the reader: "a..b" reads back as
      "a". */
  lemma EmptyLabelCutsName()
    ensures NameAt(DomainBytes("a..b").bytes, 0) == Read(Ok("a"), 3)
  {
    EmptyLabelWritten();
    ZeroAfterFirstLabel();
  }

  lemma ZeroAfterFirstLabel()
    ensures NameAt([1, 97, 0, 1, 98, 0], 0) == Read(Ok("a"), 3)
  {
    var buf: seq<byte> := [1, 97, 0, 1, 98, 0];
    assert Step(buf, NameState(0, "", None, 0)) == Next(NameState(2, "a", None, 0));
    assert Step(buf, NameState(2, "a", None, 0)) == Done(Read(Ok("a"), 3));
  }

  /** A trailing dot makes no difference to what is written. */
  lemma TrailingDotIgnored(name: string)
    requires name == "" || name[|name| - 1] != '.'
    ensures DomainBytes(name + ".") == DomainBytes(name)
  {
  }

  /** Labels the reader can read back: one to 63 characters, each below 256. */
  predicate GoodLabels(labels: seq<string>)
  {
    forall i :: 0 <= i < |labels| ==> 1 <= |labels[i]| <= MAX_LABEL && Narrow(labels[i])
  }

  /** A name writeDomain encodes so that readDomain gives it back: after the
      trailing dot is dropped, it is empty or every dot-separated part is a
      good label. */
  predicate Encodable(name: string)
  {
    var s := StripDot(name);
    s == "" || GoodLabels(SplitFrom(s, 0))
  }

  /** The name decoded so far, with `labels` added one after another. */
  function AddLabels(domain: string, labels: seq<string>): string
    decreases |labels|
  {
    if labels == [] then domain else AddLabels(AddLabel(domain, labels[0]), labels[1..])
  }

  /** Reading good labels, encoded at the reader's index, adds each of them
      to the name and moves past them, jumps and return position untouched. */
  lemma {:induction false} ReadLabels(buf: seq<byte>, s: NameState, labels: seq<string>)
    requires s.jumps <= MAX_JUMPS + 1
    requires GoodLabels(labels)
    requires s.index + |LabelsBytes(labels).bytes| <= |buf|
    requires buf[s.index..s.index + |LabelsBytes(labels).bytes|] == LabelsBytes(labels).bytes
    ensures ReadName(buf, s) == ReadName(buf, AfterLabels(s, labels))
    decreases |labels|
  {
    if labels != [] {
      var t := ReadOneLabel(buf, s, labels);
      ReadLabels(buf, t, labels[1..]);
    } else {
      assert AfterLabels(s, labels) == s;
    }
  }

  /** The loop's state once `labels` have been read from `s`. */
  function AfterLabels(s: NameState, labels: seq<string>): NameState
  {
    NameState(s.index + |LabelsBytes(labels).bytes|, AddLabels(s.domain, labels), s.jumpReturn, s.jumps)
  }

  /** Reading the first of good labels leaves the rest of the read, and
      the other labels, to the state after it. */
  lemma ReadOneLabel(buf: seq<byte>, s: NameState, labels: seq<string>) returns (t: NameState)
    requires s.jumps <= MAX_JUMPS + 1
    requires GoodLabels(labels) && labels != []
    requires s.index + |LabelsBytes(labels).bytes| <= |buf|
    requires buf[s.index..s.index + |LabelsBytes(labels).bytes|] == LabelsBytes(labels).bytes
    ensures t.jumps <= MAX_JUMPS + 1 && GoodLabels(labels[1..])
    ensures t.index + |LabelsBytes(labels[1..]).bytes| <= |buf|
    ensures buf[t.index..t.index + |LabelsBytes(labels[1..]).bytes|] == LabelsBytes(labels[1..]).bytes
    ensures AfterLabels(t, labels[1..]) == AfterLabels(s, labels)
    ensures ReadName(buf, s) == ReadName(buf, t)
  {
    t := ReadFirstLabel(buf, s, labels);
    var t' := FirstLabelRead(buf, s, labels[0]);
  }

  /** The first pass over good labels reads the first of them and leaves
      the others, encoded, at the new index. */
  lemma ReadFirstLabel(buf: seq<byte>, s: NameState, labels: seq<string>) returns (t: NameState)
    requires s.jumps <= MAX_JUMPS + 1
    requires GoodLabels(labels) && labels != []
    requires s.index + |LabelsBytes(labels).bytes| <= |buf|
    requires buf[s.index..s.index + |LabelsBytes(labels).bytes|] == LabelsBytes(labels).bytes
    ensures 1 <= |labels[0]| <= MAX_LABEL && Narrow(labels[0])
    ensures s.index + 1 + |labels[0]| <= |buf| && buf[s.index..s.index + 1 + |labels[0]|] == LabelBytes(labels[0])
    ensures t == NameState(s.index + 1 + |labels[0]|, AddLabel(s.domain, labels[0]), s.jumpReturn, s.jumps)
    ensures GoodLabels(labels[1..])
    ensures t.index + |LabelsBytes(labels[1..]).bytes| == s.index + |LabelsBytes(labels).bytes|
    ensures buf[t.index..t.index + |LabelsBytes(labels[1..]).bytes|] == LabelsBytes(labels[1..]).bytes
    ensures AfterLabels(t, labels[1..]) == AfterLabels(s, labels)
  {
    var l := labels[0];
    var rest := LabelsBytes(labels[1..]).bytes;
    assert LabelsBytes(labels).bytes == LabelBytes(l) + rest;
    SliceSplit(buf, s.index, LabelBytes(l), rest);
    t := NameState(s.index + 1 + |l|, AddLabel(s.domain, l), s.jumpReturn, s.jumps);
    assert AddLabels(s.domain, labels) == AddLabels(t.domain, labels[1..]);
  }

  /** Reading a label written at the reader's index moves past it and adds
      it to the name. */
  lemma FirstLabelRead(buf: seq<byte>, s: NameState, l: string) returns (t: NameState)
    requires s.jumps <= MAX_JUMPS + 1
    requires 1 <= |l| <= MAX_LABEL && Narrow(l)
    requires s.index + 1 + |l| <= |buf| && buf[s.index..s.index + 1 + |l|] == LabelBytes(l)
    ensures t == NameState(s.index + 1 + |l|, AddLabel(s.domain, l), s.jumpReturn, s.jumps)
    ensures ReadName(buf, s) == ReadName(buf, t)
  {
    LabelStep(buf, s, l);
    t := NameState(s.index + 1 + |l|, AddLabel(s.domain, l), s.jumpReturn, s.jumps);
    ReadNameNext(buf, s, t);
  }

  /** A pass that continues leaves the rest of the read to the next
      state. */
  lemma ReadNameNext(buf: seq<byte>, s: NameState, t: NameState)
    requires s.jumps <= MAX_JUMPS + 1 && Step(buf, s) == Next(t)
    ensures t.jumps <= MAX_JUMPS + 1
    ensures ReadName(buf, s) == ReadName(buf, t)
  {
  }

  /** A run of bytes laid out as x then y holds x, then y. */
  lemma SliceSplit(buf: seq<byte>, i: nat, x: seq<byte>, y: seq<byte>)
    requires i + |x| + |y| <= |buf| && buf[i..i + |x| + |y|] == x + y
    ensures buf[i..i + |x|] == x && buf[i + |x|..i + |x| + |y|] == y
  {
    assert buf[i..i + |x|] == buf[i..i + |x| + |y|][..|x|];
    assert buf[i + |x|..i + |x| + |y|] == buf[i..i + |x| + |y|][|x|..];
  }

  /** One pass of readDomain's loop over a written label appends that label
      to the name. */
  lemma LabelStep(buf: seq<byte>, s: NameState, l: string)
    requires s.jumps <= MAX_JUMPS + 1
    requires 1 <= |l| <= MAX_LABEL && Narrow(l)
    requires s.index + 1 + |l| <= |buf| && buf[s.index..s.index + 1 + |l|] == LabelBytes(l)
    ensures Step(buf, s) == Next(NameState(s.index + 1 + |l|, AddLabel(s.domain, l), s.jumpReturn, s.jumps))
  {
    assert buf[s.index] == |l| as byte;
    assert buf[s.index + 1..s.index + 1 + |l|] == Bytes(l) by {
      assert buf[s.index + 1..s.index + 1 + |l|] == buf[s.index..s.index + 1 + |l|][1..];
    }
    CharsOfBytes(l);
  }

  /** Adding the parts of a split to a non-empty name rebuilds the text. */
  lemma {:induction false} AddSplit(domain: string, s: string, start: nat)
    requires domain != "" && start <= |s|
    ensures AddLabels(domain, SplitFrom(s, start)) == domain + "." + s[start..]
    decreases |s| - start
  {
    var e := FindDot(s, start);
    if e < |s| {
      AddSplit(domain + "." + s[start..e], s, e + 1);
      assert s[start..] == s[start..e] + "." + s[e + 1..];
    }
  }

  /** Labels of a name whose parts are all good decode to the name. */
  lemma AddSplitFromEmpty(s: string)
    requires s != "" && GoodLabels(SplitFrom(s, 0))
    ensures AddLabels("", SplitFrom(s, 0)) == s
  {
    var e := FindDot(s, 0);
    assert SplitFrom(s, 0)[0] == s[..e];
    if e < |s| {
      var parts := SplitFrom(s, 0);
      assert parts == [s[..e]] + SplitFrom(s, e + 1);
      assert parts[1..] == SplitFrom(s, e + 1);
      assert AddLabel("", s[..e]) == s[..e];
      assert AddLabels("", parts) == AddLabels(s[..e], SplitFrom(s, e + 1));
      AddSplit(s[..e], s, e + 1);
      assert s == s[..e] + "." + s[e + 1..];
    }
  }

  /** The round trip: a name written anywhere in a message reads back,
      without its trailing dot, and the reader stops just past it. */
  lemma NameRoundTrip(pre: seq<byte>, name: string, post: seq<byte>)
    requires Encodable(name)
    ensures DomainBytes(name).ok
    ensures NameAt(pre + DomainBytes(name).bytes + post, |pre|)
         == Read(Ok(StripDot(name)), |pre| + |DomainBytes(name).bytes|)
  {
    var s := StripDot(name);
    var labels := WireFrom(s, 0);
    var enc := LabelsBytes(labels).bytes;
    assert GoodLabels(labels) && AddLabels("", labels) == s && DomainBytes(name) == Output(enc + [0], true) by {
      if s == "" {
        assert labels == [];
      } else {
        assert labels == SplitFrom(s, 0);
        AddSplitFromEmpty(s);
      }
    }
    var buf := pre + DomainBytes(name).bytes + post;
    assert |pre| + |enc| < |buf| && buf[|pre|..|pre| + |enc|] == enc && buf[|pre| + |enc|] == 0;
    ReadLabels(buf, NameState(|pre|, "", None, 0), labels);
    NameEnds(buf, NameState(|pre| + |enc|, s, None, 0));
  }

  /** A name written in full is its good labels, which read back give the
      name without its trailing dot, followed by the zero byte. */
  lemma EncodedLabels(name: string, labels: seq<string>)
    requires Encodable(name) && labels == WireFrom(StripDot(name), 0)
    ensures GoodLabels(labels)
    ensures AddLabels("", labels) == StripDot(name)
    ensures DomainBytes(name) == Output(LabelsBytes(labels).bytes + [0], true)
  {
    var s := StripDot(name);
    if s == "" {
      assert labels == [];
    } else {
      assert labels == SplitFrom(s, 0);
      AddSplitFromEmpty(s);
    }
  }

  /** The name decoded so far, `domain`, followed by a whole name `rest`
      read after a pointer: joined by a dot unless one of them is empty. */
  function Extend(domain: string, rest: string): string
  {
    if rest == "" then domain else AddLabel(domain, rest)
  }

  /** Labels added behind a non-empty text `y` leave whatever precedes it
      in front. */
  lemma {:induction false} AddLabelsPrefix(x: string, y: string, labels: seq<string>)
    requires y != ""
    ensures AddLabels(x + y, labels) == x + AddLabels(y, labels)
    decreases |labels|
  {
    if labels != [] {
      var l := labels[0];
      assert AddLabel(x + y, l) == x + AddLabel(y, l);
      AddLabelsPrefix(x, AddLabel(y, l), labels[1..]);
    }
  }

  /** The labels of a name read after `domain` extend it by that name. */
  lemma ExtendLabels(domain: string, name: string, labels: seq<string>)
    requires Encodable(name) && labels == WireFrom(StripDot(name), 0)
    ensures AddLabels(domain, labels) == Extend(domain, StripDot(name))
  {
    EncodedLabels(name, labels);
    if labels != [] && domain != "" {
      AddLabelsAfter(domain, labels);
    }
  }

  /** Good labels added behind a non-empty name follow it after a dot. */
  lemma AddLabelsAfter(domain: string, labels: seq<string>)
    requires domain != "" && labels != [] && GoodLabels(labels)
    ensures AddLabels(domain, labels) == domain + "." + AddLabels("", labels)
  {
    var l := labels[0];
    assert |l| >= 1;
    AddLabelsPrefix(domain + ".", l, labels[1..]);
    assert AddLabels(domain, labels) == AddLabels(domain + "." + l, labels[1..]);
    assert AddLabel("", l) == l;
    assert AddLabels("", labels) == AddLabels(l, labels[1..]);
  }

  /** Compression, section 4.1.4 of RFC 1035: labels read at `pos`, then a
      pointer whose two top bits are set, to offset
      ((b0 & 0x3F) << 8) | b1 where a name is written in full. The read
      gives the labels continued by that name, and leaves the reader two
      bytes past the pointer. */
  lemma PointerAfterLabels(buf: seq<byte>, pos: nat, front: seq<string>, p: nat, o: nat, name: string)
    requires GoodLabels(front) && p == pos + |LabelsBytes(front).bytes|
    requires p + 2 <= |buf| && buf[pos..p] == LabelsBytes(front).bytes && buf[p] >= 0xC0
    requires o == (buf[p] as int % 0x40) * 0x100 + buf[p + 1] as int
    requires Encodable(name)
    requires o + |DomainBytes(name).bytes| <= |buf| && buf[o..o + |DomainBytes(name).bytes|] == DomainBytes(name).bytes
    ensures NameAt(buf, pos) == Read(Ok(Extend(AddLabels("", front), StripDot(name))), p + 2)
  {
    var d := AddLabels("", front);
    LabelsFirst(buf, pos, front, LabelsBytes(front).bytes);
    JumpTaken(buf, p, o, d);
    NameAfterJump(buf, o, d, p + 2, name);
  }

  /** Good labels at the start of a name are read before whatever follows
      them. */
  lemma LabelsFirst(buf: seq<byte>, pos: nat, front: seq<string>, lb: seq<byte>)
    requires GoodLabels(front) && lb == LabelsBytes(front).bytes
    requires pos + |lb| <= |buf| && buf[pos..pos + |lb|] == lb
    ensures ReadName(buf, NameState(pos, "", None, 0))
         == ReadName(buf, NameState(pos + |lb|, AddLabels("", front), None, 0))
  {
    var s := NameState(pos, "", None, 0);
    ReadLabels(buf, s, front);
    assert AfterLabels(s, front) == NameState(pos + |lb|, AddLabels("", front), None, 0);
  }

  /** The first pointer met, at p, moves the read to its offset and
      remembers p + 2 as the place to return to. */
  lemma JumpTaken(buf: seq<byte>, p: nat, o: nat, d: string)
    requires p + 2 <= |buf| && buf[p] >= 0xC0
    requires o == (buf[p] as int % 0x40) * 0x100 + buf[p + 1] as int
    ensures ReadName(buf, NameState(p, d, None, 0)) == ReadName(buf, NameState(o, d, Some(p + 2), 1))
  {
    PointerTag(buf[p]);
  }

  /** After a jump, a name written in full at the index extends the name
      read so far, and the reader returns to the remembered position. */
  lemma NameAfterJump(buf: seq<byte>, o: nat, d: string, back: nat, name: string)
    requires Encodable(name)
    requires o + |DomainBytes(name).bytes| <= |buf| && buf[o..o + |DomainBytes(name).bytes|] == DomainBytes(name).bytes
    ensures ReadName(buf, NameState(o, d, Some(back), 1)) == Read(Ok(Extend(d, StripDot(name))), back)
  {
    var labels := WireFrom(StripDot(name), 0);
    EncodedLabels(name, labels);
    var enc := LabelsBytes(labels).bytes;
    var written := DomainBytes(name).bytes;
    assert written == enc + [0] && |written| == |enc| + 1;
    SliceThenZero(buf, o, enc, written);
    LabelsThenEnd(buf, o, d, back, labels, enc);
    ExtendLabels(d, name, labels);
  }

  /** After a jump, good labels then a zero byte add the labels to the name
      and return the reader to the remembered position. */
  lemma LabelsThenEnd(buf: seq<byte>, o: nat, d: string, back: nat, labels: seq<string>, enc: seq<byte>)
    requires GoodLabels(labels) && enc == LabelsBytes(labels).bytes
    requires o + |enc| < |buf| && buf[o..o + |enc|] == enc && buf[o + |enc|] == 0
    ensures ReadName(buf, NameState(o, d, Some(back), 1)) == Read(Ok(AddLabels(d, labels)), back)
  {
    var s := NameState(o, d, Some(back), 1);
    ReadLabels(buf, s, labels);
    NameEndsReturning(buf, AfterLabels(s, labels));
  }

  /** A pointer at p to a name written in full reads as that name, with
      the reader two bytes past the pointer. */
  lemma PointerFollowed(buf: seq<byte>, p: nat, o: nat, name: string)
    requires p + 2 <= |buf| && buf[p] >= 0xC0
    requires o == (buf[p] as int % 0x40) * 0x100 + buf[p + 1] as int
    requires Encodable(name)
    requires o + |DomainBytes(name).bytes| <= |buf| && buf[o..o + |DomainBytes(name).bytes|] == DomainBytes(name).bytes
    ensures NameAt(buf, p) == Read(Ok(StripDot(name)), p + 2)
  {
    assert LabelsBytes([]).bytes == [] && AddLabels("", []) == "";
    PointerAfterLabels(buf, p, [], p, o, name);
    assert AddLabel("", StripDot(name)) == StripDot(name);
  }

  /** "com" written in full at 0, then "a" and a pointer to 0: the name at
      5 reads as "a.com", with the reader past the pointer. */
  lemma CompressedVector(buf: seq<byte>)
    requires buf == [3, 99, 111, 109, 0, 1, 97, 0xC0, 0]
    ensures NameAt(buf, 5) == Read(Ok("a.com"), 9)
  {
    ComWritten();
    OneLabelA();
    assert buf[0..5] == [3, 99, 111, 109, 0] && buf[5..7] == [1, 97];
    PointerAfterLabels(buf, 5, ["a"], 7, 0, "com");
    assert Extend("a", "com") == "a" + "." + "com" == "a.com";
  }

  /** "com" is one good label, written as 3 c o m 0. */
  lemma ComWritten()
    ensures Encodable("com") && StripDot("com") == "com"
    ensures DomainBytes("com").bytes == [3, 99, 111, 109, 0]
  {
    var com := "com";
    assert FindDot(com, 3) == 3 && FindDot(com, 2) == 3 && FindDot(com, 1) == 3 && FindDot(com, 0) == 3;
    WireAtEnd(com, 0);
    assert SplitFrom(com, 0) == [com];
    var c := Bytes(com);
    assert c[0] == 99 && c[1] == 111 && c[2] == 109;
    assert LabelBytes(com) == [3, 99, 111, 109];
    LabelsCons(com, []);
    assert [com] == [com] + [];
  }

  /** The single label "a" is good, written as 1 a, and reads as "a". */
  lemma OneLabelA()
    ensures GoodLabels(["a"]) && LabelsBytes(["a"]).bytes == [1, 97] && AddLabels("", ["a"]) == "a"
  {
    LabelsCons("a", []);
    assert ["a"] == ["a"] + [];
    assert Bytes("a") == [97];
  }

  /** A zero length byte ends a name read without jumps just behind it. */
  lemma NameEnds(buf: seq<byte>, s: NameState)
    requires s.jumps <= MAX_JUMPS + 1 && s.jumpReturn == None
    requires s.index < |buf| && buf[s.index] == 0
    ensures ReadName(buf, s) == Read(Ok(s.domain), s.index + 1)
  {
  }

  /** After a jump, a zero length byte ends the name with the reader back
      at the remembered position. */
  lemma NameEndsReturning(buf: seq<byte>, s: NameState)
    requires s.jumps <= MAX_JUMPS + 1 && s.jumpReturn.Some?
    requires s.index < |buf| && buf[s.index] == 0
    ensures ReadName(buf, s) == Read(Ok(s.domain), s.jumpReturn.value)
  {
  }

  /** Bytes ending in zero, found at index i: the bytes before the zero,
      then the zero. */
  lemma SliceThenZero(buf: seq<byte>, i: nat, x: seq<byte>, written: seq<byte>)
    requires written == x + [0]
    requires i + |written| <= |buf| && buf[i..i + |written|] == written
    ensures i + |x| < |buf| && buf[i..i + |x|] == x && buf[i + |x|] == 0
  {
    assert buf[i..i + |x|] == buf[i..i + |written|][..|x|];
    assert buf[i + |x|] == buf[i..i + |written|][|x|];
  }

  /** A name given as its labels: when every label is good and has no dot,
      the name is written as those labels and the terminating zero. */
  lemma DomainOfJoin(labels: seq<string>)
    requires |labels| >= 1 && GoodLabels(labels)
    requires forall i :: 0 <= i < |labels| ==> '.' !in labels[i]
    ensures DomainBytes(Join(labels)) == Output(LabelsBytes(labels).bytes + [0], true)
  {
    var name := Join(labels);
    assert StripDot(name) == name by {
      var last := labels[|labels| - 1];
      JoinEnds(labels);
      assert name[|name| - 1] == name[|name| - |last|..][|last| - 1] == last[|last| - 1];
      assert last[|last| - 1] in last;
    }
    assert WireFrom(name, 0) == labels by {
      SplitJoin(labels);
      assert labels[|labels| - 1] != "";
    }
    assert LabelsBytes(labels).ok;
  }

  /** A label the reader gives back unchanged and that a split keeps whole. */
  predicate GoodLabel(l: string)
  {
    1 <= |l| <= MAX_LABEL && Narrow(l) && '.' !in l
  }

  /** A name of two such labels. */
  lemma TwoLabels(a: string, b: string)
    requires GoodLabel(a) && GoodLabel(b)
    ensures DomainBytes(a + "." + b) == Output(LabelBytes(a) + LabelBytes(b) + [0], true)
  {
    var labels := [a, b];
    assert labels[1..] == [b] && labels[1..][1..] == [];
    assert Join(labels) == a + "." + b;
    assert LabelsBytes([b]) == Output(LabelBytes(b), true) by {
      assert LabelBytes(b) + [] == LabelBytes(b);
    }
    assert LabelsBytes(labels) == Output(LabelBytes(a) + LabelBytes(b), true);
    DomainOfJoin(labels);
  }

  /** A name of three such labels. */
  lemma ThreeLabels(a: string, b: string, c: string)
    requires GoodLabel(a) && GoodLabel(b) && GoodLabel(c)
    ensures DomainBytes(a + "." + b + "." + c) == Output(LabelBytes(a) + LabelBytes(b) + LabelBytes(c) + [0], true)
  {
    var labels := [a, b, c];
    assert labels[1..] == [b, c] && labels[1..][1..] == [c] && labels[1..][1..][1..] == [];
    assert Join([c]) == c;
    assert Join([b, c]) == b + "." + c;
    assert Join(labels) == a + "." + (b + "." + c);
    assert a + "." + (b + "." + c) == a + "." + b + "." + c;
    assert LabelsBytes([c]) == Output(LabelBytes(c), true) by {
      assert LabelBytes(c) + [] == LabelBytes(c);
    }
    assert LabelsBytes([b, c]) == Output(LabelBytes(b) + LabelBytes(c), true);
    assert LabelsBytes(labels) == Output(LabelBytes(a) + (LabelBytes(b) + LabelBytes(c)), true);
    assert LabelBytes(a) + (LabelBytes(b) + LabelBytes(c)) + [0] == LabelBytes(a) + LabelBytes(b) + LabelBytes(c) + [0];
    DomainOfJoin(labels);
  }

  /** One label as written: its length byte, then its characters. */
  function LabelBytes(l: string): (r: seq<byte>)
    requires |l| <= MAX_LABEL
    ensures |r| == |l| + 1 && r[0] as int == |l| && r[1..] == Bytes(l)
  {
    [|l| as byte] + Bytes(l)
  }

  /** writeDomain's loop as a recursive definition: from `start`, the label
      up to the next dot and what follows it; after the last dot, the final
      label (unless the text ends there) and the terminating zero. */
  function EncodeFrom(n: string, start: nat): Output
    requires start <= |n|
    decreases |n| - start
  {
    var e := FindDot(n, start);
    if e < |n| then
      if e - start > MAX_LABEL then Output([], false)
      else Then(Output(LabelBytes(n[start..e]), true), EncodeFrom(n, e + 1))
    else if start == |n| then Output([0], true)
    else if |n| - start > MAX_LABEL then Output([], false)
    else Output(LabelBytes(n[start..]) + [0], true)
  }

  /** A dot found from `start` ends the first label emitted from there. */
  lemma WireAtDot(n: string, start: nat)
    requires start <= |n| && FindDot(n, start) < |n|
    ensures WireFrom(n, start) == [n[start..FindDot(n, start)]] + WireFrom(n, FindDot(n, start) + 1)
  {
    var e := FindDot(n, start);
    assert SplitFrom(n, start) == [n[start..e]] + SplitFrom(n, e + 1);
  }

  /** With no dot left, the rest of the text is the last label, if any. */
  lemma WireAtEnd(n: string, start: nat)
    requires start <= |n| && FindDot(n, start) == |n|
    ensures WireFrom(n, start) == if start == |n| then [] else [n[start..]]
  {
    assert SplitFrom(n, start) == [n[start..]];
  }

  /** The loop writes the dot-separated labels, less an empty one at the
      end, and the terminating zero. */
  lemma {:induction false} EncodeFromLabels(n: string, start: nat)
    requires start <= |n|
    ensures EncodeFrom(n, start) == Then(LabelsBytes(WireFrom(n, start)), Output([0], true))
    decreases |n| - start
  {
    var e := FindDot(n, start);
    if e < |n| {
      WireAtDot(n, start);
      EncodeFromLabels(n, e + 1);
      var l := n[start..e];
      var rest := WireFrom(n, e + 1);
      assert ([l] + rest)[0] == l && ([l] + rest)[1..] == rest;
      if |l| <= MAX_LABEL {
        ThenAssoc(Output(LabelBytes(l), true), LabelsBytes(rest), Output([0], true));
      }
    } else {
      WireAtEnd(n, start);
      if start < |n| {
        var l := n[start..];
        if |l| <= MAX_LABEL {
          assert [l][1..] == [];
          assert LabelsBytes([l]) == Output(LabelBytes(l), true);
        }
      }
    }
  }

  /** Each good label costs its length plus one length byte, and the dots
      it replaces are one fewer than the labels: the encoding is two bytes
      longer than the text. */
  lemma {:induction false} EncodeFromLength(n: string, start: nat)
    requires start < |n| && GoodLabels(SplitFrom(n, start))
    ensures EncodeFrom(n, start).ok && |EncodeFrom(n, start).bytes| == |n| - start + 2
    decreases |n| - start
  {
    var e := FindDot(n, start);
    if e < |n| {
      var parts := SplitFrom(n, start);
      assert parts == [n[start..e]] + SplitFrom(n, e + 1);
      assert parts[1..] == SplitFrom(n, e + 1);
      assert SplitFrom(n, e + 1)[0] == parts[1];
      assert e + 1 < |n|;
      EncodeFromLength(n, e + 1);
    } else {
      assert SplitFrom(n, start) == [n[start..]] && SplitFrom(n, start)[0] == n[start..];
      assert |n[start..]| <= MAX_LABEL;
      assert EncodeFrom(n, start) == Output(LabelBytes(n[start..]) + [0], true);
    }
  }

  /** A name the reader can read back is encoded in two bytes more than its
      text without the trailing dot: a length byte per label in place of the
      dots, and the terminating zero. */
  lemma DomainLength(name: string)
    requires Encodable(name) && StripDot(name) != ""
    ensures DomainBytes(name).ok && |DomainBytes(name).bytes| == |StripDot(name)| + 2
  {
    EncodeFromLabels(StripDot(name), 0);
    EncodeFromLength(StripDot(name), 0);
  }

  lemma ThenAssoc(a: Output, b: Output, c: Output)
    ensures Then(Then(a, b), c) == Then(a, Then(b, c))
  {
    if a.ok && b.ok {
      AppendAssoc(a.bytes, b.bytes, c.bytes);
    }
  }

  lemma AppendAssoc(a: seq<byte>, b: seq<byte>, c: seq<byte>)
    ensures (a + b) + c == a + (b + c)
  {
  }

  /** The encoding from a label that ends at a dot: "label too long", or
      the label followed by the encoding after the dot. */
  lemma EncodeAtDot(n: string, start: nat)
    requires start <= |n| && FindDot(n, start) < |n|
    ensures var e := FindDot(n, start);
      && (e - start > MAX_LABEL ==> EncodeFrom(n, start) == Output([], false))
      && (e - start <= MAX_LABEL ==> EncodeFrom(n, start) == Then(Output(LabelBytes(n[start..e]), true), EncodeFrom(n, e + 1)))
  {
  }

  /** The loop's invariant after one more label: what is still to be
      written loses that label, which joins what has been written. */
  lemma EncodeShift(goal: Output, written: seq<byte>, n: string, start: nat)
    requires start <= |n| && FindDot(n, start) < |n| && FindDot(n, start) - start <= MAX_LABEL
    requires goal == Then(Output(written, true), EncodeFrom(n, start))
    ensures var e := FindDot(n, start);
      goal == Then(Output(written + LabelBytes(n[start..e]), true), EncodeFrom(n, e + 1))
  {
    var e := FindDot(n, start);
    var x, rest := LabelBytes(n[start..e]), EncodeFrom(n, e + 1);
    assert EncodeFrom(n, start) == Then(Output(x, true), rest) by {
      EncodeAtDot(n, start);
    }
    ThenShift(written, x, rest);
  }

  lemma ThenShift(w: seq<byte>, x: seq<byte>, rest: Output)
    ensures Then(Output(w, true), Then(Output(x, true), rest)) == Then(Output(w + x, true), rest)
  {
  }

  /** writeDomain: the loop over dots from utils.cpp, label by label, then
      the last label (if any) and the terminating zero. A label over 63
      bytes throws after the labels before it have been appended. */
  method WriteDomain(buffer: ByteVector, name: string) returns (ok: bool)
    modifies buffer
    ensures buffer.data == old(buffer.data) + DomainBytes(name).bytes
    ensures ok == DomainBytes(name).ok
  {
    var n := StripDot(name);
    ghost var goal := EncodeFrom(n, 0);
    EncodeFromLabels(n, 0);
    ghost var written: seq<byte> := [];
    assert [] + goal.bytes == goal.bytes;
    assert goal == Then(Output(written, true), goal);
    var start := 0;
    var end := FindDot(n, start);
    while end < |n|
      invariant start <= end <= |n| && end == FindDot(n, start)
      invariant buffer.data == old(buffer.data) + written
      invariant goal == Then(Output(written, true), EncodeFrom(n, start))
      decreases |n| - start
    {
      var len := end - start;
      EncodeAtDot(n, start);
      if len > MAX_LABEL {
        assert written + [] == written;
        return false;
      }
      WriteLabel(buffer, n[start..end]);
      AppendAssoc(old(buffer.data), written, LabelBytes(n[start..end]));
      EncodeShift(goal, written, n, start);
      written := written + LabelBytes(n[start..end]);
      start := end + 1;
      end := FindDot(n, start);
    }
    ok := WriteLast(buffer, n, start);
    AppendAssoc(old(buffer.data), written, EncodeFrom(n, start).bytes);
    assert goal == DomainBytes(name);
    assert goal.bytes == written + EncodeFrom(n, start).bytes;
  }

  /** The part of writeDomain after its loop: the label after the last dot,
      unless the text ends there, and the terminating zero. */
  method WriteLast(buffer: ByteVector, n: string, start: nat) returns (ok: bool)
    requires start <= |n| && FindDot(n, start) == |n|
    modifies buffer
    ensures buffer.data == old(buffer.data) + EncodeFrom(n, start).bytes
    ensures ok == EncodeFrom(n, start).ok
  {
    if start < |n| {
      var len := |n| - start;
      if len > MAX_LABEL {
        return false;
      }
      WriteLabel(buffer, n[start..]);
    }
    buffer.PushBack(0);
    return true;
  }

  /** A label's length byte, then its characters. */
  method WriteLabel(buffer: ByteVector, l: string)
    requires |l| <= MAX_LABEL
    modifies buffer
    ensures buffer.data == old(buffer.data) + LabelBytes(l)
  {
    buffer.PushBack(|l| as byte);
    AppendChars(buffer, l);
  }

  /** The inner copy loop: each character stored as one byte. */
  method AppendChars(buffer: ByteVector, s: string)
    modifies buffer
    ensures buffer.data == old(buffer.data) + Bytes(s)
  {
    for i := 0 to |s|
      invariant buffer.data == old(buffer.data) + Bytes(s[..i])
    {
      assert Bytes(s[..i + 1]) == Bytes(s[..i]) + [CharByte(s[i])];
      buffer.PushBack(CharByte(s[i]));
    }
    assert s[..|s|] == s;
  }
}
