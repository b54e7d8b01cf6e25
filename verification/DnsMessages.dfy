/** DNS messages label by label and byte by byte, against sections 3.1 and 4.1 of RFC 1035
    (layer7/dns_server.c). */
module DnsMessages {
  import opened Base
  import opened DnsNames
  import opened DnsServer

  // ---------------------------------------------------------------- names

  /** Labels as the standard allows them: 1 to 63 bytes, here without dots and terminators. */
  predicate AreLabels(labels: seq<seq<byte>>) {
    forall i :: 0 <= i < |labels| ==> IsLabel(labels[i])
  }

  predicate IsLabel(l: seq<byte>) {
    1 <= |l| <= 63 && '.' as byte !in l && 0 !in l
  }

  function WithDots(labels: seq<seq<byte>>): seq<byte> {
    if |labels| == 0 then [] else if |labels| == 1 then labels[0]
    else labels[0] + ['.' as byte] + WithDots(labels[1..])
  }

  /** Each label behind its length. */
  function OnWire(labels: seq<seq<byte>>): seq<byte>
    requires AreLabels(labels)
  {
    if |labels| == 0 then [] else [|labels[0]|] + labels[0] + OnWire(labels[1..])
  }

  lemma {:induction false} DotBehind(l: seq<byte>, rest: seq<byte>)
    requires DOT !in l && (|rest| > 0 ==> rest[0] == DOT)
    ensures NextDot(l + rest) == |l|
  {
    if |l| > 0 {
      DotBehind(l[1..], rest);
      assert (l + rest)[1..] == l[1..] + rest;
    } else {
      assert l + rest == rest;
    }
  }

  lemma OneLabel(l: seq<byte>)
    requires IsLabel(l)
    ensures Labels(l) == [|l|] + l && Proper(l)
  {
    hide Labels, Proper, NextDot;
    var k := NextDot(l);
    assert k == |l| && k % 0x100 == k;
    assert Rest(l) == [];
    ProperUnfold(l);
    LabelsAre(l);
    NoLabels();
    hide Rest, IsLabel;
    assert l[..k] == l;
    assert [k as byte] + l + [] == [k as byte] + l;
  }

  lemma LabelAndRest(l: seq<byte>, rest: seq<byte>)
    requires IsLabel(l) && Proper(rest)
    ensures var name := l + [DOT] + rest; Labels(name) == [|l|] + l + Labels(rest) && Proper(name)
  {
    hide Labels, Proper, NextDot;
    var name := l + [DOT] + rest;
    DotBehind(l, [DOT] + rest);
    assert name == l + ([DOT] + rest) && name[..|l|] == l && name[|l| + 1..] == rest;
    assert |rest| > 0 by { ProperUnfold(rest); }
    LabelsAre(name);
    ProperUnfold(name);
  }

  lemma {:induction false} ProperOnWire(labels: seq<seq<byte>>)
    requires AreLabels(labels) && |labels| > 0
    ensures Labels(WithDots(labels)) == OnWire(labels) && Proper(WithDots(labels)) && IsText(WithDots(labels))
  {
    hide Labels, Proper;
    var l, rest := labels[0], labels[1..];
    assert IsLabel(l);
    if |labels| == 1 {
      OneLabel(l);
      assert OnWire(rest) == [];
    } else {
      ProperOnWire(rest);
      LabelAndRest(l, WithDots(rest));
    }
  }

  /** A name is written as its labels, each behind its length, and a zero. */
  lemma NameOnWire(labels: seq<seq<byte>>)
    requires AreLabels(labels) && |OnWire(labels)| + 1 <= 256
    ensures EncodeName(WithDots(labels)) == Some(OnWire(labels) + [0])
    ensures WellFormed(WithDots(labels)) && IsText(WithDots(labels))
  {
    hide Proper, IsLabel;
    if |labels| > 0 {
      ProperOnWire(labels);
    }
  }

  // ---------------------------------------------------------------- messages

  /** Recursion desired; one question, for an address in the Internet class. */
  lemma QueryOnWire(id: u16, labels: seq<seq<byte>>, size: nat)
    requires AreLabels(labels) && |OnWire(labels)| + 1 <= 256
    ensures CreateQuery(id, WithDots(labels), size) ==
            if 12 + |OnWire(labels)| + 5 > size then None
            else Some([id / 256, id % 256, 0x01, 0x00, 0, 1, 0, 0, 0, 0, 0, 0] +
                      OnWire(labels) + [0] + [0, 1, 0, 1])
  {
    NameOnWire(labels);
    hide EncodeName, OnWire, WithDots;
    var name := OnWire(labels) + [0];
    assert U16Bytes(0x0100) == [0x01, 0x00] && U16Bytes(0) == [0, 0];
    assert Header(id, QUERY_FLAGS, 0) == [id / 256, id % 256, 0x01, 0x00, 0, 1, 0, 0, 0, 0, 0, 0];
    var h := Header(id, QUERY_FLAGS, 0);
    hide Header;
    assert h + name + QUESTION_END == h + OnWire(labels) + [0] + [0, 1, 0, 1];
  }

  /** A response, authoritative, recursion available; the question again; and, if the name is known, the answer:
      a pointer to the name in the question, the address for 300 seconds. Else the response code is 3. */
  lemma ResponseOnWire(table: seq<Entry>, id: u16, labels: seq<seq<byte>>)
    requires AreLabels(labels) && |OnWire(labels)| + 1 <= 256
    ensures var query := CreateQuery(id, WithDots(labels), 512);
            var ip := Resolve(table, WithDots(labels));
            && query.Some?
            && HandleQuery(table, query.value, 512) == Response(
                 [id / 256, id % 256, 0x85, if ip.Some? then 0x80 else 0x83, 0, 1, 0, if ip.Some? then 1 else 0,
                  0, 0, 0, 0] + OnWire(labels) + [0] + [0, 1, 0, 1] +
                 (match ip
                  case None => []
                  case Some(a) => [0xC0, 0x0C, 0, 1, 0, 1, 0, 0, 300 / 256, 300 % 256, 0, 4, a.o0, a.o1, a.o2, a.o3]))
  {
    hide EncodeName, OnWire, WithDots, Resolve, CreateQuery, HandleQuery, Header, Answer, AreLabels, WellFormed;
    QueryOnWire(id, labels, 512);
    NameOnWire(labels);
    QueryHandled(table, id, WithDots(labels), 512, 512);
    HeadersOnWire(id);
    match Resolve(table, WithDots(labels)) {
      case None => Flat(Header(id, ANSWER_FLAGS + NXDOMAIN, 0), OnWire(labels), []);
      case Some(a) =>
        AnswerOnWire(a);
        Flat(Header(id, ANSWER_FLAGS, 1), OnWire(labels), Answer(a));
    }
  }

  lemma HeadersOnWire(id: u16)
    ensures Header(id, ANSWER_FLAGS, 1) == [id / 256, id % 256, 0x85, 0x80, 0, 1, 0, 1, 0, 0, 0, 0]
    ensures Header(id, ANSWER_FLAGS + NXDOMAIN, 0) == [id / 256, id % 256, 0x85, 0x83, 0, 1, 0, 0, 0, 0, 0, 0]
  {
    assert U16Bytes(0x8580) == [0x85, 0x80] && U16Bytes(0x8583) == [0x85, 0x83] && U16Bytes(0) == [0, 0];
    assert U16Bytes(1) == [0, 1];
  }

  lemma AnswerOnWire(a: Ip)
    ensures Answer(a) == [0xC0, 0x0C, 0, 1, 0, 1, 0, 0, 300 / 256, 300 % 256, 0, 4, a.o0, a.o1, a.o2, a.o3]
  {
  }

  lemma Flat(head: seq<byte>, name: seq<byte>, answer: seq<byte>)
    ensures head + (name + [0] + QUESTION_END) + answer == head + name + [0] + [0, 1, 0, 1] + answer
    ensures head + (name + [0] + QUESTION_END) == head + name + [0] + [0, 1, 0, 1] + []
  {
  }

  // ---------------------------------------------------------------- what is looked up

  lemma {:induction false} CutExactly(s: seq<byte>, at: byte)
    ensures var c := Cut(s, at);
            c == s[..|c|] && at !in c && (|c| < |s| ==> s[|c|] == at)
  {
    if |s| > 0 && s[0] != at {
      CutExactly(s[1..], at);
    }
  }

  /** What of a URL is looked up: behind a leading "http://", up to the first slash, the end or 255 bytes. */
  lemma CleanExactly(host: seq<byte>)
    ensures var scheme: seq<byte> := ['h' as byte, 't' as byte, 't' as byte, 'p' as byte, ':' as byte, '/' as byte,
                                      '/' as byte];
            var from := if scheme <= host then 7 else 0;
            var c := Clean(host);
            && from + |c| <= |host| && c == host[from..from + |c|] && '/' as byte !in c && |c| <= 255
            && (from + |c| == |host| || host[from + |c|] == '/' as byte || |c| == 255)
  {
    var h := if |host| >= |HTTP| && host[..|HTTP|] == HTTP then host[|HTTP|..] else host;
    CutExactly(if |h| > MAX_NAME - 1 then h[..MAX_NAME - 1] else h, SLASH);
    assert HTTP <= host <==> |host| >= |HTTP| && host[..|HTTP|] == HTTP;
  }

  /** The address of the first entry of this name. */
  lemma {:induction false} FirstEntryCounts(table: seq<Entry>, host: seq<byte>, i: nat)
    requires i < |table| && table[i].host == Clean(host) && forall j :: 0 <= j < i ==> table[j].host != Clean(host)
    ensures Resolve(table, host) == Some(table[i].ip)
  {
    hide Clean;
    LookupFirst(table, Clean(host), i);
  }

  lemma {:induction false} LookupFirst(table: seq<Entry>, host: seq<byte>, i: nat)
    requires i < |table| && table[i].host == host && forall j :: 0 <= j < i ==> table[j].host != host
    ensures Lookup(table, host) == Some(table[i].ip)
  {
    if i > 0 {
      LookupFirst(table[1..], host, i - 1);
    }
  }

  lemma {:induction false} UnknownOtherwise(table: seq<Entry>, host: seq<byte>)
    ensures Lookup(table, host).None? <==> forall i :: 0 <= i < |table| ==> table[i].host != host
  {
    if |table| > 0 {
      UnknownOtherwise(table[1..], host);
      assert forall i :: 1 <= i < |table| ==> table[i] == table[1..][i - 1];
      assert forall i :: 0 <= i < |table[1..]| ==> table[1..][i] == table[i + 1];
    }
  }

  // ---------------------------------------------------------------- responses in general

  /** A resource record whose name is a pointer, as section 4.1.3 of RFC 1035 lays it out. */
  datatype Record = Record(low: byte, kind: u16, class_: u16, ttl: u32, data: seq<byte>)

  function RecordOnWire(r: Record): seq<byte>
    requires |r.data| < 0x1_0000
  {
    [0xC0, r.low] + U16Bytes(r.kind) + U16Bytes(r.class_) + U32Bytes(r.ttl) + U16Bytes(|r.data|) + r.data
  }

  predicate Short(rs: seq<Record>) {
    forall i :: 0 <= i < |rs| ==> |rs[i].data| < 0x1_0000
  }

  function RecordsOnWire(rs: seq<Record>): seq<byte>
    requires Short(rs)
  {
    if |rs| == 0 then [] else RecordOnWire(rs[0]) + RecordsOnWire(rs[1..])
  }

  /** The address of the first record of type A whose data are four bytes. */
  function FirstAddress(rs: seq<Record>): Parsed {
    if |rs| == 0 then NoAddress
    else if rs[0].kind == 1 && |rs[0].data| == 4 then
      Address(Ip(rs[0].data[0], rs[0].data[1], rs[0].data[2], rs[0].data[3]))
    else FirstAddress(rs[1..])
  }

  lemma RecordFields(before: seq<byte>, r: Record, tail: seq<byte>)
    requires |r.data| < 0x1_0000
    ensures var raw, at := before + RecordOnWire(r) + tail, |before|;
            && |RecordOnWire(r)| == 12 + |r.data| && |raw| == at + 12 + |r.data| + |tail|
            && raw[at] == 0xC0 && ReadU16(raw, at + 2) == r.kind && ReadU16(raw, at + 10) == |r.data|
            && (|r.data| == 4 ==> ReadIp(raw, at + 12) == Ip(r.data[0], r.data[1], r.data[2], r.data[3]))
  {
    var w := RecordOnWire(r);
    var raw, at := before + w + tail, |before|;
    assert forall k :: 0 <= k < |w| ==> raw[at + k] == w[k];
    assert w[2] == r.kind / 0x100 && w[3] == r.kind % 0x100;
    assert w[10] == |r.data| / 0x100 && w[11] == |r.data| % 0x100;
    assert raw[at + 2] == w[2] && raw[at + 3] == w[3] && raw[at + 10] == w[10] && raw[at + 11] == w[11];
    if |r.data| == 4 {
      assert raw[at + 12] == w[12] && raw[at + 13] == w[13] && raw[at + 14] == w[14] && raw[at + 15] == w[15];
    }
  }

  /** Records of other types and lengths are passed over, whatever they hold. */
  lemma {:induction false} FindsFirstAddress(before: seq<byte>, rs: seq<Record>)
    requires Short(rs)
    ensures FindAnswer(before + RecordsOnWire(rs), |before|, |rs|) == FirstAddress(rs)
    decreases |rs|
  {
    if |rs| > 0 {
      var w, rest := RecordOnWire(rs[0]), RecordsOnWire(rs[1..]);
      var raw := before + w + rest;
      assert before + RecordsOnWire(rs) == raw;
      RecordFields(before, rs[0], rest);
      FindsFirstAddress(before + w, rs[1..]);
      hide RecordOnWire, RecordsOnWire, ReadU16, ReadIp, DecodeName;
      assert FindAnswer(raw, |before|, |rs|) == ReadRecord(raw, |before| + 2, |rs|);
    }
  }

  function QuestionsOnWire(names: seq<seq<seq<byte>>>): seq<byte>
    requires forall i :: 0 <= i < |names| ==> AreLabels(names[i])
  {
    if |names| == 0 then [] else OnWire(names[0]) + [0] + QUESTION_END + QuestionsOnWire(names[1..])
  }

  lemma OneQuestion(before: seq<byte>, labels: seq<seq<byte>>, tail: seq<byte>)
    requires AreLabels(labels) && |OnWire(labels)| + 1 <= 256
    ensures var raw := before + (OnWire(labels) + [0] + QUESTION_END + tail);
            DecodeName(raw[|before|..]) == Name(WithDots(labels), |OnWire(labels)| + 1)
  {
    hide OnWire, WithDots, AreLabels, DecodeName, EncodeName, WellFormed;
    NameOnWire(labels);
    var raw := before + (OnWire(labels) + [0] + QUESTION_END + tail);
    NameRoundTrip(WithDots(labels), QUESTION_END + tail);
    assert raw[|before|..] == OnWire(labels) + [0] + (QUESTION_END + tail);
  }

  /** One question more in front. */
  lemma QuestionStep(before: seq<byte>, labels: seq<seq<byte>>, first: seq<byte>, rest: seq<byte>, n: nat)
    requires AreLabels(labels) && |OnWire(labels)| + 1 <= 256 && n > 0
    requires first == OnWire(labels) + [0] + QUESTION_END
    ensures SkipQuestions(before + (first + rest), |before|, n) ==
            SkipQuestions((before + first) + rest, |before + first|, n - 1)
  {
    hide OnWire, DecodeName, AreLabels, WithDots, SkipQuestions;
    OneQuestion(before, labels, rest);
    Regrouped(before, first, rest, []);
    assert |first| == |OnWire(labels)| + 5;
    SkipsOne(before + (first + rest), |before|, WithDots(labels), |OnWire(labels)| + 1, n);
  }

  lemma QuestionsUnfold(names: seq<seq<seq<byte>>>)
    requires |names| > 0 && forall i :: 0 <= i < |names| ==> AreLabels(names[i])
    ensures QuestionsOnWire(names) == (OnWire(names[0]) + [0] + QUESTION_END) + QuestionsOnWire(names[1..])
  {
    hide OnWire, AreLabels;
  }

  lemma NoQuestions(before: seq<byte>, tail: seq<byte>)
    ensures |QuestionsOnWire([])| == 0 && SkipQuestions(before + tail, |before|, 0) == At(|before|)
  {
  }

  /** Any number of questions for such names is passed over. */
  lemma {:induction false} SkipsQuestions(before: seq<byte>, names: seq<seq<seq<byte>>>, tail: seq<byte>)
    requires forall i :: 0 <= i < |names| ==> AreLabels(names[i]) && |OnWire(names[i])| + 1 <= 256
    ensures SkipQuestions(before + (QuestionsOnWire(names) + tail), |before|, |names|) ==
            At(|before| + |QuestionsOnWire(names)|)
    decreases |names|
  {
    hide OnWire, QuestionsOnWire, AreLabels, SkipQuestions;
    if |names| > 0 {
      var first, rest := OnWire(names[0]) + [0] + QUESTION_END, QuestionsOnWire(names[1..]);
      QuestionsUnfold(names);
      QuestionStep(before, names[0], first, rest + tail, |names|);
      SkipsQuestions(before + first, names[1..], tail);
      Regrouped(before, first, rest, tail);
    } else {
      assert names == [];
      NoQuestions(before, QuestionsOnWire(names) + tail);
    }
  }

  lemma SkipsOne(raw: seq<byte>, pos: nat, name: seq<byte>, consumed: nat, n: nat)
    requires n > 0 && pos < |raw| && DecodeName(raw[pos..]) == Name(name, consumed) && consumed > 0
    ensures SkipQuestions(raw, pos, n) == SkipQuestions(raw, pos + consumed + 4, n - 1)
  {
    hide DecodeName;
  }

  lemma Regrouped(a: seq<byte>, b: seq<byte>, c: seq<byte>, d: seq<byte>)
    ensures a + ((b + c) + d) == a + (b + (c + d)) && a + ((b + c) + d) == (a + b) + (c + d)
    ensures a + (b + c) == a + b + c
  {
  }

  lemma HeaderFields(id: u16, flags: u16, questions: u16, answers: u16, more: seq<byte>, rest: seq<byte>)
    requires |more| == 4
    ensures var head := U16Bytes(id) + U16Bytes(flags) + U16Bytes(questions) + U16Bytes(answers) + more;
            var raw := head + rest;
            && |head| == 12
            && ReadU16(raw, 2) == flags && ReadU16(raw, 4) == questions && ReadU16(raw, 6) == answers
  {
    var raw := U16Bytes(id) + U16Bytes(flags) + U16Bytes(questions) + U16Bytes(answers) + more + rest;
    assert raw[2] == flags / 0x100 && raw[3] == flags % 0x100;
    assert raw[4] == questions / 0x100 && raw[5] == questions % 0x100;
    assert raw[6] == answers / 0x100 && raw[7] == answers % 0x100;
  }

  /** A response with any questions and any records behind them is read as the first address among them,
      unless its response code is not zero. */
  lemma ResponseRead(id: u16, flags: u16, names: seq<seq<seq<byte>>>, rs: seq<Record>, more: seq<byte>)
    requires |names| < 0x1_0000 && |rs| < 0x1_0000 && Short(rs) && |more| == 4
    requires forall i :: 0 <= i < |names| ==> AreLabels(names[i]) && |OnWire(names[i])| + 1 <= 256
    ensures ParseResponse(U16Bytes(id) + U16Bytes(flags) + U16Bytes(|names|) + U16Bytes(|rs|) + more +
                          (QuestionsOnWire(names) + RecordsOnWire(rs))) ==
            if flags % 16 == 0 then FirstAddress(rs) else NoAddress
  {
    hide RecordsOnWire, QuestionsOnWire, FindAnswer, SkipQuestions, AreLabels, OnWire, U16Bytes, ReadU16, FirstAddress;
    var head := U16Bytes(id) + U16Bytes(flags) + U16Bytes(|names|) + U16Bytes(|rs|) + more;
    var questions, answers := QuestionsOnWire(names), RecordsOnWire(rs);
    var raw := head + (questions + answers);
    HeaderFields(id, flags, |names|, |rs|, more, questions + answers);
    SkipsQuestions(head, names, answers);
    FindsFirstAddress(head + questions, rs);
    Regrouped(head, questions, answers, []);
  }
}
