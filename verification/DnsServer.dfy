/** DNS queries, answers and their parsing (layer7/dns_server.c, section 4.1 of RFC 1035). */
module DnsServer {
  import opened Base
  import opened DnsNames

  const MAX_ENTRIES := 32
  const SLASH: byte := 47
  const HTTP: seq<byte> := [104, 116, 116, 112, 58, 47, 47]
  const HEADER_SIZE := 12
  const QUERY_FLAGS: u16 := 0x0100
  const ANSWER_FLAGS: u16 := 0x8580
  const NXDOMAIN: u16 := 3
  const TYPE_A: u16 := 1

  datatype Entry = Entry(host: seq<byte>, ip: Ip)

  // ---------------------------------------------------------------- the table

  function Cut(s: seq<byte>, at: byte): (r: seq<byte>)
    ensures |r| <= |s|
  {
    if |s| == 0 || s[0] == at then [] else [s[0]] + Cut(s[1..], at)
  }

  /** The bytes of a name up to its terminator. */
  function CString(s: seq<byte>): (r: seq<byte>)
    ensures |r| <= |s|
  {
    Cut(s, 0)
  }

  /** The host part of what may be a URL: without "http://", at most 255 bytes, up to a slash. */
  function Clean(host: seq<byte>): seq<byte> {
    var h := if |host| >= |HTTP| && host[..|HTTP|] == HTTP then host[|HTTP|..] else host;
    Cut(if |h| > MAX_NAME - 1 then h[..MAX_NAME - 1] else h, SLASH)
  }

  function Lookup(table: seq<Entry>, host: seq<byte>): Option<Ip> {
    if |table| == 0 then None else if table[0].host == host then Some(table[0].ip) else Lookup(table[1..], host)
  }

  /** dns_server_resolve. */
  function Resolve(table: seq<Entry>, host: seq<byte>): Option<Ip> {
    Lookup(table, Clean(host))
  }

  // ---------------------------------------------------------------- messages

  function Header(id: u16, flags: u16, answers: u16): (h: seq<byte>)
    ensures |h| == HEADER_SIZE
  {
    U16Bytes(id) + U16Bytes(flags) + [0, 1] + U16Bytes(answers) + [0, 0, 0, 0]
  }

  /** QTYPE A and QCLASS IN. */
  const QUESTION_END: seq<byte> := [0, 1, 0, 1]

  /** dns_create_query. */
  function CreateQuery(id: u16, host: seq<byte>, size: nat): Option<seq<byte>> {
    var enc := EncodeName(host);
    if enc.None? || HEADER_SIZE + |enc.value| + 4 > size then None
    else Some(Header(id, QUERY_FLAGS, 0) + enc.value + QUESTION_END)
  }

  /** The answer: a pointer to the question's name, TYPE A, CLASS IN, TTL 300, and the address. */
  function Answer(ip: Ip): (a: seq<byte>)
    ensures |a| == 16
  {
    [0xC0, 0x0C, 0, 1, 0, 1, 0, 0, 0x01, 0x2C, 0, 4] + IpBytes(ip)
  }

  /** Stuck: the name of the question never ends. Astray: reading it leaves the query. */
  datatype Handled = Response(raw: seq<byte>) | NoResponse | Stuck | Astray

  /** dns_server_handle_query. Only 12 of the 14 bytes behind the answer's name are accounted for when
      the space is checked. */
  function HandleQuery(table: seq<Entry>, query: seq<byte>, space: nat): Handled {
    if |query| < HEADER_SIZE then NoResponse else
    var q := DecodeName(query[HEADER_SIZE..]);
    if q.Cyclic? then Stuck
    else if q.Overread? then Astray
    else if q.Bad? || q.consumed == 0 then NoResponse else
    var host := CString(q.name);
    var enc := EncodeName(host);
    if enc.None? || HEADER_SIZE + |enc.value| + 4 > space then NoResponse else
    var ip := Resolve(table, host);
    var id := ReadU16(query, 0);
    var question := enc.value + QUESTION_END;
    if ip.None? then Response(Header(id, ANSWER_FLAGS + NXDOMAIN, 0) + question)
    else if HEADER_SIZE + |question| + 2 + 12 > space then NoResponse
    else Response(Header(id, ANSWER_FLAGS, 1) + question + Answer(ip.value))
  }

  /** Endless: a name never ends. Outside: reading one leaves the message. */
  datatype Parsed = Address(ip: Ip) | NoAddress | Endless | Outside

  datatype Skipped = At(pos: nat) | Broken | Looping | Beyond

  /** The loop over the questions: the position behind them, if they can be read. */
  function SkipQuestions(raw: seq<byte>, pos: nat, n: nat): Skipped
    decreases n
  {
    if n == 0 || pos >= |raw| then At(pos) else
    var q := DecodeName(raw[pos..]);
    if q.Cyclic? then Looping
    else if q.Overread? then Beyond
    else if q.Bad? || q.consumed == 0 then Broken
    else SkipQuestions(raw, pos + q.consumed + 4, n - 1)
  }

  /** The loop over the answers: the first address of type A. */
  function FindAnswer(raw: seq<byte>, pos: nat, n: nat): Parsed
    decreases n
  {
    if n == 0 || pos >= |raw| then NoAddress
    else if raw[pos] >= POINTER_MARK then ReadRecord(raw, pos + 2, n)
    else
      var name := DecodeName(raw[pos..]);
      if name.Cyclic? then Endless
      else if name.Overread? then Outside
      else if name.Bad? || name.consumed == 0 then NoAddress
      else ReadRecord(raw, pos + name.consumed, n)
  }

  /** A resource record behind its name, and the records behind it. */
  function ReadRecord(raw: seq<byte>, at: nat, n: nat): Parsed
    requires n > 0
    decreases n, 0
  {
    if at + 10 > |raw| then NoAddress else
    var len := ReadU16(raw, at + 8);
    if ReadU16(raw, at) == TYPE_A && len == 4 && at + 14 <= |raw| then Address(ReadIp(raw, at + 10))
    else FindAnswer(raw, at + 10 + len, n - 1)
  }

  /** dns_parse_response. */
  function ParseResponse(raw: seq<byte>): Parsed {
    if |raw| < HEADER_SIZE || ReadU16(raw, 2) % 0x10 != 0 then NoAddress else
    match SkipQuestions(raw, HEADER_SIZE, ReadU16(raw, 4))
    case At(pos) => FindAnswer(raw, pos, ReadU16(raw, 6))
    case Broken => NoAddress
    case Looping => Endless
    case Beyond => Outside
  }

  // ---------------------------------------------------------------- query, answer, parse

  lemma HeaderReads(id: u16, flags: u16, answers: u16, rest: seq<byte>)
    ensures var raw := Header(id, flags, answers) + rest;
            && ReadU16(raw, 0) == id && ReadU16(raw, 2) == flags && ReadU16(raw, 4) == 1 && ReadU16(raw, 6) == answers
            && raw[HEADER_SIZE..] == rest
  {
    var h := Header(id, flags, answers);
    var raw := h + rest;
    assert raw[0] == h[0] && raw[1] == h[1] && raw[2] == h[2] && raw[3] == h[3];
    assert raw[4] == h[4] && raw[5] == h[5] && raw[6] == h[6] && raw[7] == h[7];
    assert h[0] == id / 0x100 && h[1] == id % 0x100 && h[2] == flags / 0x100 && h[3] == flags % 0x100;
    assert h[6] == answers / 0x100 && h[7] == answers % 0x100;
  }

  /** C strings have no zero byte inside. */
  predicate IsText(s: seq<byte>) {
    forall i :: 0 <= i < |s| ==> s[i] != 0
  }

  lemma {:induction false} TextIsCString(s: seq<byte>)
    requires IsText(s)
    ensures CString(s) == s
  {
    if |s| > 0 {
      TextIsCString(s[1..]);
    }
  }

  /** What the server makes of a query for a proper name. */
  lemma QueryHandled(table: seq<Entry>, id: u16, host: seq<byte>, size: nat, space: nat)
    requires IsText(host) && WellFormed(host) && CreateQuery(id, host, size).Some?
    ensures var enc := EncodeName(host).value; var question := enc + QUESTION_END;
            var ip := Resolve(table, host);
            HandleQuery(table, CreateQuery(id, host, size).value, space) ==
            if HEADER_SIZE + |enc| + 4 > space then NoResponse
            else if ip.None? then Response(Header(id, ANSWER_FLAGS + NXDOMAIN, 0) + question)
            else if HEADER_SIZE + |question| + 14 > space then NoResponse
            else Response(Header(id, ANSWER_FLAGS, 1) + question + Answer(ip.value))
  {
    hide DecodeName, EncodeName, Header, Resolve, WellFormed, CString, Answer, ReadU16;
    var enc := EncodeName(host).value;
    var query := CreateQuery(id, host, size).value;
    assert query == Header(id, QUERY_FLAGS, 0) + (enc + QUESTION_END);
    HeaderReads(id, QUERY_FLAGS, 0, enc + QUESTION_END);
    NameRoundTrip(host, QUESTION_END);
    TextIsCString(host);
    assert |enc| > 0 by { EncodedNotEmpty(host); }
  }

  lemma EncodedNotEmpty(host: seq<byte>)
    requires EncodeName(host).Some?
    ensures 1 <= |EncodeName(host).value| <= MAX_NAME
  {
  }

  lemma QuestionSkipped(head: seq<byte>, host: seq<byte>, tail: seq<byte>)
    requires |head| == HEADER_SIZE && EncodeName(host).Some? && WellFormed(host)
    ensures var enc := EncodeName(host).value; var raw := head + (enc + (QUESTION_END + tail));
            SkipQuestions(raw, HEADER_SIZE, 1) == At(HEADER_SIZE + |enc| + 4)
  {
    hide DecodeName, EncodeName, WellFormed;
    var enc := EncodeName(host).value;
    var raw := head + (enc + (QUESTION_END + tail));
    assert raw[HEADER_SIZE..] == enc + (QUESTION_END + tail);
    EncodedNotEmpty(host);
    NameRoundTrip(host, QUESTION_END + tail);
    assert SkipQuestions(raw, HEADER_SIZE + |enc| + 4, 0) == At(HEADER_SIZE + |enc| + 4);
  }

  lemma AnswerReads(before: seq<byte>, ip: Ip)
    ensures var raw := before + Answer(ip); var n := |before|;
            && |raw| == n + 16 && raw[n] == 0xC0 && ReadU16(raw, n + 2) == TYPE_A && ReadU16(raw, n + 10) == 4
            && ReadIp(raw, n + 12) == ip
  {
    var raw, a, n := before + Answer(ip), Answer(ip), |before|;
    assert forall k :: n <= k < |raw| ==> raw[k] == a[k - n];
    assert a[12] == ip.o0 && a[13] == ip.o1 && a[14] == ip.o2 && a[15] == ip.o3;
  }

  lemma AnswerFound(before: seq<byte>, ip: Ip)
    ensures FindAnswer(before + Answer(ip), |before|, 1) == Address(ip)
  {
    hide DecodeName, Answer, ReadU16, ReadIp;
    AnswerReads(before, ip);
  }

  /** The pipeline: for every proper name that fits, parsing the server's response to its query gives
      exactly what the table says, an address or, on NXDOMAIN, none. Space for 512 bytes is enough. */
  lemma PipelineResolves(table: seq<Entry>, id: u16, host: seq<byte>, size: nat, space: nat)
    requires IsText(host) && WellFormed(host) && EncodeName(host).Some?
    requires HEADER_SIZE + |EncodeName(host).value| + 4 <= size && 512 <= space
    ensures var query := CreateQuery(id, host, size);
            && query.Some?
            && var response := HandleQuery(table, query.value, space);
            && response.Response? && |response.raw| <= space && ReadU16(response.raw, 0) == id
            && ParseResponse(response.raw) ==
               (match Resolve(table, host) case Some(ip) => Address(ip) case None => NoAddress)
  {
    hide DecodeName, EncodeName, Header, Resolve, WellFormed, CString, Answer, ReadU16, HandleQuery, SkipQuestions,
      FindAnswer;
    var enc := EncodeName(host).value;
    EncodedNotEmpty(host);
    QueryHandled(table, id, host, size, space);
    var ip := Resolve(table, host);
    if ip.Some? {
      var head := Header(id, ANSWER_FLAGS, 1);
      var question := enc + QUESTION_END;
      HeaderReads(id, ANSWER_FLAGS, 1, question + Answer(ip.value));
      assert head + question + Answer(ip.value) == head + (question + Answer(ip.value));
      QuestionSkipped(head, host, Answer(ip.value));
      assert question + Answer(ip.value) == enc + (QUESTION_END + Answer(ip.value));
      AnswerFound(head + question, ip.value);
    } else {
      HeaderReads(id, ANSWER_FLAGS + NXDOMAIN, 0, enc + QUESTION_END);
    }
  }

  /** The name a query asks for, if it is one the server can answer. */
  function AskedFor(query: seq<byte>): Option<seq<byte>> {
    if |query| < HEADER_SIZE then None else
    var q := DecodeName(query[HEADER_SIZE..]);
    if !q.Name? || q.consumed == 0 || EncodeName(CString(q.name)).None? then None else Some(CString(q.name))
  }

  /** The bytes a response to a query for host takes. */
  function Needed(table: seq<Entry>, host: seq<byte>): nat
    requires EncodeName(host).Some?
  {
    HEADER_SIZE + |EncodeName(host).value| + 4 + if Resolve(table, host).Some? then 16 else 0
  }

  /** The space check is two bytes short. For every query and every space: a response longer than the
      space is written exactly when the name asked for is found and one or two bytes are missing. */
  lemma OverrunsExactly(table: seq<Entry>, query: seq<byte>, space: nat)
    ensures var r := HandleQuery(table, query, space); var host := AskedFor(query);
            && (r.Response? ==> host.Some? && |r.raw| == Needed(table, host.value))
            && (r.Response? && |r.raw| > space <==>
                  && host.Some? && Resolve(table, host.value).Some?
                  && space < Needed(table, host.value) <= space + 2)
  {
    hide DecodeName, EncodeName, Header, Resolve, CString, Answer, ReadU16;
  }

  /** Such a query and such a space exist for every proper name in the table. */
  lemma OverrunHappens(table: seq<Entry>, id: u16, host: seq<byte>, size: nat, missing: nat)
    requires IsText(host) && WellFormed(host) && CreateQuery(id, host, size).Some?
    requires Resolve(table, host).Some? && 1 <= missing <= 2
    ensures var space := Needed(table, host) - missing;
            var r := HandleQuery(table, CreateQuery(id, host, size).value, space);
            r.Response? && |r.raw| == space + missing
  {
    hide DecodeName, EncodeName, Header, Resolve, WellFormed, CString, Answer, HandleQuery;
    QueryHandled(table, id, host, size, Needed(table, host) - missing);
  }

  // ---------------------------------------------------------------- adding names

  /** dns_server_add_entry. */
  function AddEntry(table: seq<Entry>, host: seq<byte>, ip: Ip): (bool, seq<Entry>) {
    if |table| >= MAX_ENTRIES then (false, table) else (true, Put(table, host, ip))
  }

  function Put(table: seq<Entry>, host: seq<byte>, ip: Ip): seq<Entry> {
    if |table| == 0 then [Entry(Stored(host), ip)]
    else if table[0].host == host then [Entry(host, ip)] + table[1..]
    else [table[0]] + Put(table[1..], host, ip)
  }

  /** The name as it is stored. */
  function Stored(host: seq<byte>): seq<byte> {
    if |host| > MAX_NAME - 1 then host[..MAX_NAME - 1] else host
  }

  predicate ShortNames(table: seq<Entry>) {
    forall i :: 0 <= i < |table| ==> |table[i].host| < MAX_NAME
  }

  lemma {:induction false} LookupAfterPut(table: seq<Entry>, host: seq<byte>, ip: Ip, name: seq<byte>)
    requires ShortNames(table)
    ensures Lookup(Put(table, host, ip), name) ==
            if name == Stored(host) && (|host| < MAX_NAME || Lookup(table, name).None?) then Some(ip)
            else Lookup(table, name)
  {
    if |table| > 0 && table[0].host != host {
      LookupAfterPut(table[1..], host, ip, name);
    }
  }

  /** What adding an entry does to every lookup. A full table is left alone; a name of 256 bytes or more
      is stored cut, behind an entry that already has the cut name. */
  lemma AddChangesOneName(table: seq<Entry>, host: seq<byte>, ip: Ip, other: seq<byte>)
    requires ShortNames(table)
    ensures Resolve(AddEntry(table, host, ip).1, other) ==
            if |table| < 32 && Clean(other) == Stored(host)
               && (|host| < 256 || Resolve(table, other).None?)
            then Some(ip) else Resolve(table, other)
  {
    hide Clean, Put, Lookup, Stored, ShortNames;
    LookupAfterPut(table, host, ip, Clean(other));
  }

  /** An added name resolves to its address exactly if resolving does not cut it: it has no slash and
      does not start with "http://". Otherwise whatever it is cut to decides, as before. */
  lemma AddedResolves(table: seq<Entry>, host: seq<byte>, ip: Ip)
    requires ShortNames(table) && |table| < 32 && |host| < 256
    ensures Resolve(AddEntry(table, host, ip).1, host) == Some(ip) <==>
              Clean(host) == host || Resolve(table, host) == Some(ip)
    ensures Clean(host) == host <==> SLASH !in host && !(|host| >= |HTTP| && host[..|HTTP|] == HTTP)
  {
    AddChangesOneName(table, host, ip, host);
    CutIsWhole(host, SLASH);
    hide Resolve, AddEntry;
    if |host| >= |HTTP| && host[..|HTTP|] == HTTP {
      assert HTTP[5] == SLASH && host[5] == host[..|HTTP|][5];
    }
  }

  lemma {:induction false} CutIsWhole(s: seq<byte>, at: byte)
    ensures Cut(s, at) == s <==> at !in s
  {
    if |s| > 0 && s[0] != at {
      CutIsWhole(s[1..], at);
      assert s == [s[0]] + s[1..];
    }
  }

  // ---------------------------------------------------------------- the server itself

  method WriteHeader(out: array<byte>, id: u16, flags: u16, answers: u16)
    requires HEADER_SIZE <= out.Length
    modifies out
    ensures out[..HEADER_SIZE] == Header(id, flags, answers) && out[HEADER_SIZE..] == old(out[HEADER_SIZE..])
  {
    WriteU16(out, 0, id);
    WriteU16(out, 2, flags);
    WriteU16(out, 4, 1);
    WriteU16(out, 6, answers);
    WriteU16(out, 8, 0);
    WriteU16(out, 10, 0);
  }

  /** A name and the question's type and class behind the header. */
  method WriteQuestion(out: array<byte>, enc: seq<byte>) returns (pos: nat)
    requires HEADER_SIZE + |enc| + 4 <= out.Length
    modifies out
    ensures pos == HEADER_SIZE + |enc| + 4 && out[..pos] == old(out[..HEADER_SIZE]) + (enc + QUESTION_END)
  {
    ghost var head := out[..HEADER_SIZE];
    CopyIn(out, HEADER_SIZE, enc);
    CopyIn(out, HEADER_SIZE + |enc|, QUESTION_END);
    pos := HEADER_SIZE + |enc| + 4;
    assert out[..HEADER_SIZE] == head;
    assert out[HEADER_SIZE..pos] == enc + QUESTION_END;
    assert out[..pos] == out[..HEADER_SIZE] + out[HEADER_SIZE..pos];
  }

  method EncodedName(host: seq<byte>) returns (r: Option<seq<byte>>)
    ensures r == EncodeName(host)
  {
    hide EncodeName;
    var buffer := new byte[MAX_NAME];
    EncodedLength(host);
    var len := Encode(buffer, host);
    r := if len == 0 then None else Some(buffer[..len]);
  }

  lemma EncodedLength(host: seq<byte>)
    ensures EncodeName(host).Some? ==> 0 < |EncodeName(host).value| <= MAX_NAME
  {
  }

  /** dns_create_query. */
  method CreateQueryIn(out: array<byte>, id: u16, host: seq<byte>) returns (len: nat)
    modifies out
    ensures var r := CreateQuery(id, host, out.Length);
            if r.None? then len == 0 else len == |r.value| && out[..len] == r.value
  {
    hide EncodeName, Header;
    var enc := EncodedName(host);
    if enc.None? || HEADER_SIZE + |enc.value| + 4 > out.Length {
      return 0;
    }
    WriteHeader(out, id, QUERY_FLAGS, 0);
    len := WriteQuestion(out, enc.value);
    assert out[..len] == Header(id, QUERY_FLAGS, 0) + enc.value + QUESTION_END;
  }

  class Server {
    const entries: array<Entry>
    var count: nat
    ghost var table: seq<Entry>

    ghost predicate Valid()
      reads this, entries
    {
      && entries.Length == MAX_ENTRIES && count == |table| <= MAX_ENTRIES
      && (forall i :: 0 <= i < count ==> entries[i] == table[i])
      && ShortNames(table)
    }

    constructor ()
      ensures Valid() && fresh(entries) && table == []
    {
      entries := new Entry[MAX_ENTRIES](_ => Entry([], ZERO_IP));
      count, table := 0, [];
    }

    /** The position of a name, or the number of entries. */
    method Find(host: seq<byte>) returns (k: nat)
      requires Valid()
      ensures k <= count && (k < count ==> table[k].host == host) && forall i :: 0 <= i < k ==> table[i].host != host
      ensures Lookup(table, host) == if k < count then Some(table[k].ip) else None
    {
      k := 0;
      while k < count && entries[k].host != host
        invariant k <= count && forall i :: 0 <= i < k ==> table[i].host != host
      {
        k := k + 1;
      }
      LookupAt(table, host, k);
    }

    /** dns_server_add_entry. */
    method Add(host: seq<byte>, ip: Ip) returns (ok: bool)
      requires Valid()
      modifies `count, `table, entries
      ensures Valid() && (ok, table) == AddEntry(old(table), host, ip)
    {
      hide Lookup;
      if count >= MAX_ENTRIES {
        return false;
      }
      var k := Find(host);
      PutAt(table, host, ip, k);
      var e := Entry(Stored(host), ip);
      if k < count {
        e := Entry(host, ip);
      } else {
        count := count + 1;
      }
      entries[k] := e;
      table := if k < |table| then table[k := e] else table + [e];
      ok := true;
    }

    /** dns_server_handle_query, for a query whose name ends inside it. The buffer must have the space given, and the
        one or two bytes more that an overrun (OverrunsExactly) writes. */
    method Handle(query: array<byte>, len: nat, response: array<byte>, space: nat) returns (n: nat)
      requires Valid() && len <= query.Length && space <= response.Length && query != response
      requires HandleQuery(table, query[..len], space) !in {Stuck, Astray}
      requires var r := HandleQuery(table, query[..len], space); r.Response? ==> |r.raw| <= response.Length
      modifies response
      ensures var r := HandleQuery(table, query[..len], space);
              if r.Response? then n == |r.raw| && response[..n] == r.raw else n == 0
    {
      hide DecodeName, EncodeName, Lookup, CString, Clean, Header;
      if len < HEADER_SIZE {
        return 0;
      }
      assert query[..len][HEADER_SIZE..] == query[HEADER_SIZE..len];
      var q := Decode(query, HEADER_SIZE, len);
      if q.Bad? || q.consumed == 0 {
        return 0;
      }
      n := Reply(Be16(query[0], query[1]), CString(q.name), response, space);
    }

    /** The response for a name: what is known about it, if there is space for it. */
    method Reply(id: u16, host: seq<byte>, response: array<byte>, space: nat) returns (n: nat)
      requires Valid() && space <= response.Length
      requires (EncodeName(host).Some? && HEADER_SIZE + |EncodeName(host).value| + 18 <= space) ==>
                 Needed(table, host) <= response.Length || Resolve(table, host).None?
      modifies response
      ensures var enc := EncodeName(host); var ip := Resolve(table, host);
              if enc.None? || HEADER_SIZE + |enc.value| + 4 + (if ip.Some? then 14 else 0) > space then n == 0
              else var raw := if ip.None? then Header(id, ANSWER_FLAGS + NXDOMAIN, 0) + (enc.value + QUESTION_END)
                              else Header(id, ANSWER_FLAGS, 1) + (enc.value + QUESTION_END) + Answer(ip.value);
                   n == |raw| && response[..n] == raw
    {
      hide EncodeName, Lookup, Clean, Header, Answer;
      var k := Find(Clean(host));
      var found := k < count;
      var enc := EncodedName(host);
      if enc.None? || HEADER_SIZE + |enc.value| + 4 > space {
        return 0;
      }
      WriteHeader(response, id, ANSWER_FLAGS + if found then 0 else NXDOMAIN, if found then 1 else 0);
      n := WriteQuestion(response, enc.value);
      if found {
        if n + 2 + 8 + 4 > space {
          return 0;
        }
        ghost var before := response[..n];
        var answer := Answer(entries[k].ip);
        CopyIn(response, n, answer);
        assert forall i :: 0 <= i < 16 ==> response[n..n + 16][i] == answer[i];
        assert response[..n] == before && response[n..n + 16] == answer;
        assert response[..n + 16] == response[..n] + response[n..n + 16];
        n := n + 16;
      }
    }
  }

  lemma {:induction false} LookupAt(table: seq<Entry>, host: seq<byte>, k: nat)
    requires k <= |table| && (k < |table| ==> table[k].host == host) && forall i :: 0 <= i < k ==> table[i].host != host
    ensures Lookup(table, host) == if k < |table| then Some(table[k].ip) else None
  {
    if k > 0 {
      LookupAt(table[1..], host, k - 1);
    }
  }

  lemma {:induction false} PutAt(table: seq<Entry>, host: seq<byte>, ip: Ip, k: nat)
    requires k <= |table| && (k < |table| ==> table[k].host == host) && forall i :: 0 <= i < k ==> table[i].host != host
    ensures Put(table, host, ip) ==
            if k < |table| then table[k := Entry(host, ip)]
            else table + [Entry(Stored(host), ip)]
  {
    if k > 0 {
      PutAt(table[1..], host, ip, k - 1);
    }
  }

  /** dns_parse_response, for bytes whose names end inside them. */
  method ParseResponseIn(raw: array<byte>, len: nat) returns (r: Parsed)
    requires len <= raw.Length && ParseResponse(raw[..len]) !in {Endless, Outside}
    ensures r == ParseResponse(raw[..len])
  {
    hide DecodeName, ReadIp;
    ghost var s := raw[..len];
    if len < HEADER_SIZE || Be16(raw[2], raw[3]) % 0x10 != 0 {
      return NoAddress;
    }
    var at := SkipQuestionsIn(raw, len, Be16(raw[4], raw[5]));
    match at {
      case At(pos) => r := FindAnswerIn(raw, len, pos, Be16(raw[6], raw[7]));
      case Broken => r := NoAddress;
    }
  }

  method SkipQuestionsIn(raw: array<byte>, len: nat, count: nat) returns (r: Skipped)
    requires HEADER_SIZE <= len <= raw.Length && SkipQuestions(raw[..len], HEADER_SIZE, count) !in {Looping, Beyond}
    ensures r == SkipQuestions(raw[..len], HEADER_SIZE, count)
  {
    hide DecodeName;
    var pos: nat, i: nat := HEADER_SIZE, 0;
    while i < count && pos < len
      invariant i <= count && SkipQuestions(raw[..len], HEADER_SIZE, count) == SkipQuestions(raw[..len], pos, count - i)
      decreases count - i
    {
      assert raw[..len][pos..] == raw[pos..len];
      var q := Decode(raw, pos, len);
      if q.Bad? || q.consumed == 0 {
        return Broken;
      }
      pos := pos + q.consumed + 4;
      i := i + 1;
    }
    r := At(pos);
  }

  method FindAnswerIn(raw: array<byte>, len: nat, start: nat, count: nat) returns (r: Parsed)
    requires len <= raw.Length && FindAnswer(raw[..len], start, count) !in {Endless, Outside}
    ensures r == FindAnswer(raw[..len], start, count)
  {
    hide DecodeName, FindAnswer;
    ghost var s := raw[..len];
    var pos: nat, i: nat := start, 0;
    while i < count && pos < len
      invariant i <= count && FindAnswer(s, start, count) == FindAnswer(s, pos, count - i)
      decreases count - i
    {
      NameSkipped(s, pos, count - i);
      if raw[pos] >= POINTER_MARK {
        pos := pos + 2;
      } else {
        assert s[pos..] == raw[pos..len];
        var name := Decode(raw, pos, len);
        if name.Bad? || name.consumed == 0 {
          return NoAddress;
        }
        pos := pos + name.consumed;
      }
      if pos + 10 > len {
        return NoAddress;
      }
      var kind, size := Be16(raw[pos], raw[pos + 1]), Be16(raw[pos + 8], raw[pos + 9]);
      if kind == TYPE_A && size == 4 && pos + 14 <= len {
        return Address(Ip(raw[pos + 10], raw[pos + 11], raw[pos + 12], raw[pos + 13]));
      }
      pos := pos + 10 + size;
      i := i + 1;
    }
    NoMoreAnswers(s, pos, count - i);
    r := NoAddress;
  }

  lemma NameSkipped(s: seq<byte>, pos: nat, n: nat)
    requires n > 0 && pos < |s|
    ensures FindAnswer(s, pos, n) ==
            if s[pos] >= POINTER_MARK then ReadRecord(s, pos + 2, n)
            else
              var name := DecodeName(s[pos..]);
              if name.Cyclic? then Endless
              else if name.Overread? then Outside
              else if name.Bad? || name.consumed == 0 then NoAddress
              else ReadRecord(s, pos + name.consumed, n)
  {
  }

  lemma NoMoreAnswers(s: seq<byte>, pos: nat, n: nat)
    requires n == 0 || pos >= |s|
    ensures FindAnswer(s, pos, n) == NoAddress
  {
  }
}
