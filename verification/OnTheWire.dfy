/**
 The replies of the server byte by byte, in the numbers of section 4.1 of RFC 1035 and section 6.1 of RFC 6891, said
 without drafts, entries or the writer. `ReplyBytes` proves that the server sends exactly these.
 */
module OnTheWire {
  import opened Basics
  import opened Names
  import opened Reading
  import opened NameReaders
  import opened Caches
  import opened Cnames
  import opened Writing
  import opened Replies
  import opened RoundTrips
  import opened Servers
  import opened ServerProps

  type nibble = x: int | 0 <= x < 16

  /** What a reply says: its code, the numbers of its answers and authority records, and the bytes of these records. */
  datatype Told = Told(code: nibble, an: u16, ns: byte, body: seq<byte>)

  /**
   The twelve bytes of the header: the id of the query; QR and AA with the opcode and RD of the query; its CD and the
   code; the four counts.
   */
  function Header(msg: seq<byte>, qd: byte, t: Told, ar: byte): seq<byte>
    requires |msg| >= 12
  {
    [msg[0], msg[1], 132 + msg[2] / 8 % 16 * 8 + msg[2] % 2, msg[3] / 16 % 2 * 16 + t.code,
     0, qd, t.an / 256, t.an % 256, 0, t.ns, 0, ar]
  }

  /** An A record for the name of the question: type 1, class 1, TTL 5, four bytes. */
  function ARecord(ip: Ip): seq<byte> {
    [192, 12, 0, 1, 0, 1, 0, 0, 0, 5, 0, 4, ip.a, ip.b, ip.c, ip.d]
  }

  function ARecords(ips: seq<Ip>): seq<byte> {
    if ips == [] then [] else ARecords(ips[..|ips| - 1]) + ARecord(ips[|ips| - 1])
  }

  /** A CNAME record for the name of the question: type 5, class 1, TTL 5. */
  function AliasRecord(target: seq<Label>): seq<byte>
    requires WireName(target)
  {
    [192, 12, 0, 5, 0, 1, 0, 0, 0, 5, 0, WireLen(target)] + Encode(target)
  }

  /**
   The SOA record of a zone: type 6, class 1, TTL 5; the names `ns` and `hostmaster` in front of the zone, the serial
   number 1, and four times 5 seconds.
   */
  function SoaRecord(zone: seq<Label>): seq<byte>
    requires WireName(zone)
  {
    var data := 2 * WireLen(zone) + 34;
    Encode(zone) + [0, 6, 0, 1, 0, 0, 0, 5, data / 256, data % 256]
    + ([2, 110, 115] + Encode(zone))
    + ([10, 104, 111, 115, 116, 109, 97, 115, 116, 101, 114] + Encode(zone))
    + [0, 0, 0, 1, 0, 0, 0, 5, 0, 0, 0, 5, 0, 0, 0, 5, 0, 0, 0, 5]
  }

  /** The OPT record: the root name, type 41, 1232 bytes as the size, and nothing else. */
  function OptRecordOf(edns: Option<u16>): seq<byte> {
    if edns.None? then [] else [0, 0, 41, 4, 208, 0, 0, 0, 0, 0, 0]
  }

  // ---------- What is said, when so many bytes are free for records ----------

  function AliasTold(target: Text, free: nat): Told {
    var ls := LabelsOf(target);
    if WireName(ls) && 12 + WireLen(ls) <= free then Told(0, 1, 0, AliasRecord(ls)) else Told(2, 0, 0, [])
  }

  function NoneTold(code: nibble, zone: Text, free: nat): Told {
    var ls := LabelsOf(zone);
    if WireName(ls) && WireLen(ls) <= 248 && 3 * WireLen(ls) + 44 <= free then Told(code, 0, 1, SoaRecord(ls))
    else Told(2, 0, 0, [])
  }

  function ServiceTold(conf: Conf, c: Clusters, name: Text, qtype: u16, free: nat): Told
    requires free < 0x1_0000
  {
    var place := PlaceOf(conf.domain, name);
    var ips := if qtype == 1 || qtype == 255 then Addresses(c, place) else [];
    var k := Min(|ips|, free / 16);
    if k > 0 then Told(0, k, 0, ARecords(ips[..k]))
    else NoneTold(if Exists(c, place) then 0 else 3, conf.domain, free)
  }

  function AnswerTold(conf: Conf, c: Clusters, name: Text, qtype: u16, free: nat): Told
    requires free < 0x1_0000
  {
    match Lookup(conf.pairs, name)
    case Some(target) => AliasTold(target, free)
    case None =>
      if InZone(name, conf.domain) then ServiceTold(conf, c, name, qtype, free)
      else
        match ZoneOf(conf.pairs, name)
        case Some(zone) => NoneTold(3, zone, free)
        case None => Told(5, 0, 0, [])
  }

  /** A name with other than printable bytes is refused, and any class but 1 and 255. */
  function QuestionTold(conf: Conf, c: Clusters, qname: seq<Label>, qtype: u16, qclass: u16, free: nat): Told
    requires free < 0x1_0000
  {
    if AllPrintable(qname) && (qclass == 1 || qclass == 255) then AnswerTold(conf, c, Lower(Join(qname)), qtype, free)
    else Told(5, 0, 0, [])
  }

  /** The largest reply that an asker takes. */
  function Taken(edns: Option<u16>): (n: nat)
    ensures n <= 1232
  {
    if edns.None? || edns.value < 512 then 512 else if edns.value <= 1232 then edns.value else 1232
  }

  /** The reply to a query: header, question, records, and the OPT record when the query has one. */
  function ReplyTo(conf: Conf, c: Clusters, msg: seq<byte>, qname: seq<Label>, edns: Option<u16>, room: nat)
    : Option<seq<byte>>
    requires QuestionAt(msg, qname)
  {
    var e := 12 + WireLen(qname);
    var opt := OptRecordOf(edns);
    var free := Min(Taken(edns), room) - (e + 4) - |opt|;
    if free < 0 then None
    else
      var t := QuestionTold(conf, c, qname, Num16(msg, e), Num16(msg, e + 2), free);
      Some(Header(msg, 1, t, if edns.Some? then 1 else 0) + msg[12..e + 4] + t.body + opt)
  }

  /** A reply without a question: the header alone. */
  function BareTo(msg: seq<byte>, code: nibble, room: nat): Option<seq<byte>>
    requires |msg| >= 12
  {
    if room < 12 then None else Some(Header(msg, 0, Told(code, 0, 0, []), 0))
  }

  // ---------- The server sends exactly these ----------

  lemma FlagsInBytes(b: byte, b': byte, rcode: Rcode)
    ensures U16(ReplyFlags(b as int * 256 + b', rcode))
            == [132 + b / 8 % 16 * 8 + b % 2, b' / 16 % 2 * 16 + rcode.Code()]
  {
    var flags: u16 := b as int * 256 + b';
    assert flags / 0x800 == b / 8;
    assert flags / 0x100 == b;
    assert flags / 0x10 == b as int * 16 + b' / 16;
    assert flags / 0x10 % 2 == b' / 16 % 2;
    var (high, low) := (132 + b / 8 % 16 * 8 + b % 2, b' / 16 % 2 * 16 + rcode.Code());
    assert ReplyFlags(flags, rcode) == high * 256 + low && 0 <= low < 256;
  }

  lemma HeaderIsHead(msg: seq<byte>, rcode: Rcode, qd: byte, an: u16, ns: byte, body: seq<byte>, ar: byte)
    requires |msg| >= 12
    ensures Head(Num16(msg, 0), ReplyFlags(Num16(msg, 2), rcode), qd, an, ns, ar)
            == Header(msg, qd, Told(rcode.Code(), an, ns, body), ar)
  {
    hide U16, ReplyFlags, Rcode.Code;
    FlagsInBytes(msg[2], msg[3], rcode);
    TwoBytes(msg[0], msg[1]);
    TwoBytes(0, qd);
    TwoBytes(an / 256, an % 256);
    TwoBytes(0, ns);
    TwoBytes(0, ar);
    TwelveBytes([msg[0], msg[1]],
                [132 + msg[2] / 8 % 16 * 8 + msg[2] % 2, msg[3] / 16 % 2 * 16 + rcode.Code()],
                [0, qd], [an / 256, an % 256], [0, ns], [0, ar]);
  }

  lemma TwelveBytes(a: seq<byte>, b: seq<byte>, c: seq<byte>, d: seq<byte>, e: seq<byte>, f: seq<byte>)
    requires |a| == |b| == |c| == |d| == |e| == |f| == 2
    ensures a + b + c + d + e + f == [a[0], a[1], b[0], b[1], c[0], c[1], d[0], d[1], e[0], e[1], f[0], f[1]]
  {
  }

  lemma TwoBytes(high: byte, low: byte)
    ensures U16(high as int * 256 + low) == [high, low]
  {
  }

  /** A finished draft in bytes. */
  lemma FinalBytes(msg: seq<byte>, d: Draft, rcode: Rcode, edns: Option<u16>)
    requires |msg| >= 12 && GoodEntries(d.entries) && d.an < 0x1_0000 && d.ns < 256 && d.qd < 256
    requires d.id == Num16(msg, 0) && d.flags == ReplyFlags(Num16(msg, 2), rcode) && d.edns == edns.Some?
    ensures Final(d) == Header(msg, d.qd, Told(rcode.Code(), d.an, d.ns, Body(d.entries)), if d.edns then 1 else 0)
                        + d.question + Body(d.entries) + OptRecordOf(edns)
  {
    hide Head, Header, ReplyFlags, Body, GoodEntries, Num16;
    var ar := if d.edns then 1 else 0;
    HeaderIsHead(msg, rcode, d.qd, d.an, d.ns, Body(d.entries), ar);
    Regroup(Head(d.id, d.flags, d.qd, d.an, d.ns, ar), d.question, Body(d.entries));
    Regroup(Render(d, ar), [], []);
  }

  lemma {:induction false} AddressBody(ips: seq<Ip>)
    ensures GoodEntries(AddressEntries(ips)) && Body(AddressEntries(ips)) == ARecords(ips)
    decreases |ips|
  {
    hide EntryBytes, ARecord;
    if ips != [] {
      var front, ip := ips[..|ips| - 1], ips[|ips| - 1];
      AddressBody(front);
      EntriesGrow(front, ip);
      hide GoodEntries, Body;
      BodyGrows(AddressEntries(front), AddressEntry(ip, TTL));
      AddressRecordBytes(ip);
    }
  }

  lemma EntriesGrow(front: seq<Ip>, ip: Ip)
    ensures AddressEntries(front + [ip]) == AddressEntries(front) + [AddressEntry(ip, TTL)]
  {
    assert (front + [ip])[..|front|] == front;
  }

  lemma AddressRecordBytes(ip: Ip)
    ensures EntryBytes(AddressEntry(ip, TTL)) == ARecord(ip)
  {
    hide RecordHead;
    RecordHeadBytes(1, 4);
  }

  lemma RecordHeadBytes(rtype: byte, rdlen: u16)
    ensures RecordHead(rtype, TTL, rdlen) == [0, rtype, 0, 1, 0, 0, 0, 5, rdlen / 256, rdlen % 256]
  {
  }

  lemma OneEntry(e: Entry)
    requires GoodEntry(e)
    ensures GoodEntries([e]) && Body([e]) == EntryBytes(e)
  {
    hide EntryBytes;
    BodyGrows([], e);
    assert [] + [e] == [e] && [] + EntryBytes(e) == EntryBytes(e);
  }

  lemma AliasBody(target: seq<Label>)
    requires WireName(target)
    ensures GoodEntries([CnameEntry(target, TTL)]) && Body([CnameEntry(target, TTL)]) == AliasRecord(target)
  {
    hide Encode, WireLen, RecordHead, GoodEntries, Body;
    OneEntry(CnameEntry(target, TTL));
    RecordHeadBytes(5, WireLen(target));
    assert [192, 12] + [0, 5, 0, 1, 0, 0, 0, 5, 0, WireLen(target)]
           == [192, 12, 0, 5, 0, 1, 0, 0, 0, 5, 0, WireLen(target)];
  }

  lemma SoaBody(zone: seq<Label>)
    requires WireName(zone)
    ensures GoodEntries([SoaEntry(zone, TTL)]) && Body([SoaEntry(zone, TTL)]) == SoaRecord(zone)
  {
    hide Encode, WireLen, RecordHead, GoodEntries, Body, SoaData;
    OneEntry(SoaEntry(zone, TTL));
    RecordHeadBytes(6, 2 * WireLen(zone) + 34);
    SoaDataBytes(zone);
    var owner := Encode(zone) + RecordHead(6, TTL, 2 * WireLen(zone) + 34);
    var ns := [2, 110, 115] + Encode(zone);
    var hostmaster := [10, 104, 111, 115, 116, 109, 97, 115, 116, 101, 114] + Encode(zone);
    Regroup(owner, ns + hostmaster, TIMES);
    Regroup(owner, ns, hostmaster);
  }

  const TIMES: seq<byte> := [0, 0, 0, 1, 0, 0, 0, 5, 0, 0, 0, 5, 0, 0, 0, 5, 0, 0, 0, 5]

  lemma SoaDataBytes(zone: seq<Label>)
    requires WireName(zone)
    ensures SoaData(zone, TTL)
            == [2, 110, 115] + Encode(zone)
               + ([10, 104, 111, 115, 116, 109, 97, 115, 116, 101, 114] + Encode(zone)) + TIMES
  {
    hide Encode, WireLen, SoaData, Times;
    PrefixedName(NS, zone);
    PrefixedName(HOSTMASTER, zone);
    PrefixBytes();
    SoaDataForm(zone, TTL);
    TimesBytes();
  }

  lemma PrefixBytes()
    ensures [|NS|] + NS == [2, 110, 115]
    ensures [|HOSTMASTER|] + HOSTMASTER == [10, 104, 111, 115, 116, 109, 97, 115, 116, 101, 114]
  {
  }

  lemma TimesBytes()
    ensures Times(TTL) == TIMES
  {
  }

  // ---------- A parsed query ----------

  /** The draft holds what is told, with its bytes. */
  ghost predicate Holds(d: Draft, s: Draft, t: Told) {
    && GoodEntries(d.entries) && d.an == t.an && d.ns == t.ns && Body(d.entries) == t.body
    && (exists rcode: Rcode :: rcode.Code() == t.code && d.flags == s.flags + rcode.Code())
    && d == s.(flags := d.flags, entries := d.entries, an := d.an, ns := d.ns)
  }

  lemma BareHolds(s: Draft, rcode: Rcode)
    requires s.entries == [] && s.flags % 16 == 0 && s.an == 0 && s.ns == 0
    ensures Holds(WithRcode(s, rcode), s, Told(rcode.Code(), 0, 0, []))
  {
  }

  lemma AliasHolds(s: Draft, target: seq<Label>)
    requires s.entries == [] && s.an == 0 && s.ns == 0 && WireName(target)
    ensures Holds(WithAnswer(s, CnameEntry(target, TTL)), s, Told(0, 1, 0, AliasRecord(target)))
  {
    hide Body, GoodEntries, AliasRecord;
    AliasBody(target);
    assert [] + [CnameEntry(target, TTL)] == [CnameEntry(target, TTL)];
    assert s.flags == s.flags + NoError.Code();
  }

  lemma SoaHolds(s: Draft, rcode: Rcode, zone: seq<Label>)
    requires s.entries == [] && s.flags % 16 == 0 && s.an == 0 && s.ns == 0 && WireName(zone)
    ensures Holds(WithAuthority(WithRcode(s, rcode), SoaEntry(zone, TTL)), s, Told(rcode.Code(), 0, 1, SoaRecord(zone)))
  {
    hide Body, GoodEntries, SoaRecord;
    SoaBody(zone);
    assert [] + [SoaEntry(zone, TTL)] == [SoaEntry(zone, TTL)];
  }

  lemma AddressesHold(s: Draft, ips: seq<Ip>)
    requires s.entries == [] && s.an == 0 && s.ns == 0 && |ips| < 0x1_0000
    ensures Holds(Wrote(s, ips), s, Told(0, |ips|, 0, ARecords(ips)))
  {
    hide Body, GoodEntries, ARecords, AddressEntries;
    AddressBody(ips);
    Regroup(AddressEntries(ips), [], []);
    assert s.flags == s.flags + NoError.Code();
  }

  /** What is free for records in a reply to `q`. */
  function FreeFor(q: Query, limit: nat): int {
    limit - 12 - |q.question| - (if q.edns.Some? then 11 else 0)
  }

  lemma ServiceHolds(conf: Conf, c: Clusters, q: Query, limit: nat, name: Text)
    requires AsksService(conf, q, name) && |q.question| >= 5 && 0 <= FreeFor(q, limit) < 0x1_0000
    ensures var s := StartDraft(q, limit);
            Holds(Answered(conf, c, q, s), s, ServiceTold(conf, c, name, q.qtype, FreeFor(q, limit)))
  {
    hide Answered, StartDraft, Holds, AsksService, PlaceOf, Exists, Addresses, ARecords, SoaRecord, LabelsOf, WireLen;
    var s, place := StartDraft(q, limit), PlaceOf(conf.domain, name);
    StartShape(q, limit);
    ServiceDecision(conf, c, q, limit, name);
    var ips := if q.qtype == 1 || q.qtype == 255 then Addresses(c, place) else [];
    var k := Min(|ips|, FreeFor(q, limit) / 16);
    if k > 0 {
      AddressesHold(s, ips[..k]);
    } else if SoaFits(conf.domain, |q.question| - 4, q.edns.Some?, limit) {
      SoaHolds(s, if Exists(c, place) then NoError else NxDomain, LabelsOf(conf.domain));
    } else {
      BareHolds(s, ServFail);
    }
  }

  lemma AnswerHolds(conf: Conf, c: Clusters, q: Query, limit: nat, name: Text)
    requires TextOf(q.qname) == Some(name) && (q.qclass == 1 || q.qclass == 255)
    requires |q.question| >= 5 && 0 <= FreeFor(q, limit) < 0x1_0000
    ensures var s := StartDraft(q, limit);
            Holds(Answered(conf, c, q, s), s, AnswerTold(conf, c, name, q.qtype, FreeFor(q, limit)))
  {
    hide Answered, StartDraft, Holds, ServiceTold, TextOf, Lookup, ZoneOf, InZone, SoaRecord, AliasRecord, LabelsOf,
         WireLen;
    var s := StartDraft(q, limit);
    StartShape(q, limit);
    BareHolds(s, ServFail);
    BareHolds(s, Refused);
    if Lookup(conf.pairs, name).Some? {
      AliasDecision(conf, c, q, limit, name);
      var target := LabelsOf(Lookup(conf.pairs, name).value);
      if WireName(target) {
        AliasHolds(s, target);
      }
    } else if InZone(name, conf.domain) {
      ServiceHolds(conf, c, q, limit, name);
    } else {
      ZoneDecision(conf, c, q, limit, name);
      if ZoneOf(conf.pairs, name).Some? && WireName(LabelsOf(ZoneOf(conf.pairs, name).value)) {
        SoaHolds(s, NxDomain, LabelsOf(ZoneOf(conf.pairs, name).value));
      }
    }
  }

  lemma QuestionHolds(conf: Conf, c: Clusters, q: Query, limit: nat, qname: seq<Label>)
    requires WireName(qname) && q.qname == Encode(qname)
    requires |q.question| >= 5 && 0 <= FreeFor(q, limit) < 0x1_0000
    ensures var s := StartDraft(q, limit);
            Holds(Answered(conf, c, q, s), s, QuestionTold(conf, c, qname, q.qtype, q.qclass, FreeFor(q, limit)))
  {
    hide AnswerTold, StartDraft, Holds, TextFrom, Lower, Join, AllPrintable, Encode, WireLen, GoodLabels;
    var s := StartDraft(q, limit);
    NameTextMeaning(qname);
    StartShape(q, limit);
    if AllPrintable(qname) && (q.qclass == 1 || q.qclass == 255) {
      hide Answered;
      AnswerHolds(conf, c, q, limit, Lower(Join(qname)));
    } else {
      assert Answered(conf, c, q, s) == WithRcode(s, Refused);
      BareHolds(s, Refused);
    }
  }

  lemma HeldBytes(msg: seq<byte>, q: Query, limit: nat, d: Draft, t: Told)
    requires |msg| >= 12 && q.id == Num16(msg, 0) && q.flags == Num16(msg, 2) && Holds(d, StartDraft(q, limit), t)
    ensures GoodEntries(d.entries)
    ensures Final(d) == Header(msg, 1, t, if q.edns.Some? then 1 else 0) + q.question + t.body + OptRecordOf(q.edns)
  {
    hide Head, Header, Body, GoodEntries, Num16;
    var rcode: Rcode :| rcode.Code() == t.code && d.flags == StartDraft(q, limit).flags + rcode.Code();
    hide Final;
    FinalBytes(msg, d, rcode, q.edns);
  }

  /** The reply to a parsed query. */
  lemma GoodBytes(conf: Conf, c: Clusters, msg: seq<byte>, room: nat, qname: seq<Label>)
    requires Parse(msg).Good? && QuestionAt(msg, qname) && FieldsOf(msg, Parse(msg).q, qname) && |msg| >= 12
    ensures Respond(conf, c, msg, room) == ReplyTo(conf, c, msg, qname, Parse(msg).q.edns, room)
  {
    hide Answered, Holds, QuestionTold, Parse, Header, Num16, GoodEntries, Final, BodyLen, Encode, WireLen, GoodLabels;
    var q := Parse(msg).q;
    var limit := Min(Limit(q), room);
    assert Limit(q) == Taken(q.edns);
    QuestionLength(msg);
    assert q.qname == Encode(qname);
    StartSize(q, limit);
    hide StartDraft;
    if FreeFor(q, limit) >= 0 {
      var d := Answered(conf, c, q, StartDraft(q, limit));
      var t := QuestionTold(conf, c, qname, q.qtype, q.qclass, FreeFor(q, limit));
      QuestionHolds(conf, c, q, limit, qname);
      HeldBytes(msg, q, limit, d, t);
    }
  }

  lemma StartSize(q: Query, limit: nat)
    ensures var s := StartDraft(q, limit); Size(s) + Reserve(s) <= s.limit <==> FreeFor(q, limit) >= 0
  {
  }

  /** A reply that is a header alone. */
  lemma BareBytes(conf: Conf, c: Clusters, msg: seq<byte>, room: nat, rcode: Rcode)
    requires |msg| >= 12 && Parse(msg) == Bad(Num16(msg, 0), Num16(msg, 2), rcode)
    ensures Respond(conf, c, msg, room) == BareTo(msg, rcode.Code(), room)
  {
    hide Parse, Header, Head, Num16;
    if room >= 12 {
      var d := BareDraft(Num16(msg, 0), Num16(msg, 2), rcode, Min(512, room));
      FinalBytes(msg, d, rcode, None);
      Regroup(Header(msg, 0, Told(rcode.Code(), 0, 0, []), 0), [], []);
    }
  }

  /**
   What goes back for every datagram, from every table, cache and buffer, byte for byte. Nothing for less than a header
   and for a reply; a bare header with code 4 for another opcode than 0, with code 1 when no question can be read; and
   for a query the reply to its question.
   */
  lemma ReplyBytes(conf: Conf, c: Clusters, msg: seq<byte>, room: nat)
    ensures if |msg| < 12 || msg[2] >= 128 then Respond(conf, c, msg, room) == None
            else if msg[2] / 8 % 16 != 0 then Respond(conf, c, msg, room) == BareTo(msg, 4, room)
            else if Num16(msg, 4) == 1 && exists ls :: QuestionAt(msg, ls) then
              && Parse(msg).Good?
              && forall ls :: QuestionAt(msg, ls)
                              ==> Respond(conf, c, msg, room) == ReplyTo(conf, c, msg, ls, Parse(msg).q.edns, room)
            else Respond(conf, c, msg, room) == BareTo(msg, 1, room)
  {
    hide Parse, QuestionAt, FieldsOf, ReplyTo, Respond, Num16, BareTo;
    ParseMeaning(msg);
    if |msg| < 12 || msg[2] >= 128 {
      SilentBytes(conf, c, msg, room);
    } else if msg[2] / 8 % 16 != 0 {
      BareBytes(conf, c, msg, room, NotImp);
    } else if Num16(msg, 4) == 1 && exists ls :: QuestionAt(msg, ls) {
      forall ls | QuestionAt(msg, ls)
        ensures Respond(conf, c, msg, room) == ReplyTo(conf, c, msg, ls, Parse(msg).q.edns, room)
      {
        GoodBytes(conf, c, msg, room, ls);
      }
    } else {
      BareBytes(conf, c, msg, room, FormErr);
    }
  }

  lemma SilentBytes(conf: Conf, c: Clusters, msg: seq<byte>, room: nat)
    requires Parse(msg) == Drop
    ensures Respond(conf, c, msg, room) == None
  {
  }

  // ---------- What follows for every reply ----------

  /**
   With an output buffer of at least 512 bytes a datagram is answered exactly when it has a header and is not
   itself a reply. The reply is a reply, so no server answers it; it carries the id, opcode, RD and CD of the
   query, is authoritative and never truncated, and repeats the question as it came, or has none when the question
   could not be read; it is at most 512 bytes long, or what the asker offered with EDNS from 512 up to 1232
   (section 6.2.3 of RFC 6891); and it ends with an OPT record exactly when the query had one (section 6.1.1).
   */
  lemma HandleContract(conf: Conf, c: Clusters, msg: seq<byte>, room: nat)
    requires room >= 512
    ensures Respond(conf, c, msg, room).Some? <==> |msg| >= 12 && msg[2] < 128
    ensures Respond(conf, c, msg, room).Some?
            ==> var out := Respond(conf, c, msg, room).value;
                && 12 <= |out| <= room
                && |out| <= (if Parse(msg).Good? && Parse(msg).q.edns.Some? && Parse(msg).q.edns.value > 512 then
                               if Parse(msg).q.edns.value < 1232 then Parse(msg).q.edns.value else 1232
                             else 512)
                && (forall conf', c', room' :: Respond(conf', c', out, room') == None)
                && out[0] == msg[0] && out[1] == msg[1]
                && out[2] == 132 + msg[2] / 8 % 16 * 8 + msg[2] % 2 && out[3] / 16 == msg[3] / 16 % 2
                && out[4] == 0 && out[5] == (if Parse(msg).Good? then 1 else 0)
                && (if Parse(msg).Good? then
                      var end := 12 + |Parse(msg).q.question|;
                      end <= |out| && end <= |msg| && out[12..end] == msg[12..end]
                    else |out| == 12)
                && var edns := Parse(msg).Good? && Parse(msg).q.edns.Some?;
                && out[10] == 0 && out[11] == (if edns then 1 else 0)
                && (edns ==> |out| >= 23 && out[|out| - 11..] == [0, 0, 41, 4, 208, 0, 0, 0, 0, 0, 0])
  {
    hide Respond, Parse, QuestionAt, ReplyTo, Num16, FieldsOf;
    ReplyBytes(conf, c, msg, room);
    ParseMeaning(msg);
    if Parse(msg).Good? {
      var ls :| QuestionAt(msg, ls);
      ReplyShape(conf, c, msg, ls, Parse(msg).q.edns, room);
      QuestionBytes(msg, ls, Parse(msg).q);
    }
    if Respond(conf, c, msg, room).Some? {
      forall conf', c', room' ensures Respond(conf', c', Respond(conf, c, msg, room).value, room') == None {
        ReplyBytes(conf', c', Respond(conf, c, msg, room).value, room');
      }
    }
  }

  lemma QuestionBytes(msg: seq<byte>, qname: seq<Label>, q: Query)
    requires QuestionAt(msg, qname) && FieldsOf(msg, q, qname)
    ensures q.question == msg[12..12 + WireLen(qname) + 4]
  {
    hide Encode, WireLen;
  }

  lemma ToldLength(conf: Conf, c: Clusters, qname: seq<Label>, qtype: u16, qclass: u16, free: nat)
    requires free < 0x1_0000
    ensures |QuestionTold(conf, c, qname, qtype, qclass, free).body| <= free
  {
    hide PlaceOf, Exists, Addresses, InZone, Lookup, ZoneOf, LabelsOf, Lower, Join, AllPrintable, Encode, WireLen,
         GoodLabels;
    forall ips: seq<Ip> ensures |ARecords(ips)| == 16 * |ips| {
      AddressBytes(ips);
    }
  }

  lemma {:induction false} AddressBytes(ips: seq<Ip>)
    ensures |ARecords(ips)| == 16 * |ips|
    decreases |ips|
  {
    if ips != [] {
      AddressBytes(ips[..|ips| - 1]);
    }
  }

  lemma ReplyShape(conf: Conf, c: Clusters, msg: seq<byte>, qname: seq<Label>, edns: Option<u16>, room: nat)
    requires QuestionAt(msg, qname) && room >= 512
    ensures ReplyTo(conf, c, msg, qname, edns, room).Some?
    ensures var out := ReplyTo(conf, c, msg, qname, edns, room).value;
            var end := 12 + WireLen(qname) + 4;
            && end <= |out| <= Min(Taken(edns), room) && end <= |msg| && out[12..end] == msg[12..end]
            && HeaderShape(msg, out, 1, if edns.Some? then 1 else 0) && out[3] % 16 in {0, 2, 3, 5}
            && (edns.Some? ==> |out| >= 23 && out[|out| - 11..] == [0, 0, 41, 4, 208, 0, 0, 0, 0, 0, 0])
  {
    hide QuestionTold, Num16, Encode, WireLen, GoodLabels, Header, HeaderShape;
    var (e, ar) := (12 + WireLen(qname), if edns.Some? then 1 else 0);
    OptLength(edns);
    hide OptRecordOf;
    var free := Min(Taken(edns), room) - (e + 4) - |OptRecordOf(edns)|;
    var t := QuestionTold(conf, c, qname, Num16(msg, e), Num16(msg, e + 2), free);
    ToldLength(conf, c, qname, Num16(msg, e), Num16(msg, e + 2), free);
    ToldCodes(conf, c, qname, Num16(msg, e), Num16(msg, e + 2), free);
    HeaderRead(msg, 1, t, ar, msg[12..e + 4] + t.body + OptRecordOf(edns));
    var (head, question) := (Header(msg, 1, t, ar), msg[12..e + 4]);
    Regroup(head, question + t.body, OptRecordOf(edns));
    Regroup(head, question, t.body);
    Middle(head, question, t.body, OptRecordOf(edns));
  }

  /** The header of a reply, but for its code and the numbers of its answers and authority records. */
  predicate HeaderShape(msg: seq<byte>, out: seq<byte>, qd: byte, ar: byte) {
    && |msg| >= 12 && |out| >= 12 && out[0] == msg[0] && out[1] == msg[1]
    && out[2] == 132 + msg[2] / 8 % 16 * 8 + msg[2] % 2 && out[3] / 16 == msg[3] / 16 % 2
    && out[4] == 0 && out[5] == qd && out[10] == 0 && out[11] == ar
  }

  lemma HeaderRead(msg: seq<byte>, qd: byte, t: Told, ar: byte, rest: seq<byte>)
    requires |msg| >= 12
    ensures |Header(msg, qd, t, ar)| == 12
    ensures var out := Header(msg, qd, t, ar) + rest; HeaderShape(msg, out, qd, ar) && out[3] % 16 == t.code
  {
  }

  lemma OptLength(edns: Option<u16>)
    ensures edns.Some? ==> OptRecordOf(edns) == [0, 0, 41, 4, 208, 0, 0, 0, 0, 0, 0]
    ensures |OptRecordOf(edns)| == if edns.Some? then 11 else 0
  {
  }

  lemma Middle(a: seq<byte>, b: seq<byte>, c: seq<byte>, d: seq<byte>)
    ensures var m := a + b + c + d;
            m[..|a|] == a && m[|a|..|a| + |b|] == b && m[|m| - |d|..] == d
  {
  }

  lemma ToldCodes(conf: Conf, c: Clusters, qname: seq<Label>, qtype: u16, qclass: u16, free: nat)
    requires free < 0x1_0000
    ensures QuestionTold(conf, c, qname, qtype, qclass, free).code in {0, 2, 3, 5}
  {
    hide PlaceOf, Exists, Addresses, InZone, Lookup, ZoneOf, LabelsOf, Lower, Join, AllPrintable, Encode, WireLen,
         GoodLabels, ARecords;
  }

  /**
   The code of every reply, in the last four bits of its fourth byte. It is 4 exactly for another opcode than 0, 1
   exactly when no question can be read, 5 exactly when the question is not for here; else 0, 2 or 3, as
   `NxDomains.CodeEverywhere` has it.
   */
  lemma CodeOnTheWire(conf: Conf, c: Clusters, msg: seq<byte>, room: nat)
    requires GoodPairs(conf.pairs) && room >= 512 && |msg| >= 12 && msg[2] < 128
    ensures Respond(conf, c, msg, room).Some? && |Respond(conf, c, msg, room).value| >= 12
    ensures var code := Respond(conf, c, msg, room).value[3] % 16;
            var asks := Num16(msg, 4) == 1 && exists ls :: QuestionAt(msg, ls);
            && ReplyCode(conf, c, msg, room) == Some(code) && code in {0, 1, 2, 3, 4, 5}
            && (code == 4 <==> msg[2] / 8 % 16 != 0)
            && (code == 1 <==> msg[2] / 8 % 16 == 0 && !asks)
            && (msg[2] / 8 % 16 == 0 && asks ==> Parse(msg).Good?)
            && (code == 5 <==> && Parse(msg).Good?
                               && var q := Parse(msg).q;
                                  || TextOf(q.qname) == None || (q.qclass != 1 && q.qclass != 255)
                                  || NotOurs(conf, TextOf(q.qname).value))
  {
    hide Respond, Parse, QuestionAt, ReplyTo, Num16, FieldsOf, TextOf, NotOurs;
    HandleContract(conf, c, msg, room);
    ReplyBytes(conf, c, msg, room);
    ParseMeaning(msg);
    if Parse(msg).Good? {
      var ls :| QuestionAt(msg, ls);
      ReplyShape(conf, c, msg, ls, Parse(msg).q.edns, room);
      RefusedOnTheWire(conf, c, msg, room);
    }
  }

  lemma RefusedOnTheWire(conf: Conf, c: Clusters, msg: seq<byte>, room: nat)
    requires GoodPairs(conf.pairs) && room >= 512 && Parse(msg).Good?
    ensures var q := Parse(msg).q;
            ReplyCode(conf, c, msg, room) == Some(5)
            <==> TextOf(q.qname) == None || (q.qclass != 1 && q.qclass != 255) || NotOurs(conf, TextOf(q.qname).value)
  {
    hide Answered, StartDraft, Parse, TextOf, NotOurs, GoodEntries, ReplyCode;
    QuestionLength(msg);
    StartFits(Parse(msg).q, Min(Limit(Parse(msg).q), room));
    RefusedExactly(conf, c, Parse(msg).q, Min(Limit(Parse(msg).q), room));
    ReplyCodeMeaning(conf, c, msg, room);
  }

  // ---------- The queries of the client ----------

  /**
   The query that `encode_query` writes, byte for byte: RD alone is set, one question of class 1, and an OPT record for
   a UDP size. It is written exactly when the name is one and the whole has room.
   */
  lemma QueryOnTheWire(id: u16, name: Text, qtype: u16, edns: Option<u16>, room: nat)
    ensures var (r, ls) := (QueryFor(id, name, qtype, edns, room), LabelsOf(name));
            && (r.Ok? <==> WireName(ls) && 12 + WireLen(ls) + 4 + (if edns.Some? then 11 else 0) <= room)
            && (r == Err(BadName) <==> room >= 12 && NameBytes(name, room - 12) == Err(BadName))
            && (r.Err? ==> r.error == BadName || r.error == NoRoom)
            && (r.Ok?
                ==> r.value
                    == [id / 256, id % 256, 1, 0, 0, 1, 0, 0, 0, 0, 0, if edns.Some? then 1 else 0] + Encode(ls)
                       + [qtype / 256, qtype % 256, 0, 1]
                       + match edns
                         case None => []
                         case Some(size) => [0, 0, 41, size / 256, size % 256, 0, 0, 0, 0, 0, 0])
  {
    hide Encode, WireLen, LabelsOf, NameBytes, Head, U16, OptBytes, GoodLabels;
    NameBytesMeaning(name, room - 12);
    RefusalMeaning(name, room - 12);
    hide FirstBad;
    if QueryFor(id, name, qtype, edns, room).Ok? {
      var head := Head(id, RD, 1, 0, 0, if edns.Some? then 1 else 0);
      QueryHead(id, if edns.Some? then 1 else 0);
      var (wire, kind) := (Encode(LabelsOf(name)), [qtype / 256, qtype % 256, 0, 1]);
      TwoBytes(qtype / 256, qtype % 256);
      TwoBytes(0, 1);
      Regroup(wire, [qtype / 256, qtype % 256], [0, 1]);
      assert [qtype / 256, qtype % 256] + [0, 1] == kind;
      Regroup(head, wire, kind);
      Regroup(head + wire + kind, [], []);
      if edns.Some? {
        QueryOpt(edns.value);
      }
    }
  }

  lemma QueryHead(id: u16, ar: byte)
    ensures Head(id, RD, 1, 0, 0, ar) == [id / 256, id % 256, 1, 0, 0, 1, 0, 0, 0, 0, 0, ar]
  {
    TwoBytes(id / 256, id % 256);
    TwoBytes(1, 0);
    TwoBytes(0, 1);
    TwoBytes(0, 0);
    TwoBytes(0, ar);
    hide U16;
    TwelveBytes([id / 256, id % 256], [1, 0], [0, 1], [0, 0], [0, 0], [0, ar]);
  }

  lemma QueryOpt(size: u16)
    ensures OptBytes(size) == [0, 0, 41, size / 256, size % 256, 0, 0, 0, 0, 0, 0]
  {
  }
}
