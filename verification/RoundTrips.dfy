/**
 Round trips over the wire format: a query that `encode_query` builds is parsed back as it was meant, and a
 reply that `Reply` builds is decoded back as the records that were put in.
 */
module RoundTrips {
  import opened Basics
  import opened Names
  import opened Reading
  import opened NameReaders
  import opened Writing
  import opened Replies

  // ---------- Queries ----------

  /** The RD flag, the only one a built query sets. */
  const RD: u16 := 0x100

  function OptBytes(size: u16): (r: seq<byte>)
    ensures |r| == OPT_LEN
  {
    [0] + U16(TYPE_OPT) + U16(size) + U32(0) + U16(0)
  }

  function QueryBytes(id: u16, ls: seq<Label>, qtype: u16, edns: Option<u16>): seq<byte>
    requires GoodLabels(ls)
  {
    var question := Encode(ls) + U16(qtype) + U16(CLASS_IN);
    match edns
    case None => Head(id, RD, 1, 0, 0, 0) + question
    case Some(size) => Head(id, RD, 1, 0, 0, 1) + question + OptBytes(size)
  }

  /** What `encode_query` writes when `room` bytes are free, or the first thing that goes wrong. */
  function QueryFor(id: u16, name: Text, qtype: u16, edns: Option<u16>, room: nat): Result<seq<byte>> {
    if room < HEADER_LEN then Err(NoRoom)
    else
      NameBytesMeaning(name, room - HEADER_LEN);
      match NameBytes(name, room - HEADER_LEN)
      case Err(e) => Err(e)
      case Ok(w) =>
        if HEADER_LEN + |w| + 4 + (if edns.Some? then OPT_LEN else 0) > room then Err(NoRoom)
        else Ok(QueryBytes(id, LabelsOf(name), qtype, edns))
  }

  method EncodeQuery(id: u16, name: Text, qtype: u16, edns: Option<u16>, out: array<byte>) returns (r: Result<nat>)
    modifies out
    ensures match QueryFor(id, name, qtype, edns, out.Length)
            case Err(e) => r == Err(e)
            case Ok(bytes) => r == Ok(|bytes|) && |bytes| <= out.Length && out[..|bytes|] == bytes
  {
    hide Splice, LabelsOf, NameBytes, Encode, WireLen, Head, OptBytes, U16;
    if out.Length < HEADER_LEN {
      return Err(NoRoom);
    }
    PutBehind(out, 0, Head(id, RD, 1, 0, 0, 0));
    ghost var ls, head := LabelsOf(name), out[..HEADER_LEN];
    ghost var before := out[..];
    assert before[..HEADER_LEN] == head;
    NameBytesMeaning(name, out.Length - HEADER_LEN);
    var put := PutName(out, HEADER_LEN, name);
    if put.Err? {
      return put;
    }
    var at := put.value;
    SpliceTake(before, HEADER_LEN, Encode(ls), at);
    assert out[..at] == out[..][..at] == head + Encode(ls);
    if at + 4 > out.Length {
      return Err(NoRoom);
    }
    PutBehind(out, at, U16(qtype) + U16(CLASS_IN));
    at := at + 4;
    ghost var question := Encode(ls) + U16(qtype) + U16(CLASS_IN);
    assert out[..at] == head + question;
    if edns.Some? {
      if at + OPT_LEN > out.Length {
        return Err(NoRoom);
      }
      PutBehind(out, at, OptBytes(edns.value));
      at := at + OPT_LEN;
      SetArCount(out, at, id, question + OptBytes(edns.value));
    }
    return Ok(at);
  }

  method PutBehind(out: array<byte>, at: nat, bytes: seq<byte>)
    requires at + |bytes| <= out.Length
    modifies out
    ensures out[..at + |bytes|] == old(out[..at]) + bytes
  {
    Copy(out, at, bytes);
  }

  method SetArCount(out: array<byte>, at: nat, id: u16, ghost rest: seq<byte>)
    requires HEADER_LEN <= at <= out.Length && out[..at] == Head(id, RD, 1, 0, 0, 0) + rest
    modifies out
    ensures out[..at] == Head(id, RD, 1, 0, 0, 1) + rest
  {
    hide Head, U16;
    SpliceFirst(Head(id, RD, 1, 0, 0, 0), rest, 10, U16(1));
    HeadAr(id, RD, 1, 0, 0, 0, 1);
    ghost var before := out[..at];
    Copy(out, 10, U16(1));
    assert out[..at] == Splice(before, 10, U16(1));
  }

  lemma HeadReads(msg: seq<byte>, id: u16, flags: u16, qd: u16, an: nat, ns: nat, ar: nat)
    requires HEADER_LEN <= |msg| && msg[..HEADER_LEN] == Head(id, flags, qd, an, ns, ar)
    requires an < 0x1_0000 && ns < 0x1_0000 && ar < 0x1_0000
    ensures Be16(msg, 0) == Some(id) && Be16(msg, 2) == Some(flags) && Be16(msg, 4) == Some(qd)
    ensures Be16(msg, 6) == Some(an) && Be16(msg, 8) == Some(ns) && Be16(msg, 10) == Some(ar)
  {
    var head := msg[..HEADER_LEN];
    HeadSlices(id, flags, qd, an, ns, ar);
    hide U16, Head, Be16;
    HeadField(msg, head, 0, id);
    HeadField(msg, head, 2, flags);
    HeadField(msg, head, 4, qd);
    HeadField(msg, head, 6, an);
    HeadField(msg, head, 8, ns);
    HeadField(msg, head, 10, ar);
  }

  lemma HeadSlices(id: u16, flags: u16, qd: u16, an: nat, ns: nat, ar: nat)
    requires an < 0x1_0000 && ns < 0x1_0000 && ar < 0x1_0000
    ensures var h := Head(id, flags, qd, an, ns, ar);
            && h[0..2] == U16(id) && h[2..4] == U16(flags) && h[4..6] == U16(qd)
            && h[6..8] == U16(an) && h[8..10] == U16(ns) && h[10..12] == U16(ar)
  {
  }

  lemma HeadField(msg: seq<byte>, head: seq<byte>, at: nat, v: u16)
    requires at + 2 <= |head| <= |msg| && msg[..|head|] == head && head[at..at + 2] == U16(v)
    ensures Be16(msg, at) == Some(v)
  {
    assert msg[at..at + 2] == msg[..|head|][at..at + 2];
    Be16Reads(msg, at, v);
  }

  /** The slices of a text put together from five. */
  lemma Parts(a: seq<byte>, b: seq<byte>, c: seq<byte>, d: seq<byte>, e: seq<byte>)
    ensures var m := a + (b + c + d) + e;
            var (i, j, k, n) := (|a|, |a| + |b|, |a| + |b| + |c|, |a| + |b| + |c| + |d|);
            && m[..i] == a && m[i..j] == b && m[j..k] == c && m[k..n] == d && m[n..] == e
            && m[i..n] == b + c + d
  {
  }

  /** The bytes of a built query are parsed back into its fields, through `find_opt` for the UDP size. */
  lemma QueryParses(id: u16, ls: seq<Label>, qtype: u16, edns: Option<u16>)
    requires WireName(ls)
    ensures Parse(QueryBytes(id, ls, qtype, edns))
            == Good(Query(id, RD, Encode(ls) + U16(qtype) + U16(CLASS_IN), Encode(ls), qtype, CLASS_IN, edns))
  {
    hide Head, Encode, WireLen, U16, OptBytes, PlainNameEnd, OptSize, Be16, GoodLabels;
    var ar := if edns.Some? then 1 else 0;
    var head := Head(id, RD, 1, 0, 0, ar);
    var tail := if edns.Some? then OptBytes(edns.value) else [];
    var msg := QueryBytes(id, ls, qtype, edns);
    var e := HEADER_LEN + WireLen(ls);
    Regroup(head, Encode(ls) + U16(qtype) + U16(CLASS_IN), []);
    Parts(head, Encode(ls), U16(qtype), U16(CLASS_IN), tail);
    HeadReads(msg, id, RD, 1, 0, 0, ar);
    PlainNameComplete(msg, HEADER_LEN, HEADER_LEN, ls);
    Be16Reads(msg, e, qtype);
    Be16Reads(msg, e + 2, CLASS_IN);
    if edns.Some? {
      OptFound(msg, e + 4, edns.value);
    } else {
      OptNone(msg, e + 4);
    }
  }

  lemma OptNone(msg: seq<byte>, at: nat)
    ensures OptSize(msg, at, 0) == None
  {
  }

  lemma OptFound(msg: seq<byte>, at: nat, size: u16)
    requires at <= |msg| && msg[at..] == OptBytes(size)
    ensures OptSize(msg, at, 1) == Some(size)
  {
    var opt := msg[at..];
    assert msg[at] == opt[0] == 0;
    assert NameEnd(msg, at) == Some(at + 1);
    assert msg[at + 1..at + 3] == opt[1..3] == U16(TYPE_OPT);
    assert msg[at + 3..at + 5] == opt[3..5] == U16(size);
    Be16Reads(msg, at + 1, TYPE_OPT);
    Be16Reads(msg, at + 3, size);
  }

  /**
   The round trip of a query: what `encode_query` builds is parsed back into the same id, type, class and UDP
   size, and for a name of printable labels `name_text` gives it in lower case without its final dot.
   */
  lemma QueryRoundTrip(id: u16, name: Text, qtype: u16, edns: Option<u16>, room: nat)
    requires QueryFor(id, name, qtype, edns, room).Ok?
    ensures var msg := QueryFor(id, name, qtype, edns, room).value;
            && Parse(msg).Good?
            && var q := Parse(msg).q;
            && q.id == id && q.qtype == qtype && q.qclass == CLASS_IN && q.edns == edns
            && TextOf(q.qname) == (if AllPrintable(LabelsOf(name)) then Some(Lower(StripDot(name))) else None)
  {
    var ls := LabelsOf(name);
    NameBytesMeaning(name, room - HEADER_LEN);
    QueryParses(id, ls, qtype, edns);
    NameTextMeaning(ls);
    JoinLabelsOf(name);
  }

  // ---------- Replies ----------

  /** Whether `decode` can read the record back: its names may take 255 bytes as text. */
  predicate Readable(e: Entry, qname: seq<Label>) {
    match e
    case AddressEntry(_, _) => |Dotted(qname)| <= NAME_MAX
    case CnameEntry(target, _) => |Dotted(qname)| <= NAME_MAX && |Dotted(target)| <= NAME_MAX
    case SoaEntry(zone, _) => |Dotted([HOSTMASTER] + zone)| <= NAME_MAX
  }

  /** The record that an entry of a reply to `qname` stands for. */
  function RecordOf(e: Entry, qname: seq<Label>): Record {
    match e
    case AddressEntry(ip, ttl) => Record(Fqdn(qname), TYPE_A, ttl, A(ip))
    case CnameEntry(target, ttl) => Record(Fqdn(qname), TYPE_CNAME, ttl, Cname(Fqdn(target)))
    case SoaEntry(zone, ttl) =>
      Record(Fqdn(zone), TYPE_SOA, ttl, Soa(Fqdn([NS] + zone), Fqdn([HOSTMASTER] + zone), 1, ttl, ttl, ttl, ttl))
  }

  function RecordsOf(es: seq<Entry>, qname: seq<Label>): seq<Record> {
    if es == [] then [] else [RecordOf(es[0], qname)] + RecordsOf(es[1..], qname)
  }

  /** Type, class, TTL and data length read back from behind the owner name. */
  lemma RecordHeadReads(msg: seq<byte>, n: nat, rtype: u16, ttl: u32, rdlen: u16)
    requires n + 10 <= |msg| && msg[n..n + 10] == RecordHead(rtype, ttl, rdlen)
    ensures Be16(msg, n) == Some(rtype) && Be32(msg, n + 4) == Some(ttl) && Be16(msg, n + 8) == Some(rdlen)
  {
    hide U16, U32;
    var h := msg[n..n + 10];
    var (a, b, c, d) := (U16(rtype), U16(CLASS_IN), U32(ttl), U16(rdlen));
    Parts([], a, b, c, d);
    assert h == [] + (a + b + c) + d;
    SubSlice(msg, n, n + 10, 0, 2);
    SubSlice(msg, n, n + 10, 4, 8);
    SubSlice(msg, n, n + 10, 8, 10);
    Be16Reads(msg, n, rtype);
    Be32Reads(msg, n + 4, ttl);
    Be16Reads(msg, n + 8, rdlen);
  }

  /** What `decode` makes of the bytes of one entry: its record, or a refusal when a name is too long as text. */
  lemma EntryReads(msg: seq<byte>, at: nat, e: Entry, qname: seq<Label>)
    requires GoodEntry(e) && at + EntryLen(e) <= |msg| && msg[at..at + EntryLen(e)] == EntryBytes(e)
    requires GoodLabels(qname) && HEADER_LEN + WireLen(qname) <= at
    requires msg[HEADER_LEN..HEADER_LEN + WireLen(qname)] == Encode(qname)
    ensures RecordAt(msg, at)
            == if Readable(e, qname) then Ok((RecordOf(e, qname), at + EntryLen(e))) else Err(Malformed)
  {
    hide Encode, WireLen, RecordHead, NameAt, RecordAt, Dotted, Fqdn, EntryBytes;
    match e
    case AddressEntry(ip, ttl) => AddressReads(msg, at, ip, ttl, qname);
    case CnameEntry(target, ttl) => CnameReads(msg, at, target, ttl, qname);
    case SoaEntry(zone, ttl) => SoaReads(msg, at, zone, ttl);
  }

  lemma NoBody()
    ensures GoodEntries([]) && Body([]) == []
  {
  }

  /** A record read from its owner name, its head and its data. */
  lemma RecordParts(msg: seq<byte>, at: nat, n: nat, rtype: u16, ttl: u32, rdlen: u16)
    requires NameAt(msg, at).Ok? ==> NameAt(msg, at).value.1 == n
    requires n + 10 + rdlen <= |msg| && msg[n..n + 10] == RecordHead(rtype, ttl, rdlen)
    ensures RecordAt(msg, at)
            == match NameAt(msg, at)
               case Err(e) => Err(e)
               case Ok((name, _)) =>
                 match DataAt(msg, n + 10, rtype, rdlen)
                 case Err(e) => Err(e)
                 case Ok(data) => Ok((Record(name, rtype, ttl, data), n + 10 + rdlen))
  {
    hide NameAt, DataAt, RecordHead;
    RecordHeadReads(msg, n, rtype, ttl, rdlen);
  }

  lemma AddressReads(msg: seq<byte>, at: nat, ip: Ip, ttl: u32, qname: seq<Label>)
    requires at + 16 <= |msg| && msg[at..at + 16] == EntryBytes(AddressEntry(ip, ttl))
    requires GoodLabels(qname) && HEADER_LEN + WireLen(qname) <= at
    requires msg[HEADER_LEN..HEADER_LEN + WireLen(qname)] == Encode(qname)
    ensures RecordAt(msg, at)
            == if |Dotted(qname)| <= NAME_MAX then Ok((RecordOf(AddressEntry(ip, ttl), qname), at + 16))
               else Err(Malformed)
  {
    hide Encode, WireLen, RecordHead, NameAt, RecordAt, Octets, Dotted, Fqdn;
    Three(msg, at, QNAME_PTR, RecordHead(TYPE_A, ttl, 4), Octets(ip));
    ReadPointerMeaning(msg, at, qname);
    RecordParts(msg, at, at + 2, TYPE_A, ttl, 4);
    OctetsRead(msg, at + 12, ip);
  }

  lemma OctetsRead(msg: seq<byte>, rd: nat, ip: Ip)
    requires rd + 4 <= |msg| && msg[rd..rd + 4] == Octets(ip)
    ensures DataAt(msg, rd, TYPE_A, 4) == Ok(A(ip))
  {
    assert forall i :: 0 <= i < 4 ==> msg[rd + i] == msg[rd..rd + 4][i] == Octets(ip)[i];
  }

  lemma CnameReads(msg: seq<byte>, at: nat, target: seq<Label>, ttl: u32, qname: seq<Label>)
    requires WireName(target) && at + 12 + WireLen(target) <= |msg|
    requires msg[at..at + 12 + WireLen(target)] == EntryBytes(CnameEntry(target, ttl))
    requires GoodLabels(qname) && HEADER_LEN + WireLen(qname) <= at
    requires msg[HEADER_LEN..HEADER_LEN + WireLen(qname)] == Encode(qname)
    ensures RecordAt(msg, at)
            == if |Dotted(qname)| <= NAME_MAX && |Dotted(target)| <= NAME_MAX
               then Ok((RecordOf(CnameEntry(target, ttl), qname), at + 12 + WireLen(target)))
               else Err(Malformed)
  {
    hide Encode, WireLen, RecordHead, NameAt, RecordAt, Dotted, Fqdn;
    Three(msg, at, QNAME_PTR, RecordHead(TYPE_CNAME, ttl, WireLen(target)), Encode(target));
    ReadPointerMeaning(msg, at, qname);
    RecordParts(msg, at, at + 2, TYPE_CNAME, ttl, WireLen(target));
    ReadNameMeaning(msg, at + 12, target);
  }

  lemma SoaReads(msg: seq<byte>, at: nat, zone: seq<Label>, ttl: u32)
    requires WireName(zone) && at + 3 * WireLen(zone) + 44 <= |msg|
    requires msg[at..at + 3 * WireLen(zone) + 44] == EntryBytes(SoaEntry(zone, ttl))
    ensures RecordAt(msg, at)
            == if |Dotted([HOSTMASTER] + zone)| <= NAME_MAX
               then Ok((RecordOf(SoaEntry(zone, ttl), []), at + 3 * WireLen(zone) + 44))
               else Err(Malformed)
  {
    hide Encode, WireLen, RecordHead, NameAt, RecordAt, SoaData, SoaAt, Latin1, Fqdn, GoodLabels;
    var n := WireLen(zone);
    Three(msg, at, Encode(zone), RecordHead(TYPE_SOA, ttl, 2 * n + 34), SoaData(zone, ttl));
    ReadNameMeaning(msg, at, zone);
    RecordParts(msg, at, at + n, TYPE_SOA, ttl, 2 * n + 34);
    SoaDataReads(msg, at + n + 10, zone, ttl);
    DottedPrefix(HOSTMASTER, zone);
  }

  lemma DottedPrefix(l: Label, zone: seq<Label>)
    ensures Dotted([l] + zone) == Latin1(l) + [DOT] + Dotted(zone)
  {
    assert ([l] + zone)[1..] == zone;
  }

  lemma SoaDataReads(msg: seq<byte>, rd: nat, zone: seq<Label>, ttl: u32)
    requires WireName(zone) && rd + 2 * WireLen(zone) + 34 <= |msg|
    requires msg[rd..rd + 2 * WireLen(zone) + 34] == SoaData(zone, ttl)
    ensures SoaAt(msg, rd)
            == if |Dotted([HOSTMASTER] + zone)| <= NAME_MAX
               then Ok(Soa(Fqdn([NS] + zone), Fqdn([HOSTMASTER] + zone), 1, ttl, ttl, ttl, ttl))
               else Err(Malformed)
  {
    hide Encode, WireLen, NameAt, Dotted, Latin1, U32, Times, SoaData, Be32, GoodLabels;
    var n := WireLen(zone);
    var p := rd + 2 * n + 14;
    PrefixLen(NS, zone);
    PrefixLen(HOSTMASTER, zone);
    SoaDataForm(zone, ttl);
    Three(msg, rd, Encode([NS] + zone), Encode([HOSTMASTER] + zone), Times(ttl));
    ReadNameMeaning(msg, rd, [NS] + zone);
    ReadNameMeaning(msg, rd + n + 3, [HOSTMASTER] + zone);
    DottedPrefix(NS, zone);
    DottedPrefix(HOSTMASTER, zone);
    Latin1Ascii(NS);
    Latin1Ascii(HOSTMASTER);
    TimesRead(msg, p, ttl);
  }

  /** The five numbers of the SOA data: the serial number 1, and the TTL four times. */
  function Times(ttl: u32): (r: seq<byte>)
    ensures |r| == 20
  {
    U32(1) + U32(ttl) + U32(ttl) + U32(ttl) + U32(ttl)
  }

  lemma SoaDataForm(zone: seq<Label>, ttl: u32)
    requires WireName(zone)
    ensures GoodLabels([NS] + zone) && GoodLabels([HOSTMASTER] + zone)
    ensures SoaData(zone, ttl) == Encode([NS] + zone) + Encode([HOSTMASTER] + zone) + Times(ttl)
  {
    hide Encode, WireLen, U32;
    PrefixLen(NS, zone);
    PrefixLen(HOSTMASTER, zone);
  }

  lemma TimesRead(msg: seq<byte>, p: nat, ttl: u32)
    requires p + 20 <= |msg| && msg[p..p + 20] == Times(ttl)
    ensures Be32(msg, p) == Some(1) && Be32(msg, p + 4) == Some(ttl) && Be32(msg, p + 8) == Some(ttl)
    ensures Be32(msg, p + 12) == Some(ttl) && Be32(msg, p + 16) == Some(ttl)
  {
    hide U32, Be32;
    var t := msg[p..p + 20];
    assert t[0..4] == U32(1) && t[4..8] == U32(ttl) && t[8..12] == U32(ttl);
    assert t[12..16] == U32(ttl) && t[16..20] == U32(ttl);
    SubSlice(msg, p, p + 20, 0, 4);
    SubSlice(msg, p, p + 20, 4, 8);
    SubSlice(msg, p, p + 20, 8, 12);
    SubSlice(msg, p, p + 20, 12, 16);
    SubSlice(msg, p, p + 20, 16, 20);
    Be32Reads(msg, p, 1);
    Be32Reads(msg, p + 4, ttl);
    Be32Reads(msg, p + 8, ttl);
    Be32Reads(msg, p + 12, ttl);
    Be32Reads(msg, p + 16, ttl);
  }

  lemma PrefixLen(l: Label, zone: seq<Label>)
    requires GoodLabels(zone) && 1 <= |l| <= LABEL_MAX
    ensures GoodLabels([l] + zone) && WireLen([l] + zone) == 1 + |l| + WireLen(zone)
  {
    assert ([l] + zone)[1..] == zone;
  }

  lemma BodyFront(es: seq<Entry>)
    requires es != [] && GoodEntries(es)
    ensures GoodEntry(es[0]) && GoodEntries(es[1..]) && Body(es) == EntryBytes(es[0]) + Body(es[1..])
  {
    hide EntryBytes, GoodEntry;
    assert es == [es[0]] + es[1..];
    GoodEntriesSplit([es[0]], es[1..]);
    BodySplit([es[0]], es[1..]);
    assert [es[0]][..0] == [] && [] + EntryBytes(es[0]) == EntryBytes(es[0]);
  }

  lemma {:induction false} GoodEntriesSplit(a: seq<Entry>, b: seq<Entry>)
    requires GoodEntries(a + b)
    ensures GoodEntries(a) && GoodEntries(b)
    decreases |b|
  {
    hide GoodEntry;
    if b == [] {
      assert a + b == a;
    } else {
      assert (a + b)[..|a + b| - 1] == a + b[..|b| - 1];
      GoodEntriesSplit(a, b[..|b| - 1]);
    }
  }

  lemma {:induction false} BodySplit(a: seq<Entry>, b: seq<Entry>)
    requires GoodEntries(a + b) && GoodEntries(a) && GoodEntries(b)
    ensures Body(a + b) == Body(a) + Body(b)
    decreases |b|
  {
    hide EntryBytes, GoodEntry, BodyLen;
    if b == [] {
      assert a + b == a;
    } else {
      var front, last := b[..|b| - 1], b[|b| - 1];
      assert (a + b)[..|a + b| - 1] == a + front;
      BodySplit(a, front);
      Regroup(Body(a), Body(front), EntryBytes(last));
    }
  }

  predicate AllReadable(es: seq<Entry>, qname: seq<Label>) {
    es == [] || (Readable(es[0], qname) && AllReadable(es[1..], qname))
  }

  lemma {:induction false} EntriesRead(msg: seq<byte>, at: nat, es: seq<Entry>, qname: seq<Label>)
    requires GoodEntries(es) && at + |Body(es)| <= |msg| && msg[at..at + |Body(es)|] == Body(es)
    requires GoodLabels(qname) && HEADER_LEN + WireLen(qname) <= at
    requires msg[HEADER_LEN..HEADER_LEN + WireLen(qname)] == Encode(qname)
    ensures RecordsAt(msg, at, |es|)
            == if AllReadable(es, qname) then Ok((RecordsOf(es, qname), at + |Body(es)|)) else Err(Malformed)
    decreases |es|
  {
    hide Encode, WireLen, RecordAt, EntryBytes, Body, BodyLen, EntryLen, Readable, RecordOf, GoodEntry, GoodEntries;
    if es != [] {
      BodyFront(es);
      var n := EntryLen(es[0]);
      Two(msg, at, EntryBytes(es[0]), Body(es[1..]));
      EntryReads(msg, at, es[0], qname);
      EntriesRead(msg, at + n, es[1..], qname);
    } else {
      NoBody();
    }
  }

  /** A finished reply whose answers were written before its authorities, decoded. */
  lemma FinalReads(d: Draft, qname: seq<Label>, qtype: u16, qclass: u16, a: seq<Entry>, b: seq<Entry>)
    requires GoodDraft(d) && d.entries == a + b && d.an == |a| < 0x1_0000 && d.ns == |b| < 0x1_0000
    requires WireName(qname) && d.qd == 1 && d.question == Encode(qname) + U16(qtype) + U16(qclass)
    ensures Decoded(Final(d))
            == if AllReadable(a, qname) && AllReadable(b, qname)
               then Ok(Message(d.id, d.flags, RecordsOf(a, qname), RecordsOf(b, qname), if d.edns then 1 else 0))
               else Err(Malformed)
  {
    hide Head, Encode, WireLen, Body, BodyLen, RecordsAt, U16, AllReadable, RecordsOf, GoodEntries, NameEnd, Be16,
         OPT_BYTES;
    var msg := Final(d);
    var ar := if d.edns then 1 else 0;
    var tail := if d.edns then OPT_BYTES else [];
    var head := Head(d.id, d.flags, d.qd, d.an, d.ns, ar);
    GoodEntriesSplit(a, b);
    BodySplit(a, b);
    assert msg == head + (d.question + (Body(a) + Body(b))) + tail;
    Regroup(Encode(qname), U16(qtype), U16(qclass));
    FinalParts(msg, head, Encode(qname), U16(qtype) + U16(qclass), Body(a), Body(b), tail);
    HeadReads(msg, d.id, d.flags, d.qd, d.an, d.ns, ar);
    PartsRead(msg, qname, a, b);
  }

  /** The sections of a message with one question, decoded. */
  lemma PartsRead(msg: seq<byte>, qname: seq<Label>, a: seq<Entry>, b: seq<Entry>)
    requires WireName(qname) && GoodEntries(a) && GoodEntries(b)
    requires HEADER_LEN <= |msg| && Be16(msg, 4) == Some(1) && Be16(msg, 6) == Some(|a|) && Be16(msg, 8) == Some(|b|)
    requires var n := HEADER_LEN + WireLen(qname);
             && n + 4 + |Body(a)| + |Body(b)| <= |msg| && msg[HEADER_LEN..n] == Encode(qname)
             && msg[n + 4..n + 4 + |Body(a)|] == Body(a)
             && msg[n + 4 + |Body(a)|..n + 4 + |Body(a)| + |Body(b)|] == Body(b)
    ensures Decoded(msg)
            == if AllReadable(a, qname) && AllReadable(b, qname)
               then Ok(Message(Be16(msg, 0).value, Be16(msg, 2).value, RecordsOf(a, qname), RecordsOf(b, qname),
                               Be16(msg, 10).value))
               else Err(Malformed)
  {
    hide Encode, WireLen, Body, BodyLen, RecordsAt, AllReadable, RecordsOf, GoodEntries, NameEnd, Be16, PlainNameEnd,
         GoodLabels, QuestionsEnd;
    var n := HEADER_LEN + WireLen(qname);
    PlainNameComplete(msg, HEADER_LEN, HEADER_LEN, qname);
    OneQuestion(msg, HEADER_LEN, n);
    EntriesRead(msg, n + 4, a, qname);
    EntriesRead(msg, n + 4 + |Body(a)|, b, qname);
  }

  lemma OneQuestion(msg: seq<byte>, at: nat, n: nat)
    requires NameEnd(msg, at) == Some(n)
    ensures QuestionsEnd(msg, at, 1) == Some(n + 4)
  {
    hide NameEnd;
    assert QuestionsEnd(msg, n + 4, 0) == Some(n + 4);
  }

  lemma FinalParts(msg: seq<byte>, head: seq<byte>, name: seq<byte>, kind: seq<byte>, a: seq<byte>, b: seq<byte>,
                   tail: seq<byte>)
    requires |kind| == 4 && msg == head + ((name + kind) + (a + b)) + tail
    ensures var (h, n) := (|head|, |head| + |name|);
            && n + 4 + |a| + |b| <= |msg| && msg[..h] == head && msg[h..n] == name
            && msg[n + 4..n + 4 + |a|] == a && msg[n + 4 + |a|..n + 4 + |a| + |b|] == b
  {
    var n := |head| + |name|;
    var front := head + name + kind;
    assert msg == front + a + b + tail;
    assert msg[n + 4..] == a + b + tail;
    assert msg[n + 4 + |a|..] == b + tail;
  }

  // ---------- Any sequence of calls ----------

  datatype Call = CallA(ip: Ip, ttl: u32) | CallCname(target: Text, ttl: u32)

  function Do(d: Draft, c: Call): Result<Draft> {
    match c
    case CallA(ip, ttl) => AnswerA(d, ip, ttl)
    case CallCname(target, ttl) => AnswerCname(d, target, ttl)
  }

  function EntryOf(c: Call): Entry {
    match c
    case CallA(ip, ttl) => AddressEntry(ip, ttl)
    case CallCname(target, ttl) => CnameEntry(LabelsOf(target), ttl)
  }

  /** The calls that succeed, in order, as records, and the draft they leave; a refused call changes nothing. */
  function Play(d: Draft, calls: seq<Call>): (Draft, seq<Entry>)
    decreases |calls|
  {
    if calls == [] then (d, [])
    else
      match Do(d, calls[0])
      case Err(_) => Play(d, calls[1..])
      case Ok(d') =>
        var (last, more) := Play(d', calls[1..]);
        (last, [EntryOf(calls[0])] + more)
  }

  lemma {:induction false} PlayKeeps(d: Draft, calls: seq<Call>)
    requires GoodDraft(d) && d.ns == 0
    ensures var (last, taken) := Play(d, calls);
            && GoodDraft(last)
            && last == d.(entries := d.entries + taken, an := d.an + |taken|)
    decreases |calls|
  {
    hide GoodEntries, BodyLen, NameBytes, LabelsOf;
    if calls == [] {
      assert d.entries + [] == d.entries;
    } else {
      var c := calls[0];
      CallsKeepDraftsGood(d, if c.CallA? then c.ip else Ip(0, 0, 0, 0), if c.CallCname? then c.target else [], c.ttl);
      if Do(d, c).Err? {
        PlayKeeps(d, calls[1..]);
      } else {
        var d' := Do(d, c).value;
        PlayKeeps(d', calls[1..]);
        var taken := Play(d', calls[1..]).1;
        assert d.entries + ([EntryOf(c)] + taken) == d'.entries + taken;
      }
    }
  }

  /** The draft behind an SOA call, if there is one, and the record that it takes when it succeeds. */
  function CloseWith(d: Draft, soa: Option<(Text, u32)>): (Draft, seq<Entry>) {
    match soa
    case None => (d, [])
    case Some((zone, ttl)) =>
      match AuthoritySoa(d, zone, ttl)
      case Err(_) => (d, [])
      case Ok(last) => (last, [SoaEntry(LabelsOf(zone), ttl)])
  }

  /**
   The round trip of a reply. Whatever parsed query it answers, and whatever sequence of address and CNAME
   calls it gets, with or without an SOA record behind them: the finished bytes decode to exactly the records
   whose calls succeeded, in that order, under the question's name, with id and flags; unless one of the names
   in them takes more than 255 bytes as text, which is the one thing the decoder refuses.
   */
  lemma ReplyRoundTrip(msg: seq<byte>, limit: nat, calls: seq<Call>, soa: Option<(Text, u32)>)
    requires Parse(msg).Good? && limit < 0x1_0000
    requires var d := StartDraft(Parse(msg).q, limit); Size(d) + Reserve(d) <= limit
    ensures var q := Parse(msg).q;
            var qname := LabelsAt(msg, HEADER_LEN);
            var (d, answers) := Play(StartDraft(q, limit), calls);
            var (last, authority) := CloseWith(d, soa);
            && GoodDraft(last)
            && Decoded(Final(last))
               == if AllReadable(answers, qname) && AllReadable(authority, qname)
                  then Ok(Message(q.id, ReplyFlags(q.flags, NoError), RecordsOf(answers, qname),
                                  RecordsOf(authority, qname), if q.edns.Some? then 1 else 0))
                  else Err(Malformed)
  {
    hide GoodEntries, BodyLen, NameBytes, LabelsOf, Parse, LabelsAt, Encode, U16, AllReadable, RecordsOf, Final,
         Decoded, Play;
    var q := Parse(msg).q;
    var qname := LabelsAt(msg, HEADER_LEN);
    var start := StartDraft(q, limit);
    ParsedName(msg);
    NoBody();
    PlayKeeps(start, calls);
    var (d, answers) := Play(start, calls);
    assert start.entries + answers == answers;
    CountsFit(d);
    if soa.Some? && AuthoritySoa(d, soa.value.0, soa.value.1).Ok? {
      CallsKeepDraftsGood(d, Ip(0, 0, 0, 0), soa.value.0, soa.value.1);
      var last := AuthoritySoa(d, soa.value.0, soa.value.1).value;
      FinalReads(last, qname, q.qtype, q.qclass, answers, [SoaEntry(LabelsOf(soa.value.0), soa.value.1)]);
    } else {
      assert d.entries == answers + [];
      FinalReads(d, qname, q.qtype, q.qclass, answers, []);
    }
  }

  /** A bare reply decodes to its id and flags, with no record. */
  lemma BareReads(id: u16, flags: u16, rcode: Rcode, limit: nat)
    ensures Decoded(Final(BareDraft(id, flags, rcode, limit)))
            == Ok(Message(id, ReplyFlags(flags, rcode), [], [], 0))
  {
    var d := BareDraft(id, flags, rcode, limit);
    assert Final(d)[..HEADER_LEN] == Head(id, d.flags, 0, 0, 0, 0);
    HeadReads(Final(d), id, d.flags, 0, 0, 0, 0);
  }

  /**
   When nothing can be refused: a question of printable labels, CNAME targets in ASCII, and a zone in ASCII
   that takes at most 245 bytes on the wire. A zone of 245 bytes is read back although its `hostmaster` name
   is then 256 bytes, one more than section 2.3.4 of RFC 1035 allows; up to 244 bytes it is within that limit.
   */
  lemma ReadableWhenAscii(e: Entry, qname: seq<Label>)
    requires GoodEntry(e) && WireName(qname) && AllPrintable(qname)
    requires e.CnameEntry? ==> AsciiLabels(e.target)
    requires e.SoaEntry? ==> AsciiLabels(e.zone)
    ensures Readable(e, qname) <==> (e.SoaEntry? ==> WireLen(e.zone) <= 245)
    ensures e.SoaEntry? ==> (WireLen([HOSTMASTER] + e.zone) <= NAME_MAX <==> WireLen(e.zone) <= 244)
  {
    hide Dotted, WireLen, Fqdn, Latin1, GoodLabels, AsciiLabels, AllPrintable;
    PrintableIsAscii(qname);
    FqdnAscii(qname);
    match e
    case AddressEntry(_, _) =>
    case CnameEntry(target, _) => FqdnAscii(target);
    case SoaEntry(zone, _) =>
      FqdnAscii(zone);
      DottedPrefix(HOSTMASTER, zone);
      Latin1Ascii(HOSTMASTER);
      PrefixLen(HOSTMASTER, zone);
  }

  lemma {:induction false} TakenAreReadable(d: Draft, calls: seq<Call>, qname: seq<Label>)
    requires WireName(qname) && AllPrintable(qname)
    requires forall i :: 0 <= i < |calls| && calls[i].CallCname? ==> IsAscii(calls[i].target)
    ensures AllReadable(Play(d, calls).1, qname)
    decreases |calls|
  {
    hide NameBytes, LabelsOf, Readable, AllPrintable, Room;
    if calls == [] {
      NothingReadable(qname);
    } else {
      var c := calls[0];
      if Do(d, c).Err? {
        TakenAreReadable(d, calls[1..], qname);
      } else {
        TakenAreReadable(Do(d, c).value, calls[1..], qname);
        if c.CallCname? {
          NameBytesMeaning(c.target, NAME_MAX + 1);
          LabelsOfAscii(c.target);
        }
        ReadableWhenAscii(EntryOf(c), qname);
        assert Play(d, calls).1[1..] == Play(Do(d, c).value, calls[1..]).1;
      }
    }
  }

  lemma NothingReadable(qname: seq<Label>)
    ensures AllReadable([], qname)
  {
  }

  /**
   What is promised without looking at a record: for a printable question, CNAME targets in ASCII and an ASCII zone
   the finished bytes decode to the records whose calls succeeded, exactly unless an SOA record of a zone of more
   than 245 wire bytes is among them. So they do for every zone within the limit of section 2.3.4 of RFC 1035.
   */
  lemma AsciiReplyRoundTrip(msg: seq<byte>, limit: nat, calls: seq<Call>, soa: Option<(Text, u32)>)
    requires Parse(msg).Good? && limit < 0x1_0000 && AllPrintable(LabelsAt(msg, HEADER_LEN))
    requires var d := StartDraft(Parse(msg).q, limit); Size(d) + Reserve(d) <= limit
    requires forall i :: 0 <= i < |calls| && calls[i].CallCname? ==> IsAscii(calls[i].target)
    requires soa.Some? ==> IsAscii(soa.value.0)
    ensures var q := Parse(msg).q;
            var qname := LabelsAt(msg, HEADER_LEN);
            var (d, answers) := Play(StartDraft(q, limit), calls);
            var (last, authority) := CloseWith(d, soa);
            && GoodDraft(last)
            && Decoded(Final(last))
               == if authority != [] && WireLen(LabelsOf(soa.value.0)) > 245 then Err(Malformed)
                  else Ok(Message(q.id, ReplyFlags(q.flags, NoError), RecordsOf(answers, qname),
                                  RecordsOf(authority, qname), if q.edns.Some? then 1 else 0))
  {
    hide GoodEntries, Parse, LabelsAt, RecordsOf, Final, Decoded, Play, Readable, LabelsOf, AllPrintable;
    var q := Parse(msg).q;
    var qname := LabelsAt(msg, HEADER_LEN);
    ParsedName(msg);
    ReplyRoundTrip(msg, limit, calls, soa);
    TakenAreReadable(StartDraft(q, limit), calls, qname);
    ClosingIsReadable(Play(StartDraft(q, limit), calls).0, soa, qname);
  }

  lemma ClosingIsReadable(d: Draft, soa: Option<(Text, u32)>, qname: seq<Label>)
    requires WireName(qname) && AllPrintable(qname) && (soa.Some? ==> IsAscii(soa.value.0))
    ensures var authority := CloseWith(d, soa).1;
            AllReadable(authority, qname) <==> authority == [] || WireLen(LabelsOf(soa.value.0)) <= 245
  {
    hide NameBytes, LabelsOf, Readable, AllPrintable, Room, WireLen;
    NothingReadable(qname);
    var authority := CloseWith(d, soa).1;
    if authority != [] {
      NameBytesMeaning(soa.value.0, SOA_SCRATCH);
      LabelsOfAscii(soa.value.0);
      ReadableWhenAscii(authority[0], qname);
    }
  }
}
