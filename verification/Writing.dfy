/**
 Writing DNS messages, after src/wire.rs. A reply is built in place in the caller's buffer; what it means is
 a `Draft`, the list of its records, and the bytes are at every moment the rendering of that draft.
 */
module Writing {
  import opened Basics
  import opened Names
  import opened Reading

  // ---------- Writing into a buffer ----------

  /** `s` with `bytes` written over it from `at`. */
  function Splice(s: seq<byte>, at: nat, bytes: seq<byte>): seq<byte>
    requires at + |bytes| <= |s|
  {
    s[..at] + bytes + s[at + |bytes|..]
  }

  method Copy(out: array<byte>, at: nat, bytes: seq<byte>)
    requires at + |bytes| <= out.Length
    modifies out
    ensures out[..] == Splice(old(out[..]), at, bytes)
  {
    forall i | 0 <= i < |bytes| {
      out[at + i] := bytes[i];
    }
  }

  // ---------- A name ----------

  /** The labels on the wire when `room` bytes are free, with the first thing that goes wrong as the error. */
  function PutLabels(ls: seq<Label>, room: int): Result<seq<byte>> {
    if ls == [] then if room < 1 then Err(NoRoom) else Ok([0])
    else if ls[0] == [] || |ls[0]| > LABEL_MAX then Err(BadName)
    else if 1 + |ls[0]| > room then Err(NoRoom)
    else Behind([|ls[0]|] + ls[0], PutLabels(ls[1..], room - 1 - |ls[0]|))
  }

  function Behind(w: seq<byte>, r: Result<seq<byte>>): Result<seq<byte>> {
    match r
    case Err(e) => Err(e)
    case Ok(more) => Ok(w + more)
  }

  function NameBytes(name: Text, room: int): Result<seq<byte>> {
    match PutLabels(LabelsOf(name), room)
    case Err(e) => Err(e)
    case Ok(w) => if |w| > NAME_MAX then Err(BadName) else Ok(w)
  }

  /** A name is written exactly when it is within the limits of RFC 1035 and fits; then as its encoding. */
  lemma NameBytesMeaning(name: Text, room: int)
    ensures NameBytes(name, room).Ok? <==> WireName(LabelsOf(name)) && WireLen(LabelsOf(name)) <= room
    ensures NameBytes(name, room).Ok? ==> NameBytes(name, room).value == Encode(LabelsOf(name))
  {
    PutLabelsMeaning(LabelsOf(name), room);
  }

  lemma {:induction false} PutLabelsMeaning(ls: seq<Label>, room: int)
    ensures PutLabels(ls, room).Ok? <==> GoodLabels(ls) && WireLen(ls) <= room
    ensures PutLabels(ls, room).Ok? ==> PutLabels(ls, room).value == Encode(ls)
    decreases |ls|
  {
    if ls != [] {
      PutLabelsMeaning(ls[1..], room - 1 - |ls[0]|);
      assert ls[0] in ls;
      assert GoodLabels(ls) <==> 1 <= |ls[0]| <= LABEL_MAX && GoodLabels(ls[1..]) by {
        assert forall i :: 1 <= i < |ls| ==> ls[i] == ls[1..][i - 1];
      }
      WireLenAtLeast(ls);
    }
  }

  /** `i` is the first label that is empty or longer than 63 bytes. */
  predicate FirstBad(ls: seq<Label>, i: int) {
    0 <= i < |ls| && GoodLabels(ls[..i]) && !(1 <= |ls[i]| <= 63)
  }

  /**
   Why a name is not written: a bad name when a label is empty or too long and all before it have room, or when the
   whole has room but more than 255 bytes; else there is no room.
   */
  lemma RefusalMeaning(name: Text, room: int)
    ensures var ls := LabelsOf(name);
            NameBytes(name, room) == Err(BadName)
            <==> || (exists i :: FirstBad(ls, i) && (i == 0 || WireLen(ls[..i]) - 1 <= room))
                 || (GoodLabels(ls) && 255 < WireLen(ls) <= room)
    ensures NameBytes(name, room).Err? ==> NameBytes(name, room).error in {BadName, NoRoom}
  {
    PutLabelsMeaning(LabelsOf(name), room);
    PutLabelsRefusal(LabelsOf(name), room);
    assert forall i :: FirstBad(LabelsOf(name), i) ==> !GoodLabels(LabelsOf(name));
  }

  lemma {:induction false} PutLabelsRefusal(ls: seq<Label>, room: int)
    ensures PutLabels(ls, room) == Err(BadName)
            <==> exists i :: FirstBad(ls, i) && (i == 0 || WireLen(ls[..i]) - 1 <= room)
    ensures PutLabels(ls, room).Err? ==> PutLabels(ls, room).error in {BadName, NoRoom}
    decreases |ls|
  {
    if ls != [] {
      var rest := ls[1..];
      if !(1 <= |ls[0]| <= 63) {
        assert FirstBad(ls, 0);
      } else {
        PutLabelsRefusal(rest, room - 1 - |ls[0]|);
        forall i | 0 < i ensures FirstBad(ls, i) <==> FirstBad(rest, i - 1) {
          BadBehind(ls, i);
        }
        forall i | 0 < i <= |ls| ensures WireLen(ls[..i]) == 1 + |ls[0]| + WireLen(rest[..i - 1]) {
          assert ls[..i][1..] == rest[..i - 1];
        }
        forall i | 0 <= i <= |rest| ensures WireLen(rest[..i]) >= 1 && (i == 0 ==> WireLen(rest[..i]) == 1) {
        }
        if i :| FirstBad(rest, i) && (i == 0 || WireLen(rest[..i]) - 1 <= room - 1 - |ls[0]|) {
          assert FirstBad(ls, i + 1);
        }
        if i :| FirstBad(ls, i) && (i == 0 || WireLen(ls[..i]) - 1 <= room) {
          assert i > 0 && FirstBad(rest, i - 1);
        }
      }
    }
  }

  lemma BadBehind(ls: seq<Label>, i: int)
    requires 0 < i && ls != [] && 1 <= |ls[0]| <= 63
    ensures FirstBad(ls, i) <==> FirstBad(ls[1..], i - 1)
  {
    if i < |ls| {
      var (front, back) := (ls[..i], ls[1..][..i - 1]);
      assert forall k :: 0 < k < i ==> front[k] == back[k - 1];
      assert forall k :: 0 <= k < i - 1 ==> back[k] == front[k + 1];
    }
  }

  lemma WireLenAtLeast(ls: seq<Label>)
    ensures WireLen(ls) >= 1
    ensures ls != [] ==> WireLen(ls) >= 2 + |ls[0]|
  {
  }

  method PutName(out: array<byte>, start: nat, name: Text) returns (r: Result<nat>)
    modifies out
    ensures match NameBytes(name, out.Length - start)
            case Err(e) => r == Err(e)
            case Ok(w) => r == Ok(start + |w|) && start + |w| <= out.Length && out[..] == Splice(old(out[..]), start, w)
  {
    hide Splice, LabelsOf;
    var ls := LabelsOf(name);
    var at := start;
    ghost var was := out[..];
    ghost var done: seq<byte> := [];
    BehindTwice([], [], PutLabels(ls, out.Length - start));
    if start <= out.Length {
      SpliceNone(was, start);
    }
    for i := 0 to |ls|
      invariant at == start + |done|
      invariant at <= out.Length || (done == [] && out[..] == was)
      invariant at <= out.Length ==> out[..] == Splice(was, start, done)
      invariant PutLabels(ls, out.Length - start) == Behind(done, PutLabels(ls[i..], out.Length - at))
    {
      var l := ls[i];
      assert ls[i..][0] == l && ls[i..][1..] == ls[i + 1..];
      if l == [] || |l| > LABEL_MAX {
        return Err(BadName);
      }
      if 1 + |l| > out.Length - at {
        return Err(NoRoom);
      }
      Copy(out, at, [|l|] + l);
      SpliceNext(was, start, done, [|l|] + l);
      BehindTwice(done, [|l|] + l, PutLabels(ls[i + 1..], out.Length - at - 1 - |l|));
      done := done + ([|l|] + l);
      at := at + 1 + |l|;
    }
    if at >= out.Length {
      return Err(NoRoom);
    }
    Copy(out, at, [0]);
    SpliceNext(was, start, done, [0]);
    at := at + 1;
    return if at - start > NAME_MAX then Err(BadName) else Ok(at);
  }

  lemma BehindTwice(a: seq<byte>, b: seq<byte>, r: Result<seq<byte>>)
    ensures Behind(a, Behind(b, r)) == Behind(a + b, r)
    ensures Behind([], r) == r
  {
    if r.Ok? {
      assert a + (b + r.value) == a + b + r.value;
      assert [] + r.value == r.value;
    }
  }

  lemma SpliceNone(s: seq<byte>, at: nat)
    requires at <= |s|
    ensures Splice(s, at, []) == s
  {
  }

  lemma SpliceNext(s: seq<byte>, at: nat, a: seq<byte>, b: seq<byte>)
    requires at + |a| + |b| <= |s|
    ensures Splice(Splice(s, at, a), at + |a|, b) == Splice(s, at, a + b)
  {
  }

  lemma SpliceSlices(s: seq<byte>, at: nat, bytes: seq<byte>)
    requires at + |bytes| <= |s|
    ensures Splice(s, at, bytes)[..at] == s[..at]
    ensures Splice(s, at, bytes)[at..at + |bytes|] == bytes
    ensures Splice(s, at, bytes)[at + |bytes|..] == s[at + |bytes|..]
  {
  }

  lemma SpliceTake(s: seq<byte>, at: nat, bytes: seq<byte>, to: nat)
    requires at + |bytes| <= to <= |s|
    ensures Splice(s, at, bytes)[..to] == s[..at] + bytes + s[at + |bytes|..to]
  {
  }

  // ---------- Records ----------

  /** The records that a reply of this server is made of. */
  datatype Entry =
    | AddressEntry(ip: Ip, ttl: u32)
    | CnameEntry(target: seq<Label>, ttl: u32)
    | SoaEntry(zone: seq<Label>, ttl: u32)

  /** The longest zone, in wire bytes, whose SOA record fits the scratch buffer of 788 bytes. */
  const SOA_SCRATCH := 788
  const SOA_ZONE_MAX := 248

  const NS: Label := [110, 115]
  const HOSTMASTER: Label := [104, 111, 115, 116, 109, 97, 115, 116, 101, 114]

  predicate GoodEntry(e: Entry) {
    match e
    case AddressEntry(_, _) => true
    case CnameEntry(target, _) => WireName(target)
    case SoaEntry(zone, _) => WireName(zone)
  }

  function Octets(ip: Ip): (r: seq<byte>)
    ensures |r| == 4
  {
    [ip.a, ip.b, ip.c, ip.d]
  }

  function EntryLen(e: Entry): nat {
    match e
    case AddressEntry(_, _) => 16
    case CnameEntry(target, _) => 12 + WireLen(target)
    case SoaEntry(zone, _) => 3 * WireLen(zone) + 44
  }

  /** Type, class, TTL and data length: what stands between the owner name and the data of a record. */
  function RecordHead(rtype: u16, ttl: u32, rdlen: u16): (r: seq<byte>)
    ensures |r| == 10
  {
    U16(rtype) + U16(CLASS_IN) + U32(ttl) + U16(rdlen)
  }

  /** The pointer to the name of the question, right behind the header. */
  const QNAME_PTR: seq<byte> := [0xC0, HEADER_LEN]

  function SoaData(zone: seq<Label>, ttl: u32): (r: seq<byte>)
    requires WireName(zone)
    ensures |r| == 2 * WireLen(zone) + 34
  {
    assert GoodLabels([NS] + zone) && GoodLabels([HOSTMASTER] + zone);
    assert ([NS] + zone)[1..] == zone && ([HOSTMASTER] + zone)[1..] == zone;
    Encode([NS] + zone) + Encode([HOSTMASTER] + zone) + U32(1) + U32(ttl) + U32(ttl) + U32(ttl) + U32(ttl)
  }

  function EntryBytes(e: Entry): (r: seq<byte>)
    requires GoodEntry(e)
    ensures |r| == EntryLen(e)
  {
    match e
    case AddressEntry(ip, ttl) => QNAME_PTR + RecordHead(TYPE_A, ttl, 4) + Octets(ip)
    case CnameEntry(target, ttl) => QNAME_PTR + RecordHead(TYPE_CNAME, ttl, WireLen(target)) + Encode(target)
    case SoaEntry(zone, ttl) => Encode(zone) + RecordHead(TYPE_SOA, ttl, 2 * WireLen(zone) + 34) + SoaData(zone, ttl)
  }

  // ---------- Drafts ----------

  /**
   A reply in progress: its header fields, its question (empty in a bare reply), its records in the order
   they were written, how many of them are answers and authorities, its size limit, and whether it closes
   with an OPT record.
   */
  datatype Draft = Draft(id: u16, flags: u16, qd: u16, question: seq<byte>,
                         entries: seq<Entry>, an: nat, ns: nat, limit: nat, edns: bool)

  predicate GoodEntries(es: seq<Entry>) {
    es == [] || (GoodEntries(es[..|es| - 1]) && GoodEntry(es[|es| - 1]))
  }

  ghost predicate GoodDraft(d: Draft) {
    && GoodEntries(d.entries)
    && |d.entries| == d.an + d.ns
    && Size(d) + Reserve(d) <= d.limit
  }

  function BodyLen(es: seq<Entry>): nat {
    if es == [] then 0 else BodyLen(es[..|es| - 1]) + EntryLen(es[|es| - 1])
  }

  function Body(es: seq<Entry>): (r: seq<byte>)
    requires GoodEntries(es)
    ensures |r| == BodyLen(es)
  {
    if es == [] then [] else Body(es[..|es| - 1]) + EntryBytes(es[|es| - 1])
  }

  function Size(d: Draft): nat {
    HEADER_LEN + |d.question| + BodyLen(d.entries)
  }

  function Reserve(d: Draft): nat {
    if d.edns then OPT_LEN else 0
  }

  /** The room records still have, the place of the OPT record kept free. */
  function Room(d: Draft): nat {
    Max(0, d.limit - (Size(d) + Reserve(d)))
  }

  function Head(id: u16, flags: u16, qd: u16, an: nat, ns: nat, ar: nat): (r: seq<byte>)
    ensures |r| == HEADER_LEN
  {
    U16(id) + U16(flags) + U16(qd) + U16(an % 0x1_0000) + U16(ns % 0x1_0000) + U16(ar % 0x1_0000)
  }

  function Render(d: Draft, ar: nat): (r: seq<byte>)
    requires GoodEntries(d.entries)
    ensures |r| == Size(d)
  {
    Head(d.id, d.flags, d.qd, d.an, d.ns, ar) + (d.question + Body(d.entries))
  }

  /** The OPT record of the server: the root name, its own UDP size, no options. */
  const OPT_BYTES: seq<byte> := [0] + U16(TYPE_OPT) + U16(EDNS_MAX) + U32(0) + U16(0)

  /** The finished message. */
  function Final(d: Draft): seq<byte>
    requires GoodEntries(d.entries)
  {
    if d.edns then Render(d, 1) + OPT_BYTES else Render(d, 0)
  }

  // ---------- What the calls on a reply do to its draft ----------

  /** QR and AA set; opcode, RD and CD of the query; the code. */
  function ReplyFlags(flags: u16, rcode: Rcode): (r: u16)
    ensures IsReply(r) && r % 16 == rcode.Code()
  {
    0x8000 + 0x400 + flags / 0x800 % 16 * 0x800 + flags / 0x100 % 2 * 0x100 + flags / 0x10 % 2 * 0x10 + rcode.Code()
  }

  function BareDraft(id: u16, flags: u16, rcode: Rcode, limit: nat): Draft {
    Draft(id, ReplyFlags(flags, rcode), 0, [], [], 0, 0, limit, false)
  }

  function StartDraft(q: Query, limit: nat): Draft {
    Draft(q.id, ReplyFlags(q.flags, NoError), 1, q.question, [], 0, 0, limit, q.edns.Some?)
  }

  function WithRcode(d: Draft, rcode: Rcode): Draft {
    d.(flags := d.flags - d.flags % 16 + rcode.Code())
  }

  function WithAnswer(d: Draft, e: Entry): Draft {
    d.(entries := d.entries + [e], an := d.an + 1)
  }

  function WithAuthority(d: Draft, e: Entry): Draft {
    d.(entries := d.entries + [e], ns := d.ns + 1)
  }

  function AnswerA(d: Draft, ip: Ip, ttl: u32): Result<Draft> {
    if 16 > Room(d) then Err(NoRoom) else Ok(WithAnswer(d, AddressEntry(ip, ttl)))
  }

  function AnswerCname(d: Draft, target: Text, ttl: u32): Result<Draft> {
    match NameBytes(target, NAME_MAX + 1)
    case Err(e) => Err(e)
    case Ok(w) => if 12 + |w| > Room(d) then Err(NoRoom) else Ok(WithAnswer(d, CnameEntry(LabelsOf(target), ttl)))
  }

  function AuthoritySoa(d: Draft, zone: Text, ttl: u32): Result<Draft> {
    match NameBytes(zone, SOA_SCRATCH)
    case Err(e) => Err(e)
    case Ok(w) =>
      if |w| > SOA_ZONE_MAX || 3 * |w| + 44 > Room(d) then Err(NoRoom)
      else Ok(WithAuthority(d, SoaEntry(LabelsOf(zone), ttl)))
  }

  lemma BodyGrows(es: seq<Entry>, e: Entry)
    requires GoodEntry(e) && GoodEntries(es)
    ensures GoodEntries(es + [e]) && BodyLen(es + [e]) == BodyLen(es) + EntryLen(e)
    ensures Body(es + [e]) == Body(es) + EntryBytes(e)
  {
    assert (es + [e])[..|es|] == es;
  }

  lemma {:induction false} BodyLenConcat(a: seq<Entry>, b: seq<Entry>)
    ensures BodyLen(a + b) == BodyLen(a) + BodyLen(b)
    decreases |b|
  {
    if b == [] {
      assert a + b == a;
    } else {
      assert (a + b)[..|a + b| - 1] == a + b[..|b| - 1];
      BodyLenConcat(a, b[..|b| - 1]);
    }
  }

  lemma GrowGood(d: Draft, e: Entry)
    requires GoodDraft(d) && GoodEntry(e) && EntryLen(e) <= Room(d)
    ensures GoodDraft(WithAnswer(d, e)) && GoodDraft(WithAuthority(d, e))
    ensures Size(WithAnswer(d, e)) == Size(WithAuthority(d, e)) == Size(d) + EntryLen(e)
  {
    BodyGrows(d.entries, e);
  }

  /** Every call that succeeds leaves a good draft: within its limit, the place of the OPT record kept free. */
  lemma CallsKeepDraftsGood(d: Draft, ip: Ip, name: Text, ttl: u32)
    requires GoodDraft(d)
    ensures AnswerA(d, ip, ttl).Ok? ==> GoodDraft(AnswerA(d, ip, ttl).value)
    ensures AnswerCname(d, name, ttl).Ok? ==> GoodDraft(AnswerCname(d, name, ttl).value)
    ensures AuthoritySoa(d, name, ttl).Ok? ==> GoodDraft(AuthoritySoa(d, name, ttl).value)
  {
    NameBytesMeaning(name, NAME_MAX + 1);
    NameBytesMeaning(name, SOA_SCRATCH);
    if AnswerA(d, ip, ttl).Ok? {
      GrowGood(d, AddressEntry(ip, ttl));
    }
    if AnswerCname(d, name, ttl).Ok? {
      GrowGood(d, CnameEntry(LabelsOf(name), ttl));
    }
    if AuthoritySoa(d, name, ttl).Ok? {
      GrowGood(d, SoaEntry(LabelsOf(name), ttl));
    }
  }

  lemma {:induction false} EntriesTakeRoom(es: seq<Entry>)
    ensures 13 * |es| <= BodyLen(es)
    decreases |es|
  {
    if es != [] {
      EntriesTakeRoom(es[..|es| - 1]);
      match es[|es| - 1]
      case AddressEntry(_, _) =>
      case CnameEntry(target, _) => WireLenAtLeast(target);
      case SoaEntry(zone, _) => WireLenAtLeast(zone);
    }
  }

  lemma CountsFit(d: Draft)
    requires GoodDraft(d) && d.limit < 0x1_0000
    ensures d.an + d.ns < 0xFFFF
  {
    EntriesTakeRoom(d.entries);
  }
}
