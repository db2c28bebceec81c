/** The reply that is built in place (`Reply` of src/wire.rs). */
module Replies {
  import opened Basics
  import opened Names
  import opened Reading
  import opened Writing

  // Overwriting one of the header fields changes that field only.

  lemma HeadFlags(id: u16, flags: u16, qd: u16, an: nat, ns: nat, ar: nat, v: u16)
    ensures Splice(Head(id, flags, qd, an, ns, ar), 2, U16(v)) == Head(id, v, qd, an, ns, ar)
  {
    hide U16;
  }

  lemma HeadQd(id: u16, flags: u16, qd: u16, an: nat, ns: nat, ar: nat, v: u16)
    ensures Splice(Head(id, flags, qd, an, ns, ar), 4, U16(v)) == Head(id, flags, v, an, ns, ar)
  {
    hide U16;
  }

  lemma HeadAn(id: u16, flags: u16, qd: u16, an: nat, ns: nat, ar: nat, v: u16)
    ensures Splice(Head(id, flags, qd, an, ns, ar), 6, U16(v)) == Head(id, flags, qd, v, ns, ar)
  {
    hide U16;
  }

  lemma HeadNs(id: u16, flags: u16, qd: u16, an: nat, ns: nat, ar: nat, v: u16)
    ensures Splice(Head(id, flags, qd, an, ns, ar), 8, U16(v)) == Head(id, flags, qd, an, v, ar)
  {
    hide U16;
  }

  lemma HeadAr(id: u16, flags: u16, qd: u16, an: nat, ns: nat, ar: nat, v: u16)
    ensures Splice(Head(id, flags, qd, an, ns, ar), 10, U16(v)) == Head(id, flags, qd, an, ns, v)
  {
    hide U16;
  }

  /** Writing into the first part of a text leaves the second part alone. */
  lemma SpliceFirst(a: seq<byte>, b: seq<byte>, at: nat, v: seq<byte>)
    requires at + |v| <= |a|
    ensures Splice(a + b, at, v) == Splice(a, at, v) + b
  {
  }

  /** What is written at `at` stands behind what stood from `start` on. */
  lemma SpliceFrom(s: seq<byte>, start: nat, at: nat, bytes: seq<byte>)
    requires start <= at && at + |bytes| <= |s|
    ensures Splice(s, at, bytes)[..start] == s[..start]
    ensures Splice(s, at, bytes)[start..at + |bytes|] == s[start..at] + bytes
  {
  }

  lemma RenderAnswer(d: Draft, e: Entry, s: seq<byte>, bytes: seq<byte>)
    requires GoodEntry(e) && GoodEntries(d.entries)
    requires d.an < 0xFFFF && s == Render(d, 0) && bytes == EntryBytes(e)
    ensures GoodEntries(WithAnswer(d, e).entries)
    ensures Splice(s + bytes, 6, U16(d.an + 1)) == Render(WithAnswer(d, e), 0)
  {
    hide Splice, EntryBytes, Body, Head;
    BodyGrows(d.entries, e);
    HeadAn(d.id, d.flags, d.qd, d.an, d.ns, 0, d.an + 1);
    SpliceParts(Head(d.id, d.flags, d.qd, d.an, d.ns, 0), d.question, Body(d.entries), EntryBytes(e), 6, U16(d.an + 1));
  }

  lemma RenderAuthority(d: Draft, e: Entry, s: seq<byte>, bytes: seq<byte>)
    requires GoodEntry(e) && GoodEntries(d.entries)
    requires d.ns < 0xFFFF && s == Render(d, 0) && bytes == EntryBytes(e)
    ensures GoodEntries(WithAuthority(d, e).entries)
    ensures Splice(s + bytes, 8, U16(d.ns + 1)) == Render(WithAuthority(d, e), 0)
  {
    hide Splice, EntryBytes, Body, Head;
    BodyGrows(d.entries, e);
    HeadNs(d.id, d.flags, d.qd, d.an, d.ns, 0, d.ns + 1);
    SpliceParts(Head(d.id, d.flags, d.qd, d.an, d.ns, 0), d.question, Body(d.entries), EntryBytes(e), 8, U16(d.ns + 1));
  }

  lemma SpliceParts(head: seq<byte>, question: seq<byte>, body: seq<byte>, more: seq<byte>, at: nat, v: seq<byte>)
    requires at + |v| <= |head|
    ensures Splice(head + (question + body) + more, at, v) == Splice(head, at, v) + (question + (body + more))
  {
    Regroup(head, question + body, more);
    Regroup(question, body, more);
    SpliceFirst(head, question + body + more, at, v);
  }

  lemma RenderFlags(d: Draft, flags: u16)
    requires GoodEntries(d.entries)
    ensures Be16(Render(d, 0), 2) == Some(d.flags)
    ensures Splice(Render(d, 0), 2, U16(flags)) == Render(d.(flags := flags), 0)
  {
    var head, head' := Head(d.id, d.flags, d.qd, d.an, d.ns, 0), Head(d.id, flags, d.qd, d.an, d.ns, 0);
    HeadFlags(d.id, d.flags, d.qd, d.an, d.ns, 0, flags);
    SpliceFirst(head, d.question + Body(d.entries), 2, U16(flags));
    FlagsInHead(d.id, d.flags, d.qd, d.an, d.ns, d.question + Body(d.entries));
  }

  /** A new code changes the last four bits of the fourth byte of a message, and no others of it. */
  lemma CodeInByte(s: seq<byte>, rcode: Rcode)
    requires |s| >= 4
    ensures var flags := Be16(s, 2).value;
            var t := Splice(s, 2, U16(flags - flags % 16 + rcode.Code()));
            t[3] / 16 == s[3] / 16 && t[3] % 16 == rcode.Code()
  {
    hide Rcode.Code, U16;
    var flags := Be16(s, 2).value;
    var two := U16(flags - flags % 16 + rcode.Code());
    LowByte(s[2], s[3] / 16, s[3] % 16, rcode.Code());
    assert Splice(s, 2, two)[3] == two[1];
  }

  lemma LowByte(high: nat, q: nat, r: nat, code: nat)
    requires high < 256 && q < 16 && r < 16 && code < 16
    ensures var flags: u16 := high * 256 + q * 16 + r;
            var two := U16(flags - flags % 16 + code);
            two[1] / 16 == q && two[1] % 16 == code
  {
    var flags: u16 := high * 256 + q * 16 + r;
    assert flags == (high * 16 + q) * 16 + r;
    assert flags - flags % 16 + code == high * 256 + (q * 16 + code);
    assert U16(high * 256 + (q * 16 + code))[1] == q * 16 + code;
  }

  lemma FlagsInHead(id: u16, flags: u16, qd: u16, an: nat, ns: nat, rest: seq<byte>)
    ensures Be16(Head(id, flags, qd, an, ns, 0) + rest, 2) == Some(flags)
  {
    var m := Head(id, flags, qd, an, ns, 0) + rest;
    assert m[2..4] == U16(flags);
    Be16Reads(m, 2, flags);
  }

  /** Writes a label and then a zone behind it (`put_soa_name`); the prefix is given with its final dot. */
  method PutSoaName(out: array<byte>, at: nat, prefix: Label, zone: Text) returns (r: Result<nat>)
    requires 1 <= |StripDot(prefix)| <= LABEL_MAX && WireName(LabelsOf(zone))
    modifies out
    ensures var name := [StripDot(prefix)] + LabelsOf(zone);
            && GoodLabels(name)
            && (if at + WireLen(name) > out.Length then r == Err(NoRoom)
                else
                  && r == Ok(at + WireLen(name))
                  && out[..at] == old(out[..at]) && out[at..r.value] == Encode(name))
  {
    hide Splice, Encode, WireLen, LabelsOf, NameBytes;
    var l := StripDot(prefix);
    PrefixedName(l, LabelsOf(zone));
    if at + 1 + |l| > out.Length {
      return Err(NoRoom);
    }
    ghost var was := out[..];
    Copy(out, at, [|l|] + l);
    ghost var room := out.Length - (at + 1 + |l|);
    NameBytesMeaning(zone, room);
    if NameBytes(zone, room).Err? {
      NoRoomOnly(zone, room);
    } else {
      SpliceNext(was, at, [|l|] + l, Encode(LabelsOf(zone)));
      SpliceSlices(was, at, [|l|] + l + Encode(LabelsOf(zone)));
    }
    r := PutName(out, at + 1 + |l|, zone);
  }

  lemma PrefixedName(l: Label, ls: seq<Label>)
    requires 1 <= |l| <= LABEL_MAX && GoodLabels(ls)
    ensures GoodLabels([l] + ls) && Encode([l] + ls) == [|l|] + l + Encode(ls)
    ensures WireLen([l] + ls) == 1 + |l| + WireLen(ls) && WireLen(ls) >= 1
  {
    assert ([l] + ls)[1..] == ls;
    WireLenAtLeast(ls);
  }

  /** A well-formed name can only fail for lack of room. */
  lemma NoRoomOnly(name: Text, room: int)
    requires WireName(LabelsOf(name)) && NameBytes(name, room).Err?
    ensures NameBytes(name, room) == Err(NoRoom)
  {
    PutLabelsNoRoomOnly(LabelsOf(name), room);
    PutLabelsMeaning(LabelsOf(name), room);
  }

  lemma {:induction false} PutLabelsNoRoomOnly(ls: seq<Label>, room: int)
    requires GoodLabels(ls)
    ensures PutLabels(ls, room).Err? ==> PutLabels(ls, room) == Err(NoRoom)
    decreases |ls|
  {
    if ls != [] {
      PutLabelsNoRoomOnly(ls[1..], room - 1 - |ls[0]|);
    }
  }

  /** A header with id and flags, and every count zero. */
  method PutHead(buf: array<byte>, id: u16, flags: u16)
    requires HEADER_LEN <= buf.Length
    modifies buf
    ensures buf[..HEADER_LEN] == Head(id, flags, 0, 0, 0, 0)
  {
    hide U16, Head;
    var zeros := seq(HEADER_LEN, i => 0);
    Copy(buf, 0, zeros);
    ghost var s := buf[..];
    Copy(buf, 0, U16(id));
    Copy(buf, 2, U16(flags));
    HeadFromZeros(s, id, flags);
  }

  lemma HeadFromZeros(s: seq<byte>, id: u16, flags: u16)
    requires HEADER_LEN <= |s| && forall i :: 0 <= i < HEADER_LEN ==> s[i] == 0
    ensures Splice(Splice(s, 0, U16(id)), 2, U16(flags))[..HEADER_LEN] == Head(id, flags, 0, 0, 0, 0)
  {
    var (a, b, zeros) := (U16(id), U16(flags), s[4..HEADER_LEN]);
    assert U16(0) == [0, 0];
    assert zeros == [0, 0] + [0, 0] + [0, 0] + [0, 0];
    assert Head(id, flags, 0, 0, 0, 0) == a + b + zeros;
    hide U16, Head;
    assert Splice(Splice(s, 0, a), 2, b)[..HEADER_LEN] == a + b + zeros;
  }

  class Reply {
    const buf: array<byte>
    const limit: nat
    var len: nat
    var an: nat
    var ns: nat
    var ar: nat
    var edns: Option<u16>
    /** What the bytes written so far mean. */
    ghost var draft: Draft

    ghost predicate Valid()
      reads this, buf
    {
      && GoodDraft(draft) && draft.limit == limit <= buf.Length
      && len == Size(draft) && buf[..len] == Render(draft, 0)
      && an == draft.an && ns == draft.ns && ar == 0 && an <= 0xFFFF && ns <= 0xFFFF
      && edns.Some? == draft.edns
    }

    constructor (buf: array<byte>, id: u16, flags: u16, rcode: Rcode, limit: nat)
      requires HEADER_LEN <= limit <= buf.Length
      modifies buf
      ensures this.buf == buf && Valid() && draft == BareDraft(id, flags, rcode, limit) && edns == None
    {
      this.buf, this.limit, len := buf, limit, HEADER_LEN;
      an, ns, ar, edns := 0, 0, 0, None;
      draft := BareDraft(id, flags, rcode, limit);
      new;
      PutHead(buf, id, ReplyFlags(flags, rcode));
      Regroup(Head(id, ReplyFlags(flags, rcode), 0, 0, 0, 0), [], []);
    }

    /** A reply without question section; only a buffer without room for the header refuses it. */
    static method Bare(buf: array<byte>, id: u16, flags: u16, rcode: Rcode, limit: nat) returns (r: Result<Reply>)
      modifies buf
      ensures r.Ok? <==> HEADER_LEN <= Min(limit, buf.Length)
      ensures r.Err? ==> r == Err(NoRoom)
      ensures r.Ok? ==> var reply := r.value;
                        && fresh(reply) && reply.buf == buf && reply.Valid()
                        && reply.draft == BareDraft(id, flags, rcode, Min(limit, buf.Length))
    {
      var most := Min(limit, buf.Length);
      if most < HEADER_LEN {
        return Err(NoRoom);
      }
      var reply := new Reply(buf, id, flags, rcode, most);
      return Ok(reply);
    }

    /** The reply to a parsed query: header, then the question as it came. */
    static method Start(buf: array<byte>, q: Query, limit: nat) returns (r: Result<Reply>)
      modifies buf
      ensures r.Ok? <==> HEADER_LEN + |q.question| + Reserve(StartDraft(q, 0)) <= Min(limit, buf.Length)
      ensures r.Err? ==> r == Err(NoRoom)
      ensures r.Ok? ==> var reply := r.value;
                        && fresh(reply) && reply.buf == buf && reply.Valid()
                        && reply.draft == StartDraft(q, Min(limit, buf.Length))
    {
      var most := Min(limit, buf.Length);
      var bare := Bare(buf, q.id, q.flags, NoError, most);
      if bare.Err? {
        return Err(NoRoom);
      }
      var reply := bare.value;
      var end := HEADER_LEN + |q.question|;
      if end + (if q.edns.Some? then OPT_LEN else 0) > reply.limit {
        return Err(NoRoom);
      }
      reply.Ask(q, most);
      return Ok(reply);
    }

    method Ask(q: Query, ghost most: nat)
      requires Valid() && draft == BareDraft(q.id, q.flags, NoError, most)
      requires HEADER_LEN + |q.question| + Reserve(StartDraft(q, most)) <= limit
      modifies this`len, this`edns, this`draft, buf
      ensures Valid() && draft == StartDraft(q, most)
    {
      ghost var flags := ReplyFlags(q.flags, NoError);
      ghost var head := Head(q.id, flags, 0, 0, 0, 0);
      assert [] + Body([]) == [] && head + [] == head;
      HeadQd(q.id, flags, 0, 0, 0, 0, 1);
      SpliceFirst(head, q.question, 4, U16(1));
      edns := q.edns;
      Write(len, len, q.question);
      Extend(|q.question|, 4, 1);
      draft := StartDraft(q, most);
      assert q.question + Body([]) == q.question;
    }

    /** Writes a count, or the flags, into the header. */
    method SetCount(at: nat, n: u16)
      requires at + 2 <= HEADER_LEN <= len <= buf.Length
      modifies buf
      ensures buf[..len] == Splice(old(buf[..len]), at, U16(n))
    {
      Copy(buf, at, U16(n));
    }

    method SetRcode(rcode: Rcode)
      requires Valid()
      modifies buf, this`draft
      ensures Valid() && draft == WithRcode(old(draft), rcode)
      ensures buf.Length >= 4 && buf[3] / 16 == old(buf[3]) / 16
              && buf[3] % 16 == (match rcode
                                 case NoError => 0
                                 case FormErr => 1
                                 case ServFail => 2
                                 case NxDomain => 3
                                 case NotImp => 4
                                 case Refused => 5)
    {
      hide Splice, Render, U16;
      RenderFlags(draft, WithRcode(draft, rcode).flags);
      assert buf[..len][2] == buf[2] && buf[..len][3] == buf[3];
      var flags := Be16(buf[..len], 2).value;
      CodeInByte(buf[..len], rcode);
      SetCount(2, flags - flags % 16 + rcode.Code());
      assert buf[3] == buf[..len][3];
      draft := WithRcode(draft, rcode);
    }

    /** The room that records still have. */
    method FreeRoom() returns (r: nat)
      requires Valid()
      ensures r == Room(draft)
    {
      var reserve := if edns.Some? then OPT_LEN else 0;
      r := Max(0, limit - (len + reserve));
    }

    /** Writes bytes behind the message, next to what was written from `start` on. */
    method Write(ghost start: nat, at: nat, bytes: seq<byte>)
      requires len <= start <= at && at + |bytes| <= buf.Length
      modifies buf
      ensures buf[..start] == old(buf[..start]) && buf[..len] == old(buf[..len])
      ensures buf[start..at + |bytes|] == old(buf[start..at]) + bytes
    {
      ghost var was := buf[..];
      Copy(buf, at, bytes);
      SpliceFrom(was, start, at, bytes);
      assert buf[..][..start] == buf[..start] && buf[..][start..at + |bytes|] == buf[start..at + |bytes|];
      assert was[..start] == old(buf[..start]) && was[start..at] == old(buf[start..at]);
      assert buf[..len] == buf[..start][..len];
    }

    /** Writes the head of a record behind the message: pointer to the question, type, class, TTL, data length. */
    method RrHead(rtype: u16, ttl: u32, rdlen: u16) returns (r: Result<nat>)
      requires Valid()
      modifies buf
      ensures Valid() && r == if 12 + rdlen > Room(draft) then Err(NoRoom) else Ok(len + 12)
      ensures r.Ok? ==> buf[len..len + 12] == QNAME_PTR + RecordHead(rtype, ttl, rdlen)
    {
      hide Render, GoodEntries;
      var room := FreeRoom();
      if 12 + rdlen > room {
        return Err(NoRoom);
      }
      Write(len, len, QNAME_PTR + RecordHead(rtype, ttl, rdlen));
      return Ok(len + 12);
    }

    /** Takes the `n` bytes behind the message into it and writes the new count into the header. */
    method Extend(n: nat, at: nat, count: u16)
      requires at + 2 <= HEADER_LEN <= len && len + n <= buf.Length
      modifies this`len, buf
      ensures len == old(len) + n && buf[..len] == Splice(old(buf[..len]) + old(buf[len..len + n]), at, U16(count))
    {
      assert buf[..len + n] == buf[..len] + buf[len..len + n];
      len := len + n;
      SetCount(at, count);
    }

    /** Takes the record `e`, written behind the message, into it as an answer. */
    method TakeAnswer(n: nat, ghost e: Entry)
      requires Valid() && an < 0xFFFF
      requires GoodEntry(e) && n == EntryLen(e) <= Room(draft) && buf[len..len + n] == EntryBytes(e)
      modifies this`len, this`an, this`draft, buf
      ensures Valid() && draft == WithAnswer(old(draft), e)
    {
      hide Splice, Render, EntryBytes;
      ghost var d := WithAnswer(draft, e);
      GrowGood(draft, e);
      RenderAnswer(draft, e, buf[..len], EntryBytes(e));
      an := an + 1;
      Extend(n, 6, an);
      draft := d;
    }

    method TakeAuthority(n: nat, ghost e: Entry)
      requires Valid() && ns < 0xFFFF
      requires GoodEntry(e) && n == EntryLen(e) <= Room(draft) && buf[len..len + n] == EntryBytes(e)
      modifies this`len, this`ns, this`draft, buf
      ensures Valid() && draft == WithAuthority(old(draft), e)
    {
      hide Splice, Render, EntryBytes;
      ghost var d := WithAuthority(draft, e);
      GrowGood(draft, e);
      RenderAuthority(draft, e, buf[..len], EntryBytes(e));
      ns := ns + 1;
      Extend(n, 8, ns);
      draft := d;
    }

    /** An address record for the name asked for; on `NoRoom` the message stays as it was. */
    method AddA(ip: Ip, ttl: u32) returns (r: Result<()>)
      requires Valid() && an < 0xFFFF
      modifies this`len, this`an, this`draft, buf
      ensures Valid()
      ensures match AnswerA(old(draft), ip, ttl)
              case Ok(d) => r == Ok(()) && draft == d
              case Err(e) => r == Err(e) && draft == old(draft)
    {
      hide Render, RecordHead, Octets;
      var at := RrHead(TYPE_A, ttl, 4);
      if at.Err? {
        return Err(at.error);
      }
      Write(len, at.value, Octets(ip));
      TakeAnswer(16, AddressEntry(ip, ttl));
      return Ok(());
    }

    method AddCname(target: Text, ttl: u32) returns (r: Result<()>)
      requires Valid() && an < 0xFFFF
      modifies this`len, this`an, this`draft, buf
      ensures Valid()
      ensures match AnswerCname(old(draft), target, ttl)
              case Ok(d) => r == Ok(()) && draft == d
              case Err(e) => r == Err(e) && draft == old(draft)
    {
      hide Splice, Render, Encode, WireLen, LabelsOf, NameBytes, EntryBytes, RecordHead;
      var tmp := new byte[NAME_MAX + 1](i => 0);
      ghost var blank := tmp[..];
      NameBytesMeaning(target, NAME_MAX + 1);
      var put := PutName(tmp, 0, target);
      if put.Err? {
        return Err(put.error);
      }
      var n := put.value;
      var rdata := tmp[..n];
      SpliceSlices(blank, 0, Encode(LabelsOf(target)));
      assert rdata == tmp[..][0..n];
      CnameForm(LabelsOf(target), ttl);
      var at := RrHead(TYPE_CNAME, ttl, n);
      if at.Err? {
        return Err(at.error);
      }
      Write(len, at.value, rdata);
      TakeAnswer(12 + n, CnameEntry(LabelsOf(target), ttl));
      return Ok(());
    }

    /** The SOA record of `zone` in the authority section, built in a scratch buffer first. */
    method AddSoa(zone: Text, ttl: u32) returns (r: Result<()>)
      requires Valid() && ns < 0xFFFF
      modifies this`len, this`ns, this`draft, buf
      ensures Valid()
      ensures match AuthoritySoa(old(draft), zone, ttl)
              case Ok(d) => r == Ok(()) && draft == d
              case Err(e) => r == Err(e) && draft == old(draft)
    {
      hide Render, EntryBytes, GoodEntries, LabelsOf;
      var tmp := new byte[SOA_SCRATCH](i => 0);
      var built := BuildSoa(tmp, zone, ttl);
      if built.Err? {
        return Err(built.error);
      }
      var n := built.value;
      var room := FreeRoom();
      if n > room {
        return Err(NoRoom);
      }
      Write(len, len, tmp[..n]);
      TakeAuthority(n, SoaEntry(LabelsOf(zone), ttl));
      return Ok(());
    }

    method Answers() returns (n: nat)
      requires Valid()
      ensures n == draft.an
    {
      n := an;
    }

    /** Closes the message: with an OPT record when the query had one. Nothing is called on the reply after this. */
    method Finish() returns (n: nat)
      requires Valid()
      modifies this, buf
      ensures n <= limit && n <= buf.Length && buf[..n] == Final(old(draft))
    {
      hide Render, GoodEntries, Splice;
      if edns.Some? {
        RenderOpt(draft);
        ar := ar + 1;
        Write(len, len, OPT_BYTES);
        assert buf[len..len + OPT_LEN] == OPT_BYTES;
        Extend(OPT_LEN, 10, ar);
      }
      return len;
    }
  }

  lemma RenderOpt(d: Draft)
    requires GoodEntries(d.entries)
    ensures Splice(Render(d, 0) + OPT_BYTES, 10, U16(1)) == Render(d, 1) + OPT_BYTES
  {
    var head, head' := Head(d.id, d.flags, d.qd, d.an, d.ns, 0), Head(d.id, d.flags, d.qd, d.an, d.ns, 1);
    HeadAr(d.id, d.flags, d.qd, d.an, d.ns, 0, 1);
    var tail := d.question + Body(d.entries);
    SpliceFirst(head, tail + OPT_BYTES, 10, U16(1));
    Regroup(head, tail, OPT_BYTES);
    Regroup(head', tail, OPT_BYTES);
  }

  /** The whole SOA record in the scratch buffer: owner, data, and last the head between them. */
  method BuildSoa(tmp: array<byte>, zone: Text, ttl: u32) returns (r: Result<nat>)
    requires tmp.Length == SOA_SCRATCH
    modifies tmp
    ensures match NameBytes(zone, SOA_SCRATCH)
            case Err(e) => r == Err(e)
            case Ok(w) =>
              if |w| > SOA_ZONE_MAX then r == Err(NoRoom)
              else
                && WireName(LabelsOf(zone)) && |w| == WireLen(LabelsOf(zone))
                && r == Ok(3 * |w| + 44)
                && tmp[..3 * |w| + 44] == EntryBytes(SoaEntry(LabelsOf(zone), ttl))
  {
    hide Splice, Encode, WireLen, LabelsOf, NameBytes, SoaData, RecordHead, Numbers, EntryBytes, EntryLen, GoodLabels;
    NameBytesMeaning(zone, SOA_SCRATCH);
    var owner := PutName(tmp, 0, zone);
    if owner.Err? {
      return owner;
    }
    var n := owner.value;
    ghost var ls := LabelsOf(zone);
    SpliceSlices(old(tmp[..]), 0, Encode(ls));
    assert tmp[..n] == tmp[..][0..n];
    ghost var front := tmp[..n + 10];
    assert front[..n] == tmp[..n] == Encode(ls);
    var data := PutSoaData(tmp, n, zone, ttl);
    if data.Err? {
      return data;
    }
    var at := data.value;
    assert tmp[..n] == tmp[..n + 10][..n] == Encode(ls);
    PutSoaHead(tmp, n, at, ttl);
    assert tmp[..at] == Encode(ls) + RecordHead(TYPE_SOA, ttl, at - (n + 10)) + SoaData(ls, ttl);
    SoaForm(ls, ttl);
    return Ok(at);
  }

  lemma SoaForm(ls: seq<Label>, ttl: u32)
    requires WireName(ls)
    ensures EntryBytes(SoaEntry(ls, ttl))
            == Encode(ls) + RecordHead(TYPE_SOA, ttl, 2 * WireLen(ls) + 34) + SoaData(ls, ttl)
  {
    hide Encode, WireLen, RecordHead, SoaData;
  }

  lemma CnameForm(ls: seq<Label>, ttl: u32)
    requires WireName(ls)
    ensures EntryBytes(CnameEntry(ls, ttl)) == QNAME_PTR + RecordHead(TYPE_CNAME, ttl, WireLen(ls)) + Encode(ls)
  {
    hide Encode, WireLen, RecordHead;
  }

  /** Fills in the ten bytes between the owner name and the data. */
  method PutSoaHead(tmp: array<byte>, n: nat, at: nat, ttl: u32)
    requires n + 10 <= at <= tmp.Length <= 0xFFFF
    modifies tmp
    ensures tmp[..at] == old(tmp[..n]) + RecordHead(TYPE_SOA, ttl, at - (n + 10)) + old(tmp[n + 10..at])
  {
    hide Splice, RecordHead;
    var head := RecordHead(TYPE_SOA, ttl, at - (n + 10));
    SpliceTake(tmp[..], n, head, at);
    assert tmp[..][n + 10..at] == tmp[n + 10..at] && tmp[..][..n] == tmp[..n];
    Copy(tmp, n, head);
    assert tmp[..][..at] == tmp[..at];
  }

  /** The SOA data, ten bytes behind the owner name: two names and five numbers. */
  method PutSoaData(tmp: array<byte>, n: nat, zone: Text, ttl: u32) returns (r: Result<nat>)
    requires tmp.Length == SOA_SCRATCH && WireName(LabelsOf(zone)) && n == WireLen(LabelsOf(zone))
    modifies tmp
    ensures if n > SOA_ZONE_MAX then r == Err(NoRoom)
            else
              && r == Ok(3 * n + 44)
              && tmp[..n + 10] == old(tmp[..n + 10])
              && tmp[n + 10..3 * n + 44] == SoaData(LabelsOf(zone), ttl)
  {
    hide Encode, WireLen, LabelsOf, SoaData, Numbers;
    var names := PutSoaNames(tmp, n, zone);
    if names.Err? {
      return names;
    }
    ghost var was := tmp[..names.value];
    assert was[..n + 10] == tmp[..n + 10] && was[n + 10..] == tmp[n + 10..names.value];
    r := PutTimes(tmp, names.value, [1, ttl, ttl, ttl, ttl]);
    if r.Ok? {
      SoaDataParts(LabelsOf(zone), ttl);
      assert tmp[..n + 10] == was[..n + 10];
      assert tmp[n + 10..r.value] == was[n + 10..] + tmp[names.value..r.value];
    }
  }

  /** The two names of the SOA data, ten bytes behind the owner name. */
  method PutSoaNames(tmp: array<byte>, n: nat, zone: Text) returns (r: Result<nat>)
    requires tmp.Length == SOA_SCRATCH && WireName(LabelsOf(zone)) && n == WireLen(LabelsOf(zone))
    modifies tmp
    ensures if 3 * n + 24 > SOA_SCRATCH then r == Err(NoRoom)
            else
              && r == Ok(3 * n + 24) && GoodLabels([NS] + LabelsOf(zone)) && GoodLabels([HOSTMASTER] + LabelsOf(zone))
              && tmp[..n + 10] == old(tmp[..n + 10])
              && tmp[n + 10..3 * n + 24] == Encode([NS] + LabelsOf(zone)) + Encode([HOSTMASTER] + LabelsOf(zone))
  {
    hide Splice, Encode, LabelsOf, WireLen, GoodLabels, StripDot;
    PrefixedName(NS, LabelsOf(zone));
    PrefixedName(HOSTMASTER, LabelsOf(zone));
    StripAdded(NS);
    StripAdded(HOSTMASTER);
    r := PutSoaName(tmp, n + 10, NS + [DOT], zone);
    assert r == Ok(2 * n + 13);
    r := PutHostmaster(tmp, n + 10, 2 * n + 13, zone);
  }

  /** The second name of the SOA data, at `at`; what was written from `start` on stands in front of it. */
  method PutHostmaster(tmp: array<byte>, ghost start: nat, at: nat, zone: Text) returns (r: Result<nat>)
    requires start <= at <= tmp.Length && WireName(LabelsOf(zone))
    modifies tmp
    ensures GoodLabels([HOSTMASTER] + LabelsOf(zone))
    ensures var end := at + WireLen([HOSTMASTER] + LabelsOf(zone));
            if end > tmp.Length then r == Err(NoRoom)
            else
              && r == Ok(end) && tmp[..start] == old(tmp[..start])
              && tmp[start..end] == old(tmp[start..at]) + Encode([HOSTMASTER] + LabelsOf(zone))
  {
    hide Encode, LabelsOf, WireLen, GoodLabels, StripDot;
    StripAdded(HOSTMASTER);
    ghost var was := tmp[..];
    r := PutSoaName(tmp, at, HOSTMASTER + [DOT], zone);
    if r.Ok? {
      assert tmp[..][..at] == tmp[..at] && was[..at] == old(tmp[..at]);
      Rejoined(was, tmp[..], start, at, r.value);
    }
  }

  lemma StripAdded(l: Label)
    ensures StripDot(l + [DOT]) == l
  {
  }

  /** Pieces of a text of which everything from `j` on was written anew. */
  lemma Rejoined(was: seq<byte>, s: seq<byte>, i: nat, j: nat, k: nat)
    requires i <= j <= k <= |s| == |was| && s[..j] == was[..j]
    ensures s[..i] == was[..i] && s[i..k] == was[i..j] + s[j..k]
  {
    assert forall x :: 0 <= x < j ==> s[x] == s[..j][x] == was[..j][x] == was[x];
  }

  function Numbers(values: seq<u32>): (r: seq<byte>)
    ensures |r| == 4 * |values|
  {
    if values == [] then [] else Numbers(values[..|values| - 1]) + U32(values[|values| - 1])
  }

  method PutTimes(tmp: array<byte>, start: nat, values: seq<u32>) returns (r: Result<nat>)
    requires start <= tmp.Length
    modifies tmp
    ensures tmp[..start] == old(tmp[..start])
    ensures if start + 4 * |values| > tmp.Length then r == Err(NoRoom)
            else r == Ok(start + 4 * |values|) && tmp[start..r.value] == Numbers(values)
  {
    var at := start;
    for i := 0 to |values|
      invariant at == start + 4 * i <= tmp.Length
      invariant tmp[..start] == old(tmp[..start]) && tmp[start..at] == Numbers(values[..i])
    {
      if at + 4 > tmp.Length {
        return Err(NoRoom);
      }
      ghost var before := tmp[..at];
      Copy(tmp, at, U32(values[i]));
      assert tmp[..at] == before;
      assert tmp[..at][..start] == tmp[..start] && before[start..] == tmp[start..at];
      assert tmp[start..at + 4] == tmp[start..at] + U32(values[i]);
      assert values[..i + 1][..i] == values[..i];
      at := at + 4;
    }
    assert values[..|values|] == values;
    return Ok(at);
  }

  lemma SoaDataParts(ls: seq<Label>, ttl: u32)
    requires WireName(ls)
    ensures GoodLabels([NS] + ls) && GoodLabels([HOSTMASTER] + ls)
    ensures SoaData(ls, ttl) == Encode([NS] + ls) + Encode([HOSTMASTER] + ls) + Numbers([1, ttl, ttl, ttl, ttl])
  {
    PrefixedName(NS, ls);
    PrefixedName(HOSTMASTER, ls);
    var t: seq<u32> := [1, ttl, ttl, ttl, ttl];
    assert t[..4] == [1, ttl, ttl, ttl] && t[..4][..3] == [1, ttl, ttl] && t[..4][..3][..2] == [1, ttl];
    assert t[..4][..3][..2][..1] == [1];
    assert Numbers([1]) == U32(1);
    assert Numbers([1, ttl]) == U32(1) + U32(ttl);
    assert Numbers([1, ttl, ttl]) == U32(1) + U32(ttl) + U32(ttl);
    assert Numbers(t) == U32(1) + U32(ttl) + U32(ttl) + U32(ttl) + U32(ttl);
    assert Encode([NS] + ls) + Encode([HOSTMASTER] + ls) + Numbers(t) == SoaData(ls, ttl);
  }
}
