/**
 The server, after src/server.rs: one datagram in, at most one out. The functions say which records a query
 gets; the class `Server` writes them into the caller's buffer and is proved to write exactly those.
 */
module Servers {
  import opened Basics
  import opened Texts
  import opened Names
  import opened Reading
  import opened Caches
  import opened Cnames
  import opened Writing
  import opened Replies

  const TTL: u32 := 5
  const DEFAULT_DOMAIN: Text := [104, 111, 112, DOT, 108, 111, 99, 97, 108]

  /** What fits the largest message behind the shortest question, and the length of the row of seen addresses. */
  const MAX_ANSWERS: nat := (EDNS_MAX - HEADER_LEN - 5) / 16

  /** What a server knows besides the cache: its domain, in lower case without final dot, and its CNAMEs. */
  datatype Conf = Conf(domain: Text, pairs: Pairs)

  ghost predicate GoodConf(conf: Conf) {
    conf.domain != [] && GoodPairs(conf.pairs)
  }

  function DomainOf(text: Text): Text {
    var d := StripDot(Trim(text));
    Lower(if d == [] then DEFAULT_DOMAIN else d)
  }

  /**
   The domain of a server: the text without white space around it, without one final dot and with small letters;
   `hop.local` when nothing is left.
   */
  lemma DomainMeaning(text: Text, domain: Text)
    ensures DomainOf(text) == domain
            <==> NoCapitals(domain)
                 && exists t, d :: && Trimmed(text, t) && WithoutDot(t, d)
                                   && SameLetters(if d != [] then d else [104, 111, 112, 46, 108, 111, 99, 97, 108],
                                                  domain)
  {
    hide Trimmed, Trim, WithoutDot, StripDot, SameLetters, NoCapitals, Lower;
    TrimMeaning(text, Trim(text));
    DotMeaning(Trim(text), StripDot(Trim(text)));
    var d := StripDot(Trim(text));
    LowerMeaning(if d == [] then DEFAULT_DOMAIN else d, domain);
    forall t, n | Trimmed(text, t) && WithoutDot(t, n) ensures t == Trim(text) && n == d {
      TrimMeaning(text, t);
      DotMeaning(t, n);
    }
  }

  // ---------- A name in the domain ----------

  datatype Place = Apex | OneCluster(cluster: Text, service: Text) | EveryCluster(job: Text)

  /** What a name in the domain asks for; the first label is the service, all behind it the cluster. */
  function PlaceOf(domain: Text, name: Text): Place {
    if |name| < |domain| + 1 then Apex
    else
      var prefix := name[..|name| - (|domain| + 1)];
      match SplitOnce(prefix)
      case Some((service, cluster)) => OneCluster(cluster, service)
      case None => EveryCluster(prefix)
  }

  predicate Exists(c: Clusters, place: Place) {
    match place
    case Apex => true
    case OneCluster(cluster, service) => GetCluster(c, cluster, service).Some?
    case EveryCluster(job) => HasJob(c, job) || HasCluster(c, job)
  }

  function Addresses(c: Clusters, place: Place): seq<Ip> {
    match place
    case Apex => []
    case OneCluster(cluster, service) => GetCluster(c, cluster, service).GetOr([])
    case EveryCluster(job) => GetMerged(c, job)
  }

  predicate WantsAddresses(qtype: u16) {
    qtype == TYPE_A || qtype == TYPE_ANY
  }

  // ---------- Writing addresses ----------

  function AddressEntries(ips: seq<Ip>): (es: seq<Entry>)
    ensures |es| == |ips| && forall i :: 0 <= i < |ips| ==> es[i] == AddressEntry(ips[i], TTL)
  {
    if ips == [] then []
    else AddressEntries(ips[..|ips| - 1]) + [AddressEntry(ips[|ips| - 1], TTL)]
  }

  function Wrote(d: Draft, ips: seq<Ip>): Draft {
    d.(entries := d.entries + AddressEntries(ips), an := d.an + |ips|)
  }

  /** How many address records still fit. */
  function Fitting(d: Draft): nat {
    Room(d) / 16
  }

  /** The first addresses that fit, as answers. */
  function WriteAll(d: Draft, ips: seq<Ip>): Draft {
    Wrote(d, ips[..Min(|ips|, Fitting(d))])
  }

  lemma {:induction false} AddressEntriesLen(ips: seq<Ip>)
    ensures GoodEntries(AddressEntries(ips))
    ensures BodyLen(AddressEntries(ips)) == 16 * |ips|
    decreases |ips|
  {
    if ips != [] {
      AddressEntriesLen(ips[..|ips| - 1]);
      BodyGrows(AddressEntries(ips[..|ips| - 1]), AddressEntry(ips[|ips| - 1], TTL));
    }
  }

  /** One more address is accepted exactly while it fits; the draft grows by its sixteen bytes. */
  lemma WroteStep(d: Draft, ips: seq<Ip>, ip: Ip)
    requires GoodDraft(d) && |ips| <= Fitting(d)
    ensures AnswerA(Wrote(d, ips), ip, TTL)
            == if |ips| < Fitting(d) then Ok(Wrote(d, ips + [ip])) else Err(NoRoom)
  {
    hide GoodEntries, EntryLen;
    AddressEntriesLen(ips);
    BodyLenConcat(d.entries, AddressEntries(ips));
    assert (ips + [ip])[..|ips|] == ips;
    assert d.entries + AddressEntries(ips) + [AddressEntry(ip, TTL)] == d.entries + AddressEntries(ips + [ip]);
  }

  lemma {:induction false} WroteGood(d: Draft, ips: seq<Ip>)
    requires GoodDraft(d) && |ips| <= Fitting(d)
    ensures GoodDraft(Wrote(d, ips)) && Size(Wrote(d, ips)) == Size(d) + 16 * |ips|
    decreases |ips|
  {
    if ips == [] {
      assert d.entries + [] == d.entries;
    } else {
      var front, ip := ips[..|ips| - 1], ips[|ips| - 1];
      assert front + [ip] == ips;
      WroteGood(d, front);
      WroteStep(d, front, ip);
      GrowGood(Wrote(d, front), AddressEntry(ip, TTL));
    }
  }

  // ---------- The reply to a query ----------

  /** The SOA record of `zone` behind `d`; without it the answer fails. */
  function Closed(d: Draft, zone: Text): (Draft, bool) {
    match AuthoritySoa(d, zone, TTL)
    case Ok(d') => (d', true)
    case Err(_) => (d, false)
  }

  /** A name in the domain: its addresses, or NOERROR or NXDOMAIN with the SOA record of the domain. */
  function Service(conf: Conf, c: Clusters, name: Text, qtype: u16, d: Draft): (Draft, bool) {
    var place := PlaceOf(conf.domain, name);
    var d' := if WantsAddresses(qtype) then WriteAll(d, Addresses(c, place)) else d;
    if d'.an != 0 then (d', true)
    else Closed(if Exists(c, place) then d' else WithRcode(d', NxDomain), conf.domain)
  }

  /** The draft that a query fills, and whether nothing went wrong. */
  function Answer(conf: Conf, c: Clusters, q: Query, d: Draft): (Draft, bool) {
    match TextOf(q.qname)
    case None => (WithRcode(d, Refused), true)
    case Some(name) =>
      if q.qclass != CLASS_IN && q.qclass != CLASS_ANY then (WithRcode(d, Refused), true)
      else
        match Lookup(conf.pairs, name)
        case Some(target) =>
          (match AnswerCname(d, target, TTL)
           case Ok(d') => (d', true)
           case Err(_) => (d, false))
        case None =>
          if InZone(name, conf.domain) then Service(conf, c, name, q.qtype, d)
          else
            match ZoneOf(conf.pairs, name)
            case Some(zone) => Closed(WithRcode(d, NxDomain), zone)
            case None => (WithRcode(d, Refused), true)
  }

  function Answered(conf: Conf, c: Clusters, q: Query, d: Draft): Draft {
    var (d', ok) := Answer(conf, c, q, d);
    if ok then d' else WithRcode(d', ServFail)
  }

  /** The largest message the asker takes: 512 bytes, or what it offers with EDNS, from 512 up to 1232. */
  function Limit(q: Query): (n: nat)
    ensures UDP_MAX <= n <= EDNS_MAX
  {
    match q.edns
    case None => UDP_MAX
    case Some(size) => Max(UDP_MAX, Min(EDNS_MAX, size))
  }

  /** The reply to a datagram when the output buffer has `room` bytes; `None` when nothing goes back. */
  function DraftFor(conf: Conf, c: Clusters, msg: seq<byte>, room: nat): Option<Draft> {
    match Parse(msg)
    case Drop => None
    case Bad(id, flags, rcode) =>
      if Min(UDP_MAX, room) < HEADER_LEN then None else Some(BareDraft(id, flags, rcode, Min(UDP_MAX, room)))
    case Good(q) =>
      var start := StartDraft(q, Min(Limit(q), room));
      if Size(start) + Reserve(start) > start.limit then None else Some(Answered(conf, c, q, start))
  }

  /** The question of a parsed query takes from five bytes up to 259. */
  lemma QuestionLength(msg: seq<byte>)
    requires Parse(msg).Good?
    ensures 5 <= |Parse(msg).q.question| <= NAME_MAX + 4
  {
  }

  lemma StartGood(q: Query, limit: nat)
    requires Size(StartDraft(q, limit)) + Reserve(StartDraft(q, limit)) <= limit
    ensures GoodDraft(StartDraft(q, limit))
  {
  }

  lemma ClosedGood(d: Draft, zone: Text)
    requires GoodDraft(d)
    ensures GoodDraft(Closed(d, zone).0)
  {
    CallsKeepDraftsGood(d, Ip(0, 0, 0, 0), zone, TTL);
  }

  lemma WriteAllGood(d: Draft, ips: seq<Ip>)
    requires GoodDraft(d)
    ensures GoodDraft(WriteAll(d, ips))
  {
    WroteGood(d, ips[..Min(|ips|, Fitting(d))]);
  }

  lemma ServiceGood(conf: Conf, c: Clusters, name: Text, qtype: u16, d: Draft)
    requires GoodDraft(d)
    ensures GoodDraft(Service(conf, c, name, qtype, d).0)
    ensures Service(conf, c, name, qtype, d).0.limit == d.limit
  {
    hide GoodEntries, BodyLen, WriteAll, Exists, Addresses, Closed;
    var place := PlaceOf(conf.domain, name);
    WriteAllGood(d, Addresses(c, place));
    WriteAllKeeps(d, Addresses(c, place));
    var d' := if WantsAddresses(qtype) then WriteAll(d, Addresses(c, place)) else d;
    ClosedGood(d', conf.domain);
    ClosedGood(WithRcode(d', NxDomain), conf.domain);
    ClosedKeeps(d', conf.domain);
    ClosedKeeps(WithRcode(d', NxDomain), conf.domain);
  }

  lemma AnsweredGood(conf: Conf, c: Clusters, q: Query, d: Draft)
    requires GoodDraft(d)
    ensures GoodDraft(Answered(conf, c, q, d)) && Answered(conf, c, q, d).limit == d.limit
  {
    hide GoodEntries, BodyLen, Service, Closed, AnswerCname, Lookup, ZoneOf, TextFrom;
    if TextOf(q.qname).Some? {
      var name := TextOf(q.qname).value;
      ServiceGood(conf, c, name, q.qtype, d);
      if Lookup(conf.pairs, name).Some? {
        var target := Lookup(conf.pairs, name).value;
        CallsKeepDraftsGood(d, Ip(0, 0, 0, 0), target, TTL);
        CnameKeeps(d, target);
      } else if ZoneOf(conf.pairs, name).Some? {
        ClosedGood(WithRcode(d, NxDomain), ZoneOf(conf.pairs, name).value);
        ClosedKeeps(WithRcode(d, NxDomain), ZoneOf(conf.pairs, name).value);
      }
    }
  }

  // What each call leaves as it was.

  lemma ClosedKeeps(d: Draft, zone: Text)
    ensures var (d', ok) := Closed(d, zone);
            && d' == (if ok then WithAuthority(d, SoaEntry(LabelsOf(zone), TTL)) else d)
            && d'.limit == d.limit
  {
  }

  lemma WriteAllKeeps(d: Draft, ips: seq<Ip>)
    ensures var d' := WriteAll(d, ips); d' == d.(entries := d'.entries, an := d'.an)
  {
  }

  lemma CnameKeeps(d: Draft, target: Text)
    ensures AnswerCname(d, target, TTL).Ok?
            ==> AnswerCname(d, target, TTL).value == WithAnswer(d, CnameEntry(LabelsOf(target), TTL))
  {
  }

  // ---------- The server that writes ----------

  /** The addresses of one list, until the reply is full. */
  method WriteList(reply: Reply, ips: seq<Ip>)
    requires reply.Valid() && reply.limit <= EDNS_MAX
    modifies reply, reply.buf
    ensures reply.Valid() && reply.draft == WriteAll(old(reply.draft), ips)
  {
    hide Wrote, AnswerA, Render, GoodEntries, BodyLen;
    ghost var d := reply.draft;
    WroteNone(d);
    for i := 0 to |ips|
      invariant reply.Valid() && reply.draft == Wrote(d, ips[..i]) && i <= Fitting(d)
    {
      WroteStep(d, ips[..i], ips[i]);
      CountsFit(reply.draft);
      var r := reply.AddA(ips[i], TTL);
      if r.Err? {
        break;
      }
      assert ips[..i] + [ips[i]] == ips[..i + 1];
    }
    assert ips[..|ips|] == ips;
  }

  lemma WroteNone(d: Draft)
    ensures Wrote(d, []) == d
  {
    assert d.entries + [] == d.entries;
  }

  /** The addresses of every cluster, each once, until the reply is full; those written are kept on the side. */
  method WriteMerged(reply: Reply, cache: Cache, job: Text)
    requires reply.Valid() && cache.Valid() && reply.limit <= EDNS_MAX && Fitting(reply.draft) <= MAX_ANSWERS
    modifies reply, reply.buf
    ensures reply.Valid() && reply.draft == WriteAll(old(reply.draft), GetMerged(cache.clusters.rows, job))
  {
    hide Wrote, AnswerA, Render, GoodEntries, BodyLen, Merged, Room, Fitting, WriteAll, Uniq;
    ghost var d := reply.draft;
    ghost var all := GetMerged(cache.clusters.rows, job);
    var lists := cache.ReadMerged(job);
    var seen := new Ip[MAX_ANSWERS](i => Ip(0, 0, 0, 0));
    var n := 0;
    WroteNone(d);
    for i := 0 to |lists|
      invariant n <= MAX_ANSWERS && n <= Fitting(d)
      invariant reply.Valid() && reply.draft == Wrote(d, seen[..n])
      invariant Uniq(seen[..n], Flatten(lists[i..])) == all
    {
      var ips := lists[i];
      ghost var rest := Flatten(lists[i + 1..]);
      assert lists[i..][0] == ips && lists[i..][1..] == lists[i + 1..];
      assert Flatten(lists[i..]) == ips + rest == ips[0..] + rest;
      for k := 0 to |ips|
        invariant n <= MAX_ANSWERS && n <= Fitting(d)
        invariant reply.Valid() && reply.draft == Wrote(d, seen[..n])
        invariant Uniq(seen[..n], ips[k..] + rest) == all
      {
        assert ips[k..] + rest == [ips[k]] + (ips[k + 1..] + rest);
        UniqStep(seen[..n], ips[k], ips[k + 1..] + rest);
        UniqPrefix(seen[..n], ips[k..] + rest);
        if ips[k] in seen[..n] {
          continue;
        }
        if n >= MAX_ANSWERS {
          FullIsAll(d, seen[..n], all);
          return;
        }
        WroteStep(d, seen[..n], ips[k]);
        CountsFit(reply.draft);
        var r := reply.AddA(ips[k], TTL);
        if r.Err? {
          FullIsAll(d, seen[..n], all);
          return;
        }
        ghost var before := seen[..n];
        seen[n] := ips[k];
        n := n + 1;
        assert seen[..n] == before + [ips[k]];
      }
      assert ips[|ips|..] + rest == rest;
    }
    UniqNone(seen[..n]);
    AllFitIsAll(d, all);
  }

  lemma UniqStep(list: seq<Ip>, x: Ip, s: seq<Ip>)
    ensures Uniq(list, [x] + s) == Uniq(PushUnique(list, x), s)
  {
    assert ([x] + s)[1..] == s;
  }

  lemma UniqNone(list: seq<Ip>)
    ensures Uniq(list, []) == list
  {
  }

  lemma AllFitIsAll(d: Draft, all: seq<Ip>)
    requires |all| <= Fitting(d)
    ensures Wrote(d, all) == WriteAll(d, all)
  {
    assert all[..|all|] == all;
  }

  /** When the addresses written fill the reply, they are all that is written of the list they begin. */
  lemma FullIsAll(d: Draft, done: seq<Ip>, all: seq<Ip>)
    requires done <= all && |done| == Fitting(d)
    ensures Wrote(d, done) == WriteAll(d, all)
  {
    assert all[..Min(|all|, Fitting(d))] == done;
  }

  lemma BareLength(id: u16, flags: u16, rcode: Rcode, limit: nat)
    ensures |Final(BareDraft(id, flags, rcode, limit))| == 12
  {
  }

  class Server {
    var domain: Text
    var cnames: CNAMEs

    ghost predicate Valid()
      reads this, cnames, cnames.exact, cnames.wildcard
    {
      domain != [] && cnames.Valid()
    }

    function Settings(): Conf
      reads this, cnames, cnames.exact, cnames.wildcard
    {
      Conf(domain, cnames.Contents())
    }

    /** A server for a domain, which may carry capitals and a final dot; the empty one is the default. */
    constructor (text: Text)
      ensures Valid() && Settings() == Conf(DomainOf(text), Pairs([], []))
    {
      var none := new CNAMEs([]);
      domain := DomainOf(text);
      cnames := none;
    }

    method SetCnames(c: CNAMEs)
      requires Valid() && c.Valid()
      modifies this`cnames
      ensures Valid() && cnames == c && domain == old(domain)
    {
      cnames := c;
    }

    /** Answers one datagram into `out`; the length of the reply, or `None` when nothing goes back. */
    method Handle(cache: Cache, msg: seq<byte>, out: array<byte>) returns (r: Option<nat>)
      requires Valid() && cache.Valid()
      modifies out
      ensures match DraftFor(Settings(), cache.clusters.rows, msg, out.Length)
              case None => r == None
              case Some(d) =>
                && GoodDraft(d) && r == Some(|Final(d)|) && |Final(d)| <= out.Length && out[..|Final(d)|] == Final(d)
      ensures r.Some?
              ==> && (Parse(msg).Bad? ==> r.value == 12)
                  && (Parse(msg).Good? ==> match Parse(msg).q.edns
                                           case None => r.value <= 512
                                           case Some(size) => r.value <= 512 || r.value <= size <= 1232
                                                              || (r.value <= 1232 && size > 1232))
    {
      hide Answer, GoodEntries, BodyLen, Render, Final, Parse;
      var parsed := ParseQuery(msg);
      match parsed {
        case Drop =>
          return None;
        case Bad(id, flags, rcode) =>
          var bare := Reply.Bare(out, id, flags, rcode, UDP_MAX);
          if bare.Err? {
            return None;
          }
          var n := bare.value.Finish();
          BareLength(id, flags, rcode, Min(UDP_MAX, out.Length));
          return Some(n);
        case Good(q) =>
          var start := Reply.Start(out, q, Limit(q));
          if start.Err? {
            return None;
          }
          var reply := start.value;
          QuestionLength(msg);
          var ok := Fill(cache, q, reply);
          if !ok {
            reply.SetRcode(ServFail);
          }
          var n := reply.Finish();
          return Some(n);
      }
    }

    /** Fills `reply` for query `q`; false when a record could not be written that has to be there. */
    method Fill(cache: Cache, q: Query, reply: Reply) returns (ok: bool)
      requires Valid() && cache.Valid() && reply.Valid() && reply.limit <= EDNS_MAX
      requires reply.draft.an == 0 == reply.draft.ns
      requires reply.draft == StartDraft(q, reply.limit) && |q.question| >= 5
      modifies reply, reply.buf
      ensures reply.Valid() && (reply.draft, ok) == Answer(Settings(), cache.clusters.rows, q, old(reply.draft))
    {
      hide GoodEntries, BodyLen, Render, AuthoritySoa, AnswerCname, Lookup, ZoneOf, TextFrom, Service;
      var buf := new byte[NAME_MAX](i => 0);
      var text := NameText(q.qname, buf);
      if text.None? || (q.qclass != CLASS_IN && q.qclass != CLASS_ANY) {
        reply.SetRcode(Refused);
        return true;
      }
      var name := buf[..text.value];
      var target := cnames.Find(name);
      if target.Some? {
        var r := reply.AddCname(target.value, TTL);
        return r.Ok?;
      }
      if InZone(name, domain) {
        ok := FillService(cache, name, q.qtype, reply);
        return;
      }
      var zone := cnames.FindZone(name);
      if zone.Some? {
        reply.SetRcode(NxDomain);
        var r := reply.AddSoa(zone.value, TTL);
        return r.Ok?;
      }
      reply.SetRcode(Refused);
      return true;
    }

    /** Whether the place exists, and for a job of one cluster its addresses. */
    method Find(cache: Cache, place: Place) returns (known: bool, ips: Option<seq<Ip>>)
      requires cache.Valid()
      ensures known == Exists(cache.clusters.rows, place)
      ensures place.OneCluster? ==> ips == GetCluster(cache.clusters.rows, place.cluster, place.service)
    {
      ips := None;
      match place {
        case Apex =>
          known := true;
        case OneCluster(cluster, service) =>
          ips := cache.ReadCluster(cluster, service);
          known := ips.Some?;
        case EveryCluster(job) =>
          known := cache.KnowsJob(job);
          if !known {
            known := cache.KnowsCluster(job);
          }
      }
    }

    method FillService(cache: Cache, name: Text, qtype: u16, reply: Reply) returns (ok: bool)
      requires Valid() && cache.Valid() && reply.Valid() && reply.limit <= EDNS_MAX
      requires reply.draft.an == 0 == reply.draft.ns
      requires |reply.draft.question| >= 5
      modifies reply, reply.buf
      ensures reply.Valid()
      ensures (reply.draft, ok) == Service(Settings(), cache.clusters.rows, name, qtype, old(reply.draft))
      ensures qtype != 1 && qtype != 255 ==> reply.draft.an == 0
    {
      hide GoodEntries, BodyLen, Render, AuthoritySoa, WriteAll, GetMerged, Exists;
      var place := PlaceOf(domain, name);
      var known, ips := Find(cache, place);
      if WantsAddresses(qtype) {
        match place {
          case Apex =>
            WriteNone(reply.draft);
          case OneCluster(cluster, service) =>
            WriteList(reply, ips.GetOr([]));
          case EveryCluster(job) =>
            WriteMerged(reply, cache, job);
        }
      }
      var n := reply.Answers();
      if n == 0 {
        if !known {
          reply.SetRcode(NxDomain);
        }
        CountsFit(reply.draft);
        var r := reply.AddSoa(domain, TTL);
        return r.Ok?;
      }
      return true;
    }
  }

  lemma WriteNone(d: Draft)
    ensures WriteAll(d, []) == d
  {
    WroteNone(d);
  }
}
