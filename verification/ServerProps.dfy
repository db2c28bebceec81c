/** What holds of every reply of the server: its form, its size, its records, and what its negatives promise. */
module ServerProps {
  import opened Basics
  import opened Names
  import opened Reading
  import opened Tables
  import opened Caches
  import opened Cnames
  import opened Writing
  import opened Servers

  // ---------- The five forms of a reply ----------

  /** The code of a reply. */
  function CodeOf(d: Draft): u16
    requires d.flags < 0x1_0000
  {
    d.flags % 16
  }

  ghost predicate HasForm(s: Draft, d: Draft) {
    || d == WithRcode(s, Refused)
    || d == WithRcode(s, ServFail)
    || (exists target :: d == WithAnswer(s, CnameEntry(target, TTL)))
    || (exists ips :: ips != [] && d == Wrote(s, ips))
    || (exists zone, rcode :: (rcode == NoError || rcode == NxDomain)
                              && d == WithAuthority(WithRcode(s, rcode), SoaEntry(zone, TTL)))
  }

  lemma NegativeForm(s: Draft, zone: Text, rcode: Rcode)
    requires s.flags % 16 == 0 && (rcode == NoError || rcode == NxDomain)
    ensures var (d, ok) := Closed(WithRcode(s, rcode), zone);
            HasForm(s, if ok then d else WithRcode(d, ServFail))
  {
    hide Closed;
    var (d, ok) := Closed(WithRcode(s, rcode), zone);
    ClosedKeeps(WithRcode(s, rcode), zone);
    if ok {
      assert d == WithAuthority(WithRcode(s, rcode), SoaEntry(LabelsOf(zone), TTL));
    } else {
      assert WithRcode(d, ServFail) == WithRcode(s, ServFail);
    }
  }

  lemma ServiceForm(conf: Conf, c: Clusters, name: Text, qtype: u16, s: Draft)
    requires s.flags % 16 == 0 && s.an == 0
    ensures var (d, ok) := Service(conf, c, name, qtype, s);
            HasForm(s, if ok then d else WithRcode(d, ServFail))
  {
    hide HasForm, Addresses, Exists, Closed;
    var place := PlaceOf(conf.domain, name);
    var ips := Addresses(c, place);
    var k := Min(|ips|, Fitting(s));
    WroteNone(s);
    if (qtype == 1 || qtype == 255) && k > 0 {
      AddressForm(s, ips[..k]);
    } else {
      assert ips[..0] == [];
      NegativeForm(s, conf.domain, NoError);
      NegativeForm(s, conf.domain, NxDomain);
      assert WithRcode(s, NoError) == s;
    }
  }

  lemma AddressForm(s: Draft, ips: seq<Ip>)
    requires ips != []
    ensures HasForm(s, Wrote(s, ips))
  {
  }

  lemma AliasForm(s: Draft, target: seq<Label>)
    ensures HasForm(s, WithAnswer(s, CnameEntry(target, TTL)))
    ensures HasForm(s, WithRcode(s, ServFail)) && HasForm(s, WithRcode(s, Refused))
  {
  }

  /**
   Every reply to a parsed query is one of five: a refusal or a SERVFAIL without records, one CNAME, one or
   more addresses, or an SOA record with NOERROR or NXDOMAIN.
   */
  lemma AnsweredForm(conf: Conf, c: Clusters, q: Query, limit: nat)
    ensures var s := StartDraft(q, limit); HasForm(s, Answered(conf, c, q, s))
  {
    hide HasForm, Service, Closed, Lookup, ZoneOf, TextFrom;
    var s := StartDraft(q, limit);
    AliasForm(s, []);
    if TextOf(q.qname).Some? && (q.qclass == 1 || q.qclass == 255) {
      var name := TextOf(q.qname).value;
      ServiceForm(conf, c, name, q.qtype, s);
      if Lookup(conf.pairs, name).Some? {
        CnameKeeps(s, Lookup(conf.pairs, name).value);
        AliasForm(s, LabelsOf(Lookup(conf.pairs, name).value));
      } else if ZoneOf(conf.pairs, name).Some? {
        NegativeForm(s, ZoneOf(conf.pairs, name).value, NxDomain);
      }
    }
  }

  /**
   The classification of section 3 of RFC 2308. No reply has both answers and an SOA record; the SOA record
   is there exactly when there is no answer and the code is NOERROR or NXDOMAIN; every other code has no record.
   */
  lemma ReplyClassification(conf: Conf, c: Clusters, msg: seq<byte>, room: nat)
    requires DraftFor(conf, c, msg, room).Some?
    ensures var d := DraftFor(conf, c, msg, room).value;
            && (d.an == 0 || d.ns == 0) && d.ns <= 1
            && (d.ns == 1 <==> d.an == 0 && (CodeOf(d) == 0 || CodeOf(d) == 3))
            && (d.an > 0 ==> CodeOf(d) == 0)
            && |d.entries| == d.an + d.ns
  {
    hide Answered, StartDraft;
    if Parse(msg).Good? {
      var q := Parse(msg).q;
      var s := StartDraft(q, Min(Limit(q), room));
      AnsweredForm(conf, c, q, Min(Limit(q), room));
      StartShape(q, Min(Limit(q), room));
      FormCounts(s, Answered(conf, c, q, s));
    }
  }

  lemma StartShape(q: Query, limit: nat)
    ensures var s := StartDraft(q, limit);
            s.flags % 16 == 0 && IsReply(s.flags) && s.an == 0 && s.ns == 0 && s.entries == []
  {
  }

  lemma FormCounts(s: Draft, d: Draft)
    requires HasForm(s, d) && s.flags % 16 == 0 && s.an == 0 && s.ns == 0 && s.entries == [] && IsReply(s.flags)
    ensures (d.an == 0 || d.ns == 0) && d.ns <= 1 && |d.entries| == d.an + d.ns
    ensures d.ns == 1 <==> d.an == 0 && (CodeOf(d) == 0 || CodeOf(d) == 3)
    ensures d.an > 0 ==> CodeOf(d) == 0
    ensures IsReply(d.flags) && d == d.(flags := d.flags, entries := d.entries, an := d.an, ns := d.ns)
    ensures d.flags / 16 == s.flags / 16 && d.id == s.id && d.qd == s.qd && d.question == s.question
    ensures d.limit == s.limit && d.edns == s.edns
  {
    hide Head, EntryBytes, EntryLen;
  }

  // ---------- The bytes of a reply ----------

  lemma DraftIsGood(conf: Conf, c: Clusters, msg: seq<byte>, room: nat)
    ensures DraftFor(conf, c, msg, room).Some? ==> GoodDraft(DraftFor(conf, c, msg, room).value)
  {
    hide Answered;
    match Parse(msg)
    case Drop =>
    case Bad(id, flags, rcode) =>
    case Good(q) =>
      var s := StartDraft(q, Min(Limit(q), room));
      if Size(s) + Reserve(s) <= s.limit {
        StartGood(q, Min(Limit(q), room));
        AnsweredGood(conf, c, q, s);
      }
  }

  /** The bytes that go back. */
  function Respond(conf: Conf, c: Clusters, msg: seq<byte>, room: nat): Option<seq<byte>> {
    match DraftFor(conf, c, msg, room)
    case None => None
    case Some(d) =>
      DraftIsGood(conf, c, msg, room);
      Some(Final(d))
  }

  /** The code of a finished reply stands in the last four bits of its fourth byte. */
  lemma CodeIsRead(d: Draft)
    requires GoodEntries(d.entries)
    ensures |Final(d)| >= 12 && Final(d)[3] % 16 == CodeOf(d)
  {
    hide Body, GoodEntries;
    assert Final(d)[3] == U16(d.flags)[1];
  }

  lemma StartFits(q: Query, limit: nat)
    requires |q.question| <= 259 && limit >= 512
    ensures var s := StartDraft(q, limit);
            && Size(s) + Reserve(s) <= limit && GoodDraft(s) && s.limit == limit
            && s.id == q.id && s.edns == q.edns.Some? && s.question == q.question
  {
  }

  // ---------- How many addresses ----------

  /** A query for addresses of a name in the domain that no CNAME takes away. */
  ghost predicate AsksService(conf: Conf, q: Query, name: Text) {
    && TextOf(q.qname) == Some(name) && (q.qclass == 1 || q.qclass == 255)
    && Lookup(conf.pairs, name) == None && InZone(name, conf.domain)
  }

  /** The answers of a reply are the addresses, in order. */
  ghost predicate AnswersAre(d: Draft, ips: seq<Ip>) {
    d.an == |ips| <= |d.entries| && forall i :: 0 <= i < |ips| ==> d.entries[i] == AddressEntry(ips[i], 5)
  }

  /**
   The streamed answer is the simple list cut off. A query for addresses gets as its answers exactly the first
   min(n, k) of the n addresses of the name, where k is what fits: sixteen bytes each, behind the header and
   the question, with the place of the OPT record kept free. The row of 75 seen addresses never decides.
   */
  lemma AddressAnswer(conf: Conf, c: Clusters, q: Query, limit: nat, name: Text)
    requires AsksService(conf, q, name) && (q.qtype == 1 || q.qtype == 255) && |q.question| >= 5
    requires 12 + |q.question| + (if q.edns.Some? then 11 else 0) <= limit <= 1232
    ensures var ips := Addresses(c, PlaceOf(conf.domain, name));
            var k := (limit - 12 - |q.question| - (if q.edns.Some? then 11 else 0)) / 16;
            var d := Answered(conf, c, q, StartDraft(q, limit));
            && k <= 75
            && AnswersAre(d, ips[..Min(|ips|, k)])
  {
    hide Closed, Addresses, Exists, TextFrom, Lookup, AddressEntries;
    var s := StartDraft(q, limit);
    var place := PlaceOf(conf.domain, name);
    var ips := Addresses(c, place);
    var d := WriteAll(s, ips);
    assert d.entries == AddressEntries(ips[..Min(|ips|, Fitting(s))]);
    ClosedKeeps(if Exists(c, place) then d else WithRcode(d, NxDomain), conf.domain);
  }

  /** With a buffer of 512 bytes a name with n addresses gets min(n, 14) or more of them: no false NODATA. */
  lemma NoFalseNodata(conf: Conf, c: Clusters, msg: seq<byte>, room: nat, name: Text)
    requires room >= 512 && Parse(msg).Good?
    requires AsksService(conf, Parse(msg).q, name) && (Parse(msg).q.qtype == 1 || Parse(msg).q.qtype == 255)
    ensures var n := |Addresses(c, PlaceOf(conf.domain, name))|;
            && DraftFor(conf, c, msg, room).Some?
            && Min(n, 14) <= DraftFor(conf, c, msg, room).value.an <= n
  {
    hide Answered, GoodEntries, Addresses, TextFrom, Lookup, Parse;
    var q := Parse(msg).q;
    QuestionLength(msg);
    StartFits(q, Min(Limit(q), room));
    AddressAnswer(conf, c, q, Min(Limit(q), room), name);
  }

  /** From a cache whose lists name each address once, no answer names an address twice. */
  lemma AnswersNeverRepeat(conf: Conf, c: Clusters, q: Query, limit: nat, name: Text)
    requires AsksService(conf, q, name) && (q.qtype == 1 || q.qtype == 255) && |q.question| >= 5 && Sorted(c)
    requires 12 + |q.question| + (if q.edns.Some? then 11 else 0) <= limit <= 1232
    ensures NoRepeats(c) ==> NoDup(Addresses(c, PlaceOf(conf.domain, name)))
    ensures var d := Answered(conf, c, q, StartDraft(q, limit));
            NoRepeats(c) ==> NoDup(d.entries[..Min(d.an, |d.entries|)])
  {
    hide Answered, StartDraft, TextFrom, Lookup, GetMerged;
    var place := PlaceOf(conf.domain, name);
    if NoRepeats(c) {
      AddressAnswer(conf, c, q, limit, name);
      if place.EveryCluster? {
        GetMergedMeaning(c, place.job, Ip(0, 0, 0, 0));
      }
      var ips, d := Addresses(c, place), Answered(conf, c, q, StartDraft(q, limit));
      assert NoDup(ips);
      var answers := d.entries[..Min(d.an, |d.entries|)];
      forall i, j | 0 <= i < j < |answers| ensures answers[i] != answers[j] {
        assert d.entries[i] == AddressEntry(ips[i], TTL) && d.entries[j] == AddressEntry(ips[j], TTL);
      }
    }
  }

  /** More than one record goes back only to a query for the addresses of a name in the domain. */
  lemma ManyAreAddresses(conf: Conf, c: Clusters, q: Query, limit: nat)
    requires |Answered(conf, c, q, StartDraft(q, limit)).entries| > 1
    ensures TextOf(q.qname).Some? && AsksService(conf, q, TextOf(q.qname).value) && (q.qtype == 1 || q.qtype == 255)
  {
    hide Closed, TextFrom, Lookup, ZoneOf, AnswerCname, Addresses, Exists;
    var s := StartDraft(q, limit);
    StartShape(q, limit);
    if TextOf(q.qname).Some? {
      var name := TextOf(q.qname).value;
      if Lookup(conf.pairs, name).Some? {
        CnameKeeps(s, Lookup(conf.pairs, name).value);
      } else if !InZone(name, conf.domain) {
        ClosedKeeps(WithRcode(s, NxDomain), ZoneOf(conf.pairs, name).GetOr([]));
      } else {
        ClosedKeeps(s, conf.domain);
        ClosedKeeps(WithRcode(s, NxDomain), conf.domain);
      }
    }
  }

  /** No reply repeats a record when no list of the cache repeats an address. */
  lemma RepliesNeverRepeat(conf: Conf, c: Clusters, msg: seq<byte>, room: nat)
    requires Sorted(c) && NoRepeats(c) && room >= 512 && DraftFor(conf, c, msg, room).Some?
    ensures NoDup(DraftFor(conf, c, msg, room).value.entries)
  {
    hide Answered, StartDraft, AsksService, NoRepeats, Parse, TextFrom;
    ReplyClassification(conf, c, msg, room);
    var d := DraftFor(conf, c, msg, room).value;
    if |d.entries| > 1 {
      var q := Parse(msg).q;
      var limit := Min(Limit(q), room);
      QuestionLength(msg);
      StartFits(q, limit);
      ManyAreAddresses(conf, c, q, limit);
      AnswersNeverRepeat(conf, c, q, limit, TextOf(q.qname).value);
      assert d.entries[..Min(d.an, |d.entries|)] == d.entries;
    }
  }

  // ---------- When a negative reply fails ----------

  /**
   The SOA record of a zone has room in a reply: a name of at most 248 wire bytes, and Q + 3L + 60 bytes, 11 more
   with EDNS, within the limit, for a question name of Q and a zone of L bytes.
   */
  predicate SoaFits(zone: Text, n: nat, edns: bool, limit: nat) {
    var m := WireLen(LabelsOf(zone));
    WireName(LabelsOf(zone)) && m <= 248 && n + 3 * m + 60 + (if edns then 11 else 0) <= limit
  }

  /**
   A negative reply can be written exactly when the zone is a well-formed name of at most 248 wire bytes and
   the whole takes no more than the limit: Q + 3L + 60 bytes for a question name of Q and a zone of L bytes,
   and 11 more with EDNS. The bound of 248 is that of the scratch buffer, whatever the limit is.
   */
  lemma NegativeFits(q: Query, zone: Text, limit: nat, rcode: Rcode)
    requires |q.question| >= 5
    ensures var s := WithRcode(StartDraft(q, limit), rcode);
            Closed(s, zone).1 <==> SoaFits(zone, |q.question| - 4, q.edns.Some?, limit)
  {
    NameBytesMeaning(zone, SOA_SCRATCH);
  }

  /** A zone of at most 62 wire bytes never makes a reply fail, whatever the question, when the buffer has 512 bytes. */
  lemma ShortZonesNeverFail(q: Query, zone: Text, room: nat, rcode: Rcode)
    requires 5 <= |q.question| <= 259 && room >= 512
    requires WireName(LabelsOf(zone)) && WireLen(LabelsOf(zone)) <= 62
    ensures Closed(WithRcode(StartDraft(q, Min(Limit(q), room)), rcode), zone).1
  {
    NegativeFits(q, zone, Min(Limit(q), room), rcode);
  }

  /**
   The size formula alone does not decide: for a zone of 249 to 255 wire bytes a negative reply fails at every
   limit, because the scratch buffer of the SOA record is too small, also where the formula leaves room.
   */
  lemma LongZonesAlwaysFail(q: Query, zone: Text, limit: nat, rcode: Rcode)
    requires |q.question| >= 5 && WireLen(LabelsOf(zone)) > 248
    ensures !Closed(WithRcode(StartDraft(q, limit), rcode), zone).1
  {
    NegativeFits(q, zone, limit, rcode);
  }

  /** SERVFAIL for a name in the domain that has no answer: exactly when its negative reply does not fit. */
  lemma ServFailExactly(conf: Conf, c: Clusters, q: Query, limit: nat, name: Text)
    requires AsksService(conf, q, name) && |q.question| >= 5
    requires 12 + |q.question| + (if q.edns.Some? then 11 else 0) <= limit
    requires (q.qtype == 1 || q.qtype == 255) ==> Addresses(c, PlaceOf(conf.domain, name)) == []
    ensures var d := Answered(conf, c, q, StartDraft(q, limit));
            && (CodeOf(d) == 2 <==> !SoaFits(conf.domain, |q.question| - 4, q.edns.Some?, limit))
            && (CodeOf(d) == 2 ==> d.entries == [])
  {
    hide Answer, Closed, TextFrom, Lookup, WireName, Exists, PlaceOf, Addresses, LabelsOf;
    var rcode := if Exists(c, PlaceOf(conf.domain, name)) then NoError else NxDomain;
    StartShape(q, limit);
    NegativeAnswer(conf, c, q, StartDraft(q, limit), name);
    NegativeFits(q, conf.domain, limit, rcode);
    ClosedKeeps(WithRcode(StartDraft(q, limit), rcode), conf.domain);
  }

  lemma NegativeAnswer(conf: Conf, c: Clusters, q: Query, s: Draft, name: Text)
    requires AsksService(conf, q, name) && s.flags % 16 == 0 && s.an == 0
    requires (q.qtype == 1 || q.qtype == 255) ==> Addresses(c, PlaceOf(conf.domain, name)) == []
    ensures Answer(conf, c, q, s)
            == Closed(WithRcode(s, if Exists(c, PlaceOf(conf.domain, name)) then NoError else NxDomain), conf.domain)
  {
    hide Closed, TextFrom, Lookup, WriteAll, Addresses, Exists, PlaceOf;
    WriteNone(s);
    assert WithRcode(s, NoError) == s;
  }

  /**
   The whole reply for a name in the domain: as many of its addresses as there is room for, sixteen bytes each; without
   any, because there are none, none has room or another type is asked for, the SOA record of the domain; and when that
   has no room either, SERVFAIL.
   */
  lemma ServiceDecision(conf: Conf, c: Clusters, q: Query, limit: nat, name: Text)
    requires AsksService(conf, q, name) && |q.question| >= 5
    requires 12 + |q.question| + (if q.edns.Some? then 11 else 0) <= limit
    ensures var s := StartDraft(q, limit);
            var place := PlaceOf(conf.domain, name);
            var ips := if q.qtype == 1 || q.qtype == 255 then Addresses(c, place) else [];
            var k := Min(|ips|, (limit - 12 - |q.question| - (if q.edns.Some? then 11 else 0)) / 16);
            Answered(conf, c, q, s)
            == if k > 0 then Wrote(s, ips[..k])
               else if SoaFits(conf.domain, |q.question| - 4, q.edns.Some?, limit) then
                 WithAuthority(WithRcode(s, if Exists(c, place) then NoError else NxDomain),
                               SoaEntry(LabelsOf(conf.domain), TTL))
               else WithRcode(s, ServFail)
  {
    hide Closed, TextFrom, Lookup, Addresses, Exists, PlaceOf, SoaFits, LabelsOf, InZone;
    var s := StartDraft(q, limit);
    var place := PlaceOf(conf.domain, name);
    var rcode := if Exists(c, place) then NoError else NxDomain;
    StartShape(q, limit);
    NegativeFits(q, conf.domain, limit, rcode);
    ClosedKeeps(WithRcode(s, rcode), conf.domain);
    WroteNone(s);
    assert WithRcode(s, NoError) == s;
    assert Addresses(c, place)[..0] == [];
    assert WithRcode(WithRcode(s, rcode), ServFail) == WithRcode(s, ServFail);
  }

  /**
   What the type decides for a name in the domain. Types 1 and 255 get the addresses of the name as answers, as far as
   they fit. Any other type gets no answer, whatever the addresses are: its reply depends on existence and room alone.
   */
  lemma TypeDecides(conf: Conf, c: Clusters, q: Query, limit: nat, name: Text)
    requires AsksService(conf, q, name) && |q.question| >= 5
    requires 12 + |q.question| + (if q.edns.Some? then 11 else 0) <= limit
    ensures var d := Answered(conf, c, q, StartDraft(q, limit));
            var place := PlaceOf(conf.domain, name);
            if q.qtype == 1 || q.qtype == 255 then
              var ips := Addresses(c, place);
              AnswersAre(d, ips[..Min(|ips|, (limit - 12 - |q.question| - (if q.edns.Some? then 11 else 0)) / 16)])
            else
              && d.an == 0
              && if SoaFits(conf.domain, |q.question| - 4, q.edns.Some?, limit) then
                   d.entries == [SoaEntry(LabelsOf(conf.domain), 5)] && CodeOf(d) == if Exists(c, place) then 0 else 3
                 else d.entries == [] && CodeOf(d) == 2
  {
    hide Answered, AddressEntries, Addresses, Exists, PlaceOf, SoaFits, LabelsOf, AsksService;
    var s, place := StartDraft(q, limit), PlaceOf(conf.domain, name);
    StartShape(q, limit);
    ServiceDecision(conf, c, q, limit, name);
    ClosedShape(s, if Exists(c, place) then NoError else NxDomain, LabelsOf(conf.domain));
  }

  lemma ClosedShape(s: Draft, rcode: Rcode, zone: seq<Label>)
    requires s.flags % 16 == 0 && s.entries == []
    ensures var d := WithAuthority(WithRcode(s, rcode), SoaEntry(zone, TTL));
            d.entries == [SoaEntry(zone, 5)] && d.an == s.an && CodeOf(d) == rcode.Code()
  {
  }

  // ---------- Names that a CNAME takes, and names elsewhere ----------

  /** A CNAME can be written exactly when its target is a well-formed name and the whole fits the limit. */
  lemma AliasFits(q: Query, target: Text, limit: nat)
    requires |q.question| >= 5
    ensures AnswerCname(StartDraft(q, limit), target, TTL).Ok?
            <==> AliasHasRoom(target, |q.question| - 4, q.edns.Some?, limit)
  {
    NameBytesMeaning(target, 255 + 1);
  }

  /** The longest zone of the table that holds the name. */
  ghost predicate ZoneHolding(pairs: Pairs, name: Text, zone: Text) {
    zone in Zones(pairs) && InZone(name, zone) && forall z :: z in Zones(pairs) && InZone(name, z) ==> |z| <= |zone|
  }

  /** The CNAME record has room in a reply. */
  predicate AliasHasRoom(target: Text, n: nat, edns: bool, limit: nat) {
    WireName(LabelsOf(target)) && n + WireLen(LabelsOf(target)) + 28 + (if edns then 11 else 0) <= limit
  }

  /**
   What decides outside the service lookup, for a host name asked for in class IN or ANY. A name with a CNAME gets
   that record alone, for every type, also when it lies in the domain. Any other name outside the domain gets
   NXDOMAIN with the SOA record of the longest zone of the table that holds it, and REFUSED when none does. Only a
   record without room makes it SERVFAIL, without records.
   */
  lemma DecisionElsewhere(conf: Conf, c: Clusters, q: Query, limit: nat, name: Text, zone: Text)
    requires TextOf(q.qname) == Some(name) && (q.qclass == 1 || q.qclass == 255)
    requires |q.question| >= 5 && GoodPairs(conf.pairs)
    ensures var s := StartDraft(q, limit);
            var d := Answered(conf, c, q, s);
            var (n, edns) := (|q.question| - 4, q.edns.Some?);
            match Lookup(conf.pairs, name)
            case Some(target) =>
              d == if AliasHasRoom(target, n, edns, limit) then WithAnswer(s, CnameEntry(LabelsOf(target), TTL))
                   else WithRcode(s, ServFail)
            case None =>
              InZone(name, conf.domain)
              || (if ZoneHolding(conf.pairs, name, zone) then
                    d == if SoaFits(zone, n, edns, limit)
                         then WithAuthority(WithRcode(s, NxDomain), SoaEntry(LabelsOf(zone), TTL))
                         else WithRcode(s, ServFail)
                  else
                    (forall z :: z in Zones(conf.pairs) ==> !InZone(name, z)) ==> d == WithRcode(s, Refused))
  {
    hide Answered, StartDraft, TextOf, Lookup, ZoneOf, Zones, SoaFits, AliasHasRoom, InZone, ZoneHolding;
    if Lookup(conf.pairs, name).Some? {
      AliasDecision(conf, c, q, limit, name);
    } else if !InZone(name, conf.domain) {
      ZoneDecision(conf, c, q, limit, name);
      if ZoneHolding(conf.pairs, name, zone) {
        HeldOnce(conf.pairs, name, zone);
      } else {
        ZoneOfMeaning(conf.pairs, name, []);
      }
    }
  }

  lemma AliasDecision(conf: Conf, c: Clusters, q: Query, limit: nat, name: Text)
    requires TextOf(q.qname) == Some(name) && (q.qclass == 1 || q.qclass == 255)
    requires |q.question| >= 5 && Lookup(conf.pairs, name).Some?
    ensures var (s, target) := (StartDraft(q, limit), Lookup(conf.pairs, name).value);
            Answered(conf, c, q, s)
            == if AliasHasRoom(target, |q.question| - 4, q.edns.Some?, limit)
               then WithAnswer(s, CnameEntry(LabelsOf(target), TTL)) else WithRcode(s, ServFail)
  {
    hide Service, TextOf, Lookup, ZoneOf, AnswerCname, AliasHasRoom;
    CnameKeeps(StartDraft(q, limit), Lookup(conf.pairs, name).value);
    AliasFits(q, Lookup(conf.pairs, name).value, limit);
  }

  lemma ZoneDecision(conf: Conf, c: Clusters, q: Query, limit: nat, name: Text)
    requires TextOf(q.qname) == Some(name) && (q.qclass == 1 || q.qclass == 255)
    requires |q.question| >= 5 && Lookup(conf.pairs, name).None? && !InZone(name, conf.domain)
    ensures var s := StartDraft(q, limit);
            Answered(conf, c, q, s)
            == match ZoneOf(conf.pairs, name)
               case None => WithRcode(s, Refused)
               case Some(zone) =>
                 if SoaFits(zone, |q.question| - 4, q.edns.Some?, limit)
                 then WithAuthority(WithRcode(s, NxDomain), SoaEntry(LabelsOf(zone), TTL)) else WithRcode(s, ServFail)
  {
    hide Closed, Service, TextOf, Lookup, ZoneOf, SoaFits, InZone, StartDraft;
    var s := StartDraft(q, limit);
    StartShape(q, limit);
    var zone := ZoneOf(conf.pairs, name).GetOr([]);
    ClosedKeeps(WithRcode(s, NxDomain), zone);
    NegativeFits(q, zone, limit, NxDomain);
    assert WithRcode(WithRcode(s, NxDomain), ServFail) == WithRcode(s, ServFail);
  }

  lemma HeldOnce(pairs: Pairs, name: Text, zone: Text)
    requires GoodPairs(pairs) && ZoneHolding(pairs, name, zone)
    ensures ZoneOf(pairs, name) == Some(zone)
  {
    hide Zones, ZoneOf;
    ZoneOfMeaning(pairs, name, zone);
    forall y | y in Zones(pairs) && InZone(name, y) && y != zone ensures |y| < |zone| {
      if |y| == |zone| {
        ZonesNest(name, y, zone);
      }
    }
  }

  /** No CNAME takes the name, and it lies neither in the domain nor in a zone of the table. */
  ghost predicate NotOurs(conf: Conf, name: Text) {
    && Lookup(conf.pairs, name) == None && !InZone(name, conf.domain)
    && forall z :: z in Zones(conf.pairs) ==> !InZone(name, z)
  }

  /** REFUSED exactly when the name is no host name, the class is neither IN nor ANY, or nothing here is its zone. */
  lemma RefusedExactly(conf: Conf, c: Clusters, q: Query, limit: nat)
    requires |q.question| >= 5 && GoodPairs(conf.pairs)
    ensures CodeOf(Answered(conf, c, q, StartDraft(q, limit))) == 5
            <==> || TextOf(q.qname) == None
                 || (q.qclass != 1 && q.qclass != 255)
                 || NotOurs(conf, TextOf(q.qname).value)
  {
    hide Closed, Service, TextOf, Lookup, ZoneOf, AnswerCname, Zones, StartDraft;
    var s := StartDraft(q, limit);
    StartShape(q, limit);
    if TextOf(q.qname).Some? && (q.qclass == 1 || q.qclass == 255) {
      var name := TextOf(q.qname).value;
      if Lookup(conf.pairs, name) == None && InZone(name, conf.domain) {
        ServiceNotRefused(conf, c, name, q.qtype, s);
      } else {
        RefusedElsewhere(conf, c, q, limit, name);
      }
    }
  }

  lemma RefusedElsewhere(conf: Conf, c: Clusters, q: Query, limit: nat, name: Text)
    requires TextOf(q.qname) == Some(name) && (q.qclass == 1 || q.qclass == 255)
    requires |q.question| >= 5 && GoodPairs(conf.pairs)
    requires Lookup(conf.pairs, name).Some? || !InZone(name, conf.domain)
    ensures CodeOf(Answered(conf, c, q, StartDraft(q, limit))) == 5 <==> NotOurs(conf, name)
  {
    hide Answered, TextOf, Lookup, ZoneOf, Zones, StartDraft, SoaFits, AliasHasRoom, InZone;
    var zone := ZoneOf(conf.pairs, name).GetOr([]);
    StartShape(q, limit);
    ZoneOfMeaning(conf.pairs, name, zone);
    DecisionElsewhere(conf, c, q, limit, name, zone);
  }

  lemma ServiceNotRefused(conf: Conf, c: Clusters, name: Text, qtype: u16, s: Draft)
    requires s.flags % 16 == 0 && s.an == 0
    ensures var (d, ok) := Service(conf, c, name, qtype, s);
            CodeOf(if ok then d else WithRcode(d, ServFail)) != 5
  {
    hide Closed, WriteAll, Addresses, Exists;
    var place := PlaceOf(conf.domain, name);
    WriteAllKeeps(s, Addresses(c, place));
    var d := if (qtype == 1 || qtype == 255) then WriteAll(s, Addresses(c, place)) else s;
    ClosedKeeps(if Exists(c, place) then d else WithRcode(d, NxDomain), conf.domain);
  }

  // ---------- NXDOMAIN ----------

  /** A name that does not exist has no addresses. */
  lemma UnknownHasNone(c: Clusters, place: Place)
    requires !Exists(c, place)
    ensures Addresses(c, place) == []
  {
  }

  /** The code a name in the domain gets, failures aside: NXDOMAIN exactly when it does not exist. */
  lemma NxDomainExactly(conf: Conf, c: Clusters, q: Query, limit: nat, name: Text)
    requires AsksService(conf, q, name)
    ensures var d := Answered(conf, c, q, StartDraft(q, limit));
            CodeOf(d) != 2
            ==> (CodeOf(d) == 3 <==> !Exists(c, PlaceOf(conf.domain, name)))
  {
    hide Closed, TextFrom, Lookup, Addresses, Exists, WriteAll, PlaceOf, StartDraft, InZone;
    var s := StartDraft(q, limit);
    var place := PlaceOf(conf.domain, name);
    StartShape(q, limit);
    WriteNone(s);
    if !Exists(c, place) {
      UnknownHasNone(c, place);
    }
    var d := if (q.qtype == 1 || q.qtype == 255) then WriteAll(s, Addresses(c, place)) else s;
    WriteAllKeeps(s, Addresses(c, place));
    ClosedKeeps(if Exists(c, place) then d else WithRcode(d, NxDomain), conf.domain);
  }

  /** Whether a name exists does not depend on the type asked for, only a failure can hide it. */
  lemma ExistenceIgnoresType(conf: Conf, c: Clusters, q: Query, qtype: u16, limit: nat, name: Text)
    requires AsksService(conf, q, name)
    ensures var d := Answered(conf, c, q, StartDraft(q, limit));
            var d' := Answered(conf, c, q.(qtype := qtype), StartDraft(q.(qtype := qtype), limit));
            CodeOf(d) != 2 && CodeOf(d') != 2
            ==> (CodeOf(d) == 3 <==> CodeOf(d') == 3)
  {
    hide Answered;
    NxDomainExactly(conf, c, q, limit, name);
    NxDomainExactly(conf, c, q.(qtype := qtype), limit, name);
  }

  /** The code that is read from the bytes of the reply to a datagram, when one goes back. */
  function ReplyCode(conf: Conf, c: Clusters, msg: seq<byte>, room: nat): Option<nat> {
    match Respond(conf, c, msg, room)
    case None => None
    case Some(out) => if |out| < 4 then None else Some(out[3] % 16)
  }

  lemma ReplyCodeMeaning(conf: Conf, c: Clusters, msg: seq<byte>, room: nat)
    ensures ReplyCode(conf, c, msg, room)
            == match DraftFor(conf, c, msg, room)
               case None => None
               case Some(d) => Some(CodeOf(d))
  {
    hide DraftFor, Final, GoodEntries, CodeOf;
    DraftIsGood(conf, c, msg, room);
    if DraftFor(conf, c, msg, room).Some? {
      CodeIsRead(DraftFor(conf, c, msg, room).value);
    }
  }

  /** The code for a name in the domain, exactly: by its addresses, the room for the SOA record, and existence. */
  lemma CodeExactly(conf: Conf, c: Clusters, msg: seq<byte>, room: nat, name: Text)
    requires room >= 512 && Parse(msg).Good? && AsksService(conf, Parse(msg).q, name)
    ensures var q := Parse(msg).q;
            var place := PlaceOf(conf.domain, name);
            ReplyCode(conf, c, msg, room)
            == Some(if (q.qtype == 1 || q.qtype == 255) && Addresses(c, place) != [] then 0
                    else if !SoaFits(conf.domain, |q.question| - 4, q.edns.Some?, Min(Limit(q), room))
                    then 2
                    else if Exists(c, place) then 0
                    else 3)
  {
    hide Answered, StartDraft, AsksService, SoaFits, Parse, PlaceOf, Exists, Addresses, GoodEntries, ReplyCode;
    var q := Parse(msg).q;
    var limit := Min(Limit(q), room);
    ReplyCodeMeaning(conf, c, msg, room);
    QuestionLength(msg);
    StartFits(q, limit);
    StartShape(q, limit);
    AnsweredForm(conf, c, q, limit);
    FormCounts(StartDraft(q, limit), Answered(conf, c, q, StartDraft(q, limit)));
    if (q.qtype == 1 || q.qtype == 255) && Addresses(c, PlaceOf(conf.domain, name)) != [] {
      NoFalseNodata(conf, c, msg, room, name);
    } else {
      ServFailExactly(conf, c, q, limit, name);
      NxDomainExactly(conf, c, q, limit, name);
      NegativeCode(conf, c, q, limit, name);
    }
  }

  lemma NegativeCode(conf: Conf, c: Clusters, q: Query, limit: nat, name: Text)
    requires AsksService(conf, q, name)
    requires (q.qtype == 1 || q.qtype == 255) ==> Addresses(c, PlaceOf(conf.domain, name)) == []
    ensures CodeOf(Answered(conf, c, q, StartDraft(q, limit))) in {0, 2, 3}
  {
    hide Answer, Closed, AsksService, StartDraft, PlaceOf, Exists, Addresses;
    var rcode := if Exists(c, PlaceOf(conf.domain, name)) then NoError else NxDomain;
    StartShape(q, limit);
    NegativeAnswer(conf, c, q, StartDraft(q, limit), name);
    ClosedKeeps(WithRcode(StartDraft(q, limit), rcode), conf.domain);
  }
}
