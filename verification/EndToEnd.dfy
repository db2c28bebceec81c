/** From the state of a cluster to the bytes of an answer, and back through the decoder. */
module EndToEnd {
  import opened Basics
  import opened Names
  import opened Reading
  import opened NameReaders
  import opened Caches
  import opened Builders
  import opened Watchers
  import opened Writing
  import opened RoundTrips
  import opened Servers
  import opened ServerProps
  import opened NxDomains
  import opened Federation
  import opened Protocol
  import opened NoMissedUpdate
  import opened Peers

  /** The records of a reply: its answers come first, what is behind them is the authority section. */
  function AnswersOf(d: Draft): seq<Entry> {
    d.entries[..Min(d.an, |d.entries|)]
  }

  function AuthorityOf(d: Draft): seq<Entry> {
    d.entries[Min(d.an, |d.entries|)..]
  }

  /**
   Whatever parsed query the server answers, from whatever cache: the bytes decode to the records of the reply,
   each in its section, with the id of the query; only a name of more than 255 bytes as text is refused.
   */
  lemma HandleDecodes(conf: Conf, c: Clusters, msg: seq<byte>, room: nat)
    requires room >= 512 && Parse(msg).Good?
    ensures DraftFor(conf, c, msg, room).Some?
    ensures var d := DraftFor(conf, c, msg, room).value;
            var qname := LabelsAt(msg, 12);
            && GoodDraft(d)
            && Decoded(Respond(conf, c, msg, room).value)
               == if AllReadable(AnswersOf(d), qname) && AllReadable(AuthorityOf(d), qname)
                  then Ok(Message(Parse(msg).q.id, d.flags, RecordsOf(AnswersOf(d), qname),
                                  RecordsOf(AuthorityOf(d), qname), if Parse(msg).q.edns.Some? then 1 else 0))
                  else Err(Malformed)
  {
    hide Answered, StartDraft, Parse, LabelsAt, GoodEntries, BodyLen, Final, Decoded, AllReadable, RecordsOf, HasForm;
    var q := Parse(msg).q;
    var limit := Min(Limit(q), room);
    var s := StartDraft(q, limit);
    var d := Answered(conf, c, q, s);
    QuestionLength(msg);
    ParsedName(msg);
    StartFits(q, limit);
    StartShape(q, limit);
    AnsweredGood(conf, c, q, s);
    AnsweredForm(conf, c, q, limit);
    FormCounts(s, d);
    StartAsks(q, limit);
    CountsFit(d);
    assert d.entries == AnswersOf(d) + AuthorityOf(d);
    FinalReads(d, LabelsAt(msg, 12), q.qtype, q.qclass, AnswersOf(d), AuthorityOf(d));
  }

  lemma StartAsks(q: Query, limit: nat)
    ensures StartDraft(q, limit).qd == 1
  {
  }

  /** The records of addresses, as the decoder gives them. */
  function AddressRecords(ips: seq<Ip>, name: Text): seq<Record> {
    if ips == [] then [] else [Record(name, 1, 5, A(ips[0]))] + AddressRecords(ips[1..], name)
  }

  lemma {:induction false} AddressesDecode(es: seq<Entry>, ips: seq<Ip>, qname: seq<Label>)
    requires |es| == |ips| && forall i :: 0 <= i < |ips| ==> es[i] == AddressEntry(ips[i], TTL)
    requires |Dotted(qname)| <= 255
    ensures AllReadable(es, qname) && RecordsOf(es, qname) == AddressRecords(ips, Fqdn(qname))
    decreases |es|
  {
    if es != [] {
      assert es[0] == AddressEntry(ips[0], TTL);
      forall i | 0 <= i < |ips[1..]| ensures es[1..][i] == AddressEntry(ips[1..][i], TTL) {
        assert es[i + 1] == AddressEntry(ips[i + 1], TTL);
      }
      AddressesDecode(es[1..], ips[1..], qname);
    }
  }

  /**
   A query for the addresses of a name, in bytes: the reply decodes to A records of exactly the first min(n, k)
   addresses the cache has for it, with TTL 5, named as asked.
   */
  lemma AddressesOverTheWire(conf: Conf, c: Clusters, msg: seq<byte>, room: nat, name: Text)
    requires room >= 512 && Parse(msg).Good?
    requires AsksService(conf, Parse(msg).q, name) && (Parse(msg).q.qtype == 1 || Parse(msg).q.qtype == 255)
    requires Addresses(c, PlaceOf(conf.domain, name)) != []
    ensures var q := Parse(msg).q;
            var ips := Addresses(c, PlaceOf(conf.domain, name));
            var most := if q.edns == None || q.edns.value < 512 then 512 else Min(q.edns.value, 1232);
            var k := (Min(most, room) - 12 - |q.question| - (if q.edns.Some? then 11 else 0)) / 16;
            && Respond(conf, c, msg, room).Some?
            && var m := Decoded(Respond(conf, c, msg, room).value);
            && m.Ok? && m.value.id == q.id && m.value.authority == [] && 14 <= k
            && m.value.answers == AddressRecords(ips[..Min(|ips|, k)], Fqdn(LabelsAt(msg, 12)))
  {
    hide AsksService, AnswersAre, Parse, Respond, Decoded, LabelsAt, AddressRecords, Addresses, PlaceOf;
    QuestionLength(msg);
    RoomForSome(Parse(msg).q, room);
    AnswersDecode(conf, c, msg, room, name);
  }

  lemma RoomForSome(q: Query, room: nat)
    requires room >= 512 && |q.question| <= 259
    ensures Limit(q) == if q.edns == None || q.edns.value < 512 then 512 else Min(q.edns.value, 1232)
    ensures 14 <= (Min(Limit(q), room) - 12 - |q.question| - (if q.edns.Some? then 11 else 0)) / 16
  {
  }

  /** The draft of such a reply: the addresses and nothing else. */
  lemma AnswersDrafted(conf: Conf, c: Clusters, msg: seq<byte>, room: nat, name: Text)
    requires room >= 512 && Parse(msg).Good?
    requires AsksService(conf, Parse(msg).q, name) && (Parse(msg).q.qtype == 1 || Parse(msg).q.qtype == 255)
    requires Addresses(c, PlaceOf(conf.domain, name)) != []
    ensures var q := Parse(msg).q;
            var ips := Addresses(c, PlaceOf(conf.domain, name));
            var k := (Min(Limit(q), room) - 12 - |q.question| - (if q.edns.Some? then 11 else 0)) / 16;
            && DraftFor(conf, c, msg, room).Some? && k >= 0
            && var d := DraftFor(conf, c, msg, room).value;
            && AnswersAre(d, ips[..Min(|ips|, k)]) && |d.entries| == d.an
            && AuthorityOf(d) == [] && AnswersOf(d) == d.entries
  {
    hide Answered, StartDraft, Parse, GoodEntries, BodyLen, Addresses, PlaceOf, AsksService;
    var q := Parse(msg).q;
    var limit := Min(Limit(q), room);
    QuestionLength(msg);
    StartFits(q, limit);
    AddressAnswer(conf, c, q, limit, name);
    NoFalseNodata(conf, c, msg, room, name);
    ReplyClassification(conf, c, msg, room);
  }

  lemma AnswersDecode(conf: Conf, c: Clusters, msg: seq<byte>, room: nat, name: Text)
    requires room >= 512 && Parse(msg).Good?
    requires AsksService(conf, Parse(msg).q, name) && (Parse(msg).q.qtype == 1 || Parse(msg).q.qtype == 255)
    requires Addresses(c, PlaceOf(conf.domain, name)) != []
    ensures var q := Parse(msg).q;
            var ips := Addresses(c, PlaceOf(conf.domain, name));
            var k := (Min(Limit(q), room) - 12 - |q.question| - (if q.edns.Some? then 11 else 0)) / 16;
            && Respond(conf, c, msg, room).Some? && k >= 0
            && var m := Decoded(Respond(conf, c, msg, room).value);
            && m.Ok? && m.value.id == q.id && m.value.authority == []
            && m.value.answers == AddressRecords(ips[..Min(|ips|, k)], Fqdn(LabelsAt(msg, 12)))
  {
    hide DraftFor, Parse, LabelsAt, GoodDraft, Final, Decoded, AllReadable, RecordsOf, AuthorityOf, AnswersOf,
         Addresses, AddressRecords, TextFrom, Encode, AllPrintable, WireLen, PlaceOf, InZone, Limit, Lower, Join;
    var (q, qname) := (Parse(msg).q, LabelsAt(msg, 12));
    ParsedName(msg);
    NameTextMeaning(qname);
    PrintableIsAscii(qname);
    FqdnAscii(qname);
    HandleDecodes(conf, c, msg, room);
    AnswersDrafted(conf, c, msg, room, name);
    var d, ips := DraftFor(conf, c, msg, room).value, Addresses(c, PlaceOf(conf.domain, name));
    var k := (Min(Limit(q), room) - 12 - |q.question| - (if q.edns.Some? then 11 else 0)) / 16;
    AddressesDecode(d.entries, ips[..Min(|ips|, k)], qname);
    NothingRead(qname);
  }

  lemma NothingRead(qname: seq<Label>)
    ensures AllReadable([], qname) && RecordsOf([], qname) == []
  {
  }

  /**
   Whatever the watchers saw of their clusters and in whatever order they sent it, no reply from the cache they
   built names an address twice.
   */
  lemma WatchersNeverRepeat(conf: Conf, us: seq<Update>, msg: seq<byte>, room: nat)
    requires room >= 512 && forall i :: 0 <= i < |us| ==> FromWatcher(us[i])
    requires DraftFor(conf, ApplyAll([], us), msg, room).Some?
    ensures NoDup(DraftFor(conf, ApplyAll([], us), msg, room).value.entries)
  {
    hide FromWatcher, NoRepeats, DraftFor;
    BuiltCachesAreClean(us);
    RepliesNeverRepeat(conf, ApplyAll([], us), msg, room);
  }

  /**
   The query is answered with these addresses, as far as they fit: its reply decodes to A records of the first
   min(n, k) of them, in order, or to no answer when there are none.
   */
  ghost predicate AnsweredWith(conf: Conf, c: Clusters, msg: seq<byte>, room: nat, ips: seq<Ip>)
    requires Parse(msg).Good?
  {
    var q := Parse(msg).q;
    var most := if q.edns == None || q.edns.value < 512 then 512 else Min(q.edns.value, 1232);
    var k := (Min(most, room) - 12 - |q.question| - (if q.edns.Some? then 11 else 0)) / 16;
    && Respond(conf, c, msg, room).Some? && 14 <= k
    && var m := Decoded(Respond(conf, c, msg, room).value);
    if ips == [] then DraftFor(conf, c, msg, room).value.an == 0 && (m.Ok? ==> m.value.answers == [])
    else
      && m.Ok? && m.value.id == q.id && m.value.authority == []
      && m.value.answers == AddressRecords(ips[..Min(|ips|, k)], Fqdn(LabelsAt(msg, 12)))
  }

  lemma AddressesAreAnswered(conf: Conf, c: Clusters, msg: seq<byte>, room: nat, name: Text)
    requires room >= 512 && Parse(msg).Good?
    requires AsksService(conf, Parse(msg).q, name) && (Parse(msg).q.qtype == 1 || Parse(msg).q.qtype == 255)
    ensures AnsweredWith(conf, c, msg, room, Addresses(c, PlaceOf(conf.domain, name)))
  {
    hide Answered, StartDraft, Parse, LabelsAt, Final, Decoded, AllReadable, Addresses, AddressRecords, AsksService,
         PlaceOf, GoodEntries, BodyLen;
    QuestionLength(msg);
    if Addresses(c, PlaceOf(conf.domain, name)) != [] {
      AddressesOverTheWire(conf, c, msg, room, name);
    } else {
      HandleDecodes(conf, c, msg, room);
      NoFalseNodata(conf, c, msg, room, name);
    }
  }

  /**
   At rest the answer is the truth. Once a run has come to rest, a query for `job.cluster.domain` is answered
   with the addresses at which tasks of the job run at that moment.
   */
  lemma AnswersAtRest(p: Setup, states: seq<Sys>, moves: seq<Move>, i: nat, conf: Conf, msg: seq<byte>, room: nat,
                      job: Text)
    requires IsRun(p, states, moves) && i < |states| && AtRest(states[i])
    requires Lower(job) == job && job != [] && DOT !in job
    requires room >= 512 && Parse(msg).Good? && (Parse(msg).q.qtype == 1 || Parse(msg).q.qtype == 255)
    requires AsksService(conf, Parse(msg).q, job + [DOT] + ClusterName(p) + [DOT] + conf.domain)
    ensures var s := states[i];
            AnsweredWith(conf, s.cache, msg, room, JobView(p.world, s.truth.agents, s.truth.tasks, job))
  {
    hide AnsweredWith, JobView, AsksService, IsRun, Parse, PlaceOf, AtRest, Lower, ClusterName;
    AtRestTheCacheIsTrue(p, states, moves, i, job);
    PlaceBelow(conf.domain, job, ClusterName(p));
    AddressesAreAnswered(conf, states[i].cache, msg, room, job + [DOT] + ClusterName(p) + [DOT] + conf.domain);
  }

  /**
   The federated answer at rest. Once all peers have come to rest, a query for `job.domain` is answered with the
   addresses at which tasks of the job run in any of their clusters at that moment, each once.
   */
  lemma FederatedAnswersAtRest(ps: seq<Setup>, trace: seq<seq<Sys>>, turns: seq<(nat, Move)>, t: nat,
                               conf: Conf, msg: seq<byte>, room: nat, job: Text) returns (ips: seq<Ip>)
    requires IsJointRun(ps, trace, turns) && t < |trace| && ps != []
    requires forall j :: 0 <= j < |trace[t]| ==> AtRest(trace[t][j])
    requires Lower(job) == job && job != [] && DOT !in job
    requires room >= 512 && Parse(msg).Good? && (Parse(msg).q.qtype == 1 || Parse(msg).q.qtype == 255)
    requires AsksService(conf, Parse(msg).q, job + [DOT] + conf.domain)
    ensures |trace[t]| == |ps| && AnsweredWith(conf, trace[t][0].cache, msg, room, ips) && NoDup(ips)
    ensures forall ip :: ip in ips <==> exists j :: 0 <= j < |ps| && ip in Actual(ps[j], trace[t][j].truth, job)
  {
    hide AnsweredWith, Actual, AsksService, IsJointRun, Parse, PlaceOf, AtRest, Lower, ClusterName, GetMerged;
    AllAtRestTheCacheIsTrue(ps, trace, turns, t, job);
    var c := trace[t][0].cache;
    ips := GetMerged(c, job);
    PlaceIs(conf.domain, job);
    AddressesAreAnswered(conf, c, msg, room, job + [DOT] + conf.domain);
  }
}
