/**
 Replies that show where the promises end: names that an NXDOMAIN hides, through a cluster, a CNAME or a zone, and a
 SERVFAIL although the byte count leaves room.
 */
module ReplyExamples {
  import opened Basics
  import opened Names
  import opened Reading
  import opened NameReaders
  import opened Tables
  import opened Caches
  import opened Cnames
  import opened Writing
  import opened Servers
  import opened ServerProps
  import opened NxDomains

  // ---------- A name hidden by a cluster ----------

  const D: Text := [100]
  const A_D: Text := [97, DOT, 100]
  const B_A: Text := [98, DOT, 97]
  const J_B_A_D: Text := [106, DOT, 98, DOT, 97, DOT, 100]
  const DOTTED: Clusters := [Row(B_A, [Row([106], [Ip(10, 0, 0, 1)])])]

  /**
   It can happen: in the domain `d`, with the cluster `b.a` that holds the job `j` at one address and no CNAME, a
   query for `a.d` gets NXDOMAIN, and a query for `j.b.a.d` its address.
   */
  lemma DottedClusterHides(room: nat) returns (conf: Conf, above: seq<byte>, below: seq<byte>)
    requires room >= 512
    ensures GoodConf(conf) && WellSorted(DOTTED)
    ensures Gets(conf, DOTTED, above, room, A_D, 3) && Gets(conf, DOTTED, below, room, J_B_A_D, 0)
    ensures Below(J_B_A_D, A_D) && DraftFor(conf, DOTTED, below, room).value.an == 1
  {
    hide Parse, TextFrom, Lookup, PlaceOf, Exists, Addresses, Askable, LabelsOf, WireLen, Gets, Get, Sorted, StripDot,
         Lower, Below, InZone, WellSorted;
    conf := Conf(D, Pairs([], []));
    AskableExamples();
    DottedPlaces();
    NothingKnown([]);
    above := AskingFor(A_D, 1, None);
    below := AskingFor(J_B_A_D, 1, None);
    NoPairsNoCname(A_D);
    NoPairsNoCname(J_B_A_D);
    DottedCodes(conf, DOTTED, above, below, room, A_D, J_B_A_D);
  }

  lemma DottedPlaces()
    ensures WellSorted(DOTTED) && !Exists(DOTTED, PlaceOf(D, A_D)) && |Addresses(DOTTED, PlaceOf(D, J_B_A_D))| == 1
    ensures InZone(A_D, D) && InZone(J_B_A_D, D) && Below(J_B_A_D, A_D)
  {
    hide PlaceOf, Exists, Addresses, InZone, Below, WellSorted;
    DottedCache();
    PlacesIn(D, [97], [98], [106]);
    assert [97] + [DOT] + D == A_D && [98] + [DOT] + [97] == B_A && [106] + [DOT] + B_A + [DOT] + D == J_B_A_D;
  }

  lemma PlacesIn(domain: Text, a: Text, b: Text, j: Text)
    requires DOT !in a && DOT !in j
    ensures var (k, name) := (b + [DOT] + a, a + [DOT] + domain);
            var text := j + [DOT] + k + [DOT] + domain;
            && PlaceOf(domain, name) == EveryCluster(a) && PlaceOf(domain, text) == OneCluster(k, j)
            && InZone(name, domain) && InZone(text, domain) && Below(text, name)
  {
    hide PlaceOf, SplitOnce, InZone, Below;
    var k := b + [DOT] + a;
    PlaceIs(domain, a);
    PlaceBelow(domain, j, k);
    InZoneBelow(a, domain);
    InZoneBelow(j + [DOT] + k, domain);
    InZoneBelow(b, a);
    ClusterBelow(domain, a, k, j);
  }

  lemma OneKey<V>(k: Text, v: V, x: Text)
    ensures Sorted([Row(k, v)]) && Get([Row(k, v)], x) == if x == k then Some(v) else None
  {
  }

  lemma DottedCache()
    ensures WellSorted(DOTTED) && !Exists(DOTTED, EveryCluster([97]))
    ensures |Addresses(DOTTED, OneCluster(B_A, [106]))| == 1
  {
    var a: Text, j: Text := [97], [106];
    var jobs: Jobs := [Row(j, [Ip(10, 0, 0, 1)])];
    assert a[0] != j[0] && |a| != |B_A| && DOTTED == [Row(B_A, jobs)] && DOTTED[1..] == [];
    OneKey(j, [Ip(10, 0, 0, 1)], a);
    OneKey(j, [Ip(10, 0, 0, 1)], j);
    OneKey(B_A, jobs, a);
    OneKey(B_A, jobs, B_A);
    hide Get;
    assert Merged(DOTTED[1..], a) == [];
    assert Merged(DOTTED, a) == [];
  }

  lemma DottedCodes(conf: Conf, c: Clusters, above: seq<byte>, below: seq<byte>, room: nat, text: Text, text': Text)
    requires room >= 512
    requires Parse(above).Good? && AsksService(conf, Parse(above).q, text) && Parse(above).q.edns == None
    requires |Parse(above).q.question| == 9 && LabelsOf(conf.domain) == [[100]]
    requires Parse(below).Good? && AsksService(conf, Parse(below).q, text') && Parse(below).q.qtype == 1
    requires !Exists(c, PlaceOf(conf.domain, text)) && |Addresses(c, PlaceOf(conf.domain, text'))| == 1
    ensures Gets(conf, c, above, room, text, 3) && Gets(conf, c, below, room, text', 0)
    ensures DraftFor(conf, c, below, room).value.an == 1
  {
    hide Parse, TextFrom, Lookup, PlaceOf, Exists, Addresses, Answered;
    UnknownHasNone(c, PlaceOf(conf.domain, text));
    assert WireLen([[100]]) == 3;
    CodeExactly(conf, c, above, room, text);
    CodeExactly(conf, c, below, room, text');
    NoFalseNodata(conf, c, below, room, text');
  }

  lemma NoPairsNoCname(name: Text)
    ensures Lookup(Pairs([], []), name) == None
  {
    hide Lower, StripDot, Walk, SplitOnce;
    WalkMeaning([], Lower(StripDot(name)));
  }

  lemma OneLabelMore(l: Label, ls: seq<Label>)
    requires ls != []
    ensures Join([l] + ls) == l + [DOT] + Join(ls) && WireLen([l] + ls) == 1 + |l| + WireLen(ls)
  {
    assert ([l] + ls)[1..] == ls;
  }

  lemma AskableExamples()
    ensures LabelsOf(D) == [[100]]
    ensures Askable(A_D) && WireLen(LabelsOf(A_D)) == 5 && Askable(J_B_A_D) && WireLen(LabelsOf(J_B_A_D)) == 9
  {
    hide Askable, LabelsOf, Split, Lower;
    var d: seq<Label> := [[100]];
    var ad, jbad := [[97]] + d, [[106]] + ([[98]] + ([[97]] + d));
    assert Join(d) == D && WireLen(d) == 3;
    hide Join, WireLen;
    LabelsOfJoin(d);
    OneLabelMore([97], d);
    OneLabelMore([98], ad);
    OneLabelMore([106], [[98]] + ad);
    ExampleTexts();
    TextIsAskable(ad);
    TextIsAskable(jbad);
  }

  lemma ExampleTexts()
    ensures [97] + [DOT] + D == A_D && [106] + [DOT] + ([98] + [DOT] + A_D) == J_B_A_D
    ensures Lower(A_D) == A_D && Lower(J_B_A_D) == J_B_A_D
  {
    hide Lower;
  }

  // ---------- Names hidden by CNAMEs ----------

  const T: Text := [116, DOT]
  const X_A_D: Text := [120, DOT, 97, DOT, 100]

  lemma TargetLabels()
    ensures LabelsOf(T) == [[116]] && WireLen(LabelsOf(T)) == 3
  {
    hide Split;
    var ls: seq<Label> := [[116]];
    assert StripDot(T) == [116] && Join(ls) == [116];
    LabelsOfJoin(ls);
    assert LabelsOf(T) == LabelsOf([116]);
  }

  /**
   A wildcard hides a name from an empty cache: in the domain `d` with the wildcard `*.a.d`, a query for `a.d` gets
   NXDOMAIN, and a query for `j.b.a.d` its CNAME.
   */
  lemma WildcardHides(room: nat) returns (conf: Conf, above: seq<byte>, below: seq<byte>)
    requires room >= 512
    ensures GoodConf(conf) && conf.domain == D && conf.pairs == Pairs([], [Row(A_D, T)]) && Below(J_B_A_D, A_D)
    ensures Gets(conf, [], above, room, A_D, 3) && Gets(conf, [], below, room, J_B_A_D, 0)
    ensures DraftFor(conf, [], below, room).value.an == 1
  {
    conf := Conf(D, Pairs([], [Row(A_D, T)]));
    AskableExamples();
    DottedPlaces();
    OneWildcard(A_D, T, A_D);
    above := AskingFor(A_D, 1, None);
    below := AskingFor(J_B_A_D, 1, None);
    hide Parse, TextFrom, Lookup, Askable, LabelsOf, WireLen, Gets, Sorted, Get, StripDot, PlaceOf;
    WildcardCodes(conf, above, below, room);
  }

  lemma NothingKnown(x: Text)
    ensures Get<Text>([], x) == None && Sorted<Text>([])
  {
  }

  /** With one wildcard and nothing else a name is taken exactly when it lies properly below the parent. */
  lemma OneWildcard(parent: Text, v: Text, name: Text)
    requires parent != [] && Askable(name)
    ensures GoodPairs(Pairs([], [Row(parent, v)]))
    ensures Lookup(Pairs([], [Row(parent, v)]), name) == if Below(name, parent) then Some(v) else None
  {
    hide Askable, Lookup, Get, Sorted, StripDot, Lower, InZone;
    var rows := [Row(parent, v)];
    AskableShape(name);
    NothingKnown(name);
    OneKey(parent, v, []);
    OneKey(parent, v, parent);
    forall p ensures Covers(rows, name, p) <==> p == parent && Below(name, parent) {
      OneKey(parent, v, p);
    }
    LookupMeaning(Pairs([], rows), name);
    assert Below(name, parent) ==> LongestCover(rows, name, parent);
  }

  /** With one exact key and nothing else only that name is taken. */
  lemma OneExactKey(k: Text, v: Text, name: Text)
    requires Askable(name)
    ensures GoodPairs(Pairs([Row(k, v)], []))
    ensures Lookup(Pairs([Row(k, v)], []), name) == if name == k then Some(v) else None
  {
    hide Askable, Lookup, Get, Sorted, StripDot, Lower, InZone;
    AskableShape(name);
    NothingKnown([]);
    OneKey(k, v, name);
    forall p ensures !Covers([], name, p) {
      NothingKnown(p);
    }
    LookupMeaning(Pairs([Row(k, v)], []), name);
  }

  lemma WildcardCodes(conf: Conf, above: seq<byte>, below: seq<byte>, room: nat)
    requires room >= 512 && conf == Conf(D, Pairs([], [Row(A_D, T)]))
    requires Parse(above).Good? && TextOf(Parse(above).q.qname) == Some(A_D) && Parse(above).q.qclass == 1
    requires Parse(above).q.edns == None && |Parse(above).q.question| == 9
    requires Parse(below).Good? && TextOf(Parse(below).q.qname) == Some(J_B_A_D) && Parse(below).q.qclass == 1
    requires Parse(below).q.edns == None && |Parse(below).q.question| == 13
    ensures Gets(conf, [], above, room, A_D, 3) && Gets(conf, [], below, room, J_B_A_D, 0)
    ensures DraftFor(conf, [], below, room).value.an == 1
  {
    hide Parse, TextFrom, Lookup, Askable, LabelsOf, WireLen, PlaceOf, ReplyCode, DraftFor, InZone, StripDot;
    AskableExamples();
    DottedPlaces();
    OneWildcard(A_D, T, A_D);
    OneWildcard(A_D, T, J_B_A_D);
    UnknownInEmpty();
    TargetLabels();
    ShortLabels();
    CodeEverywhere(conf, [], above, room, A_D);
    CodeEverywhere(conf, [], below, room, J_B_A_D);
    OneAlias(conf, below, room, J_B_A_D);
  }

  lemma OneAlias(conf: Conf, msg: seq<byte>, room: nat, name: Text)
    requires room >= 512 && Parse(msg).Good? && TextOf(Parse(msg).q.qname) == Some(name) && Parse(msg).q.qclass == 1
    requires Parse(msg).q.edns == None && |Parse(msg).q.question| == 13
    requires Lookup(conf.pairs, name) == Some(T) && WireName(LabelsOf(T)) && WireLen(LabelsOf(T)) == 3
    ensures DraftFor(conf, [], msg, room).Some? && DraftFor(conf, [], msg, room).value.an == 1
  {
    hide Parse, TextFrom, Lookup, LabelsOf, WireName, WireLen, Answered, StartDraft, GoodEntries;
    var q := Parse(msg).q;
    StartFits(q, 512);
    AliasDecision(conf, [], q, 512, name);
    StartShape(q, 512);
  }

  lemma UnknownInEmpty()
    ensures !Exists([], PlaceOf(D, A_D)) && Addresses([], PlaceOf(D, A_D)) == []
  {
    assert A_D == [97] + [DOT] + D;
    PlaceIs(D, [97]);
    UnknownHasNone([], PlaceOf(D, A_D));
  }

  lemma ShortLabels()
    ensures WireLen([[100]]) == 3
  {
  }

  /**
   A zone of CNAMEs hides the domain below it, whatever the cache holds: in the domain `j.b.a.d` with the CNAME
   `x.a.d`, a query for `a.d` gets NXDOMAIN, and a query for the domain itself NODATA.
   */
  lemma ZoneHides(c: Clusters, room: nat) returns (conf: Conf, above: seq<byte>, below: seq<byte>)
    requires room >= 512
    ensures GoodConf(conf) && conf.domain == J_B_A_D && conf.pairs == Pairs([Row(X_A_D, T)], []) && Below(J_B_A_D, A_D)
    ensures Gets(conf, c, above, room, A_D, 3) && Gets(conf, c, below, room, J_B_A_D, 0)
    ensures DraftFor(conf, c, below, room).value.an == 0
  {
    conf := Conf(J_B_A_D, Pairs([Row(X_A_D, T)], []));
    AskableExamples();
    DottedPlaces();
    OneExactKey(X_A_D, T, A_D);
    above := AskingFor(A_D, 1, None);
    below := AskingFor(J_B_A_D, 1, None);
    hide Parse, TextFrom, Lookup, Askable, LabelsOf, WireLen, Gets, Sorted, Get, StripDot, PlaceOf;
    ZoneCodes(conf, c, above, below, room);
  }

  lemma ZoneHolds()
    ensures ZoneOf(Pairs([Row(X_A_D, T)], []), A_D) == Some(A_D) && X_A_D != A_D && X_A_D != J_B_A_D
  {
    assert |X_A_D| != |A_D| && |X_A_D| != |J_B_A_D|;
    assert X_A_D == [120] + [DOT] + A_D;
    SplitOnceAt([120], A_D);
    hide SplitOnce;
    assert ExactZones([Row(X_A_D, T)]) == [A_D];
    assert ZoneList(Pairs([Row(X_A_D, T)], [])) == [A_D] && [A_D][1..] == [];
    assert Longest(A_D, Some(A_D), []) == Some(A_D);
    assert Longest(A_D, None, [A_D]) == Some(A_D);
  }

  lemma ZoneCodes(conf: Conf, c: Clusters, above: seq<byte>, below: seq<byte>, room: nat)
    requires room >= 512 && conf == Conf(J_B_A_D, Pairs([Row(X_A_D, T)], []))
    requires Parse(above).Good? && TextOf(Parse(above).q.qname) == Some(A_D) && Parse(above).q.qclass == 1
    requires Parse(above).q.edns == None && |Parse(above).q.question| == 9
    requires Parse(below).Good? && TextOf(Parse(below).q.qname) == Some(J_B_A_D) && Parse(below).q.qclass == 1
    requires Parse(below).q.edns == None && |Parse(below).q.question| == 13 && Parse(below).q.qtype == 1
    ensures Gets(conf, c, above, room, A_D, 3) && Gets(conf, c, below, room, J_B_A_D, 0)
    ensures DraftFor(conf, c, below, room).value.an == 0
  {
    hide Parse, TextFrom, Lookup, LabelsOf, WireLen, Answered, StartDraft, PlaceOf, GoodEntries, StripDot, ZoneOf,
         Exists, Addresses;
    AskableExamples();
    OneExactKey(X_A_D, T, A_D);
    OneExactKey(X_A_D, T, J_B_A_D);
    ZoneHolds();
    ApexExists(J_B_A_D, c);
    ApexIsBare(J_B_A_D, c);
    CodeEverywhere(conf, c, above, room, A_D);
    CodeEverywhere(conf, c, below, room, J_B_A_D);
    var q := Parse(below).q;
    StartFits(q, 512);
    AddressAnswer(conf, c, q, 512, J_B_A_D);
  }

  // ---------- A zone that is too long for every limit ----------

  /** A name of 249 wire bytes: three labels of 63 letters and one of 55. */
  function LongLabels(): (ls: seq<Label>)
    ensures WireName(ls) && AllPrintable(ls) && WireLen(ls) == 249
  {
    var l: Label := seq(63, i => 97);
    var ls := [l, l, l, l[..55]];
    assert ls[1..] == [l, l, l[..55]] && ls[1..][1..] == [l, l[..55]] && ls[1..][1..][1..] == [l[..55]];
    assert WireLen([l[..55]]) == 57 && WireLen([l, l[..55]]) == 121 && WireLen([l, l, l[..55]]) == 185;
    ls
  }

  /**
   For a zone of L wire bytes and a question name of Q, the byte count Q + 3L + 71 alone does not decide: here it is
   within the limit of 1232 bytes, and a query with EDNS for the zone itself gets SERVFAIL all the same.
   */
  lemma LongZoneExample(c: Clusters) returns (conf: Conf, msg: seq<byte>)
    ensures GoodConf(conf) && Parse(msg).Good? && TextOf(Parse(msg).q.qname) == Some(conf.domain)
    ensures Limit(Parse(msg).q) == 1232
    ensures |Parse(msg).q.question| - 4 + 3 * WireLen(LabelsOf(conf.domain)) + 71 <= 1232
    ensures ReplyCode(conf, c, msg, 1232) == Some(2)
  {
    hide Parse, TextFrom, Lookup, LabelsOf, WireLen, Join, Lower, LongLabels, Addresses, Exists;
    var zone := Lower(Join(LongLabels()));
    TextIsAskable(LongLabels());
    JoinLabelsOf(zone);
    assert zone != [] by {
      RootIsShort(zone);
    }
    conf := Conf(zone, Pairs([], []));
    msg := AskingFor(zone, 1, Some(1232));
    NoPairsNoCname(zone);
    assert PlaceOf(zone, zone) == Apex;
    ApexHasNone(c);
    CodeExactly(conf, c, msg, 1232, zone);
  }

  lemma RootIsShort(text: Text)
    requires WireLen(LabelsOf(text)) > 1
    ensures text != []
  {
  }

  lemma ApexHasNone(c: Clusters)
    ensures Addresses(c, Apex) == []
  {
  }
}
