/** What an NXDOMAIN says of the names below it (section 2 of RFC 8020), and which names a question can carry. */
module NxDomains {
  import opened Basics
  import opened Names
  import opened Reading
  import opened NameReaders
  import opened Tables
  import opened Caches
  import opened Cnames
  import opened Writing
  import opened RoundTrips
  import opened Servers
  import opened ServerProps

  // ---------- The names that a question can carry ----------

  /** The text of some question: in lower case, without final dot, of printable labels within the limits of RFC 1035. */
  predicate Askable(text: Text) {
    Lower(text) == text && StripDot(text) == text && WireName(LabelsOf(text)) && AllPrintable(LabelsOf(text))
  }

  function LowerAll(ls: seq<Label>): seq<Label> {
    if ls == [] then [] else [Lower(ls[0])] + LowerAll(ls[1..])
  }

  lemma {:induction false} LowerAllMeaning(ls: seq<Label>)
    requires GoodLabels(ls) && AllPrintable(ls)
    ensures GoodLabels(LowerAll(ls)) && AllPrintable(LowerAll(ls)) && |LowerAll(ls)| == |ls|
    ensures WireLen(LowerAll(ls)) == WireLen(ls) && Join(LowerAll(ls)) == Lower(Join(ls))
    decreases |ls|
  {
    hide Lower;
    if ls == [] {
      LowerNone();
    } else {
      LowerAllMeaning(ls[1..]);
      assert LowerAll(ls)[1..] == LowerAll(ls[1..]);
      if |ls| > 1 {
        LowerJoin(ls);
        Regroup(Lower(ls[0]), [DOT], Join(LowerAll(ls[1..])));
      }
    }
  }

  /** The text of a printable name can be asked for, and stands for as many bytes as the name. */
  lemma TextIsAskable(ls: seq<Label>)
    requires WireName(ls) && AllPrintable(ls)
    ensures Askable(Lower(Join(ls))) && WireLen(LabelsOf(Lower(Join(ls)))) == WireLen(ls)
  {
    hide Lower, Join, WireLen;
    var text := Lower(Join(ls));
    LowerAllMeaning(ls);
    NameTextMeaning(ls);
    TextShape(Encode(ls));
    if ls != [] {
      forall i | 0 <= i < |ls| ensures LowerAll(ls)[i] != [] && DOT !in LowerAll(ls)[i] {
        assert Printable(LowerAll(ls)[i]);
      }
      LabelsOfJoin(LowerAll(ls));
    } else {
      assert LabelsOf(text) == [] by {
        LowerNone();
      }
    }
  }

  lemma LowerNone()
    ensures Join([]) == [] && Lower([]) == []
  {
  }

  /** The texts that some parsed query asks for are exactly the askable ones. */
  lemma AskableMeaning(text: Text)
    ensures Askable(text) <==> exists msg :: Parse(msg).Good? && TextOf(Parse(msg).q.qname) == Some(text)
  {
    hide Parse, TextFrom, Lower;
    if Askable(text) {
      var msg := AskingFor(text, 1, None);
      assert Parse(msg).Good?;
    }
    if msg :| Parse(msg).Good? && TextOf(Parse(msg).q.qname) == Some(text) {
      AskedIsAskable(msg);
    }
  }

  lemma AskedIsAskable(msg: seq<byte>)
    requires Parse(msg).Good? && TextOf(Parse(msg).q.qname).Some?
    ensures var text := TextOf(Parse(msg).q.qname).value;
            Askable(text) && WireLen(LabelsOf(text)) == |Parse(msg).q.question| - 4
  {
    hide Parse, TextFrom, LabelsAt, Askable, LabelsOf, WireLen;
    var ls := LabelsAt(msg, 12);
    ParsedName(msg);
    NameTextMeaning(ls);
    TextIsAskable(ls);
  }

  /** A query for an askable text. */
  lemma AskingFor(text: Text, qtype: u16, edns: Option<u16>) returns (msg: seq<byte>)
    requires Askable(text)
    ensures Parse(msg).Good?
    ensures var q := Parse(msg).q;
            && TextOf(q.qname) == Some(text) && q.qtype == qtype && q.qclass == 1 && q.edns == edns
            && |q.question| == WireLen(LabelsOf(text)) + 4
  {
    hide Parse, TextFrom, QueryBytes, WireLen, Lower, LabelsOf, StripDot;
    msg := QueryBytes(0, LabelsOf(text), qtype, edns);
    QueryParses(0, LabelsOf(text), qtype, edns);
    NameTextMeaning(LabelsOf(text));
    JoinLabelsOf(text);
  }

  // ---------- Names in the domain, and below one another ----------

  /** In front of the domain the first label is the job, and all behind it the cluster. */
  lemma PlaceBelow(domain: Text, first: Text, rest: Text)
    requires DOT !in first
    ensures PlaceOf(domain, first + [DOT] + rest + [DOT] + domain) == OneCluster(rest, first)
  {
    hide SplitOnce, PlaceOf;
    PlaceIs(domain, first + [DOT] + rest);
    SplitOnceAt(first, rest);
  }

  /** The place of a name in the domain depends on what is in front of the domain alone. */
  lemma PlaceIs(domain: Text, prefix: Text)
    ensures PlaceOf(domain, prefix + [DOT] + domain)
            == match SplitOnce(prefix)
               case Some((service, cluster)) => OneCluster(cluster, service)
               case None => EveryCluster(prefix)
  {
    hide SplitOnce;
    var name := prefix + [DOT] + domain;
    assert name[..|name| - (|domain| + 1)] == prefix;
  }

  /**
   What the names in the domain stand for. The domain itself exists and has no address. `job.domain` exists when some
   cluster knows the job or has its name, with the merged addresses; `job.cluster.domain` when the cluster knows the
   job, with the addresses there.
   */
  lemma PlacesMeaning(c: Clusters, domain: Text, job: Text, cluster: Text)
    requires Sorted(c) && 46 !in job
    ensures Exists(c, PlaceOf(domain, domain)) && Addresses(c, PlaceOf(domain, domain)) == []
    ensures var place := PlaceOf(domain, job + [46] + domain);
            && (Exists(c, place)
                <==> (exists k :: GetCluster(c, k, job).Some?) || exists i :: 0 <= i < |c| && c[i].key == job)
            && Addresses(c, place) == GetMerged(c, job)
    ensures var place := PlaceOf(domain, job + [46] + cluster + [46] + domain);
            && (Exists(c, place) <==> GetCluster(c, cluster, job).Some?)
            && (forall ips :: GetCluster(c, cluster, job) == Some(ips) ==> Addresses(c, place) == ips)
            && (GetCluster(c, cluster, job) == None ==> Addresses(c, place) == [])
  {
    hide SplitOnce, PlaceOf, GetMerged, GetCluster, HasJob;
    ApexIsBare(domain, c);
    PlaceIs(domain, job);
    PlaceBelow(domain, job, cluster);
    HasJobMeaning(c, job);
    GetFinds(c, job);
    if i :| 0 <= i < |c| && c[i].key == job {
      GetOfRow(c, i);
    }
  }

  /** No CNAME below a name that none covers, when no key lies below it and no wildcard at or below it. */
  lemma NoCnameBelow(pairs: Pairs, name: Text, below: Text)
    requires GoodPairs(pairs) && |StripDot(name)| <= 256 && |StripDot(below)| <= 256
    requires Lower(StripDot(name)) == name && Lower(StripDot(below)) == below && InZone(below, name) && below != name
    requires Lookup(pairs, name) == None
    requires forall k :: Get(pairs.exact, k).Some? ==> !InZone(k, name) || k == name
    requires forall p :: Get(pairs.wildcard, p).Some? ==> !InZone(p, name)
    ensures Lookup(pairs, below) == None
  {
    LookupMeaning(pairs, name);
    LookupMeaning(pairs, below);
    forall p ensures !Covers(pairs.wildcard, below, p) {
      if Covers(pairs.wildcard, below, p) {
        if |p| <= |name| {
          ZonesNest(below, p, name);
          var _ := Covers(pairs.wildcard, name, p);
        } else {
          ZonesNest(below, name, p);
        }
      }
    }
  }

  lemma PrefixBelow(below: Text, name: Text, n: nat)
    requires InZone(below, name) && below != name && n <= |name|
    ensures InZone(below[..|below| - n], name[..|name| - n])
  {
    var m := |below| - |name|;
    assert below[m..] == name;
    assert below[..|below| - n][m..] == name[..|name| - n];
  }

  // ---------- The code of every name ----------

  /** The code of a reply for a host name in class IN or ANY, within a limit. */
  function CodeFor(conf: Conf, c: Clusters, q: Query, name: Text, limit: nat): nat {
    var (n, edns, place) := (Max(0, |q.question| - 4), q.edns.Some?, PlaceOf(conf.domain, name));
    match Lookup(conf.pairs, name)
    case Some(target) => if AliasHasRoom(target, n, edns, limit) then 0 else 2
    case None =>
      if InZone(name, conf.domain) then
        if (q.qtype == 1 || q.qtype == 255) && Addresses(c, place) != [] then 0
        else if !SoaFits(conf.domain, n, edns, limit) then 2
        else if Exists(c, place) then 0
        else 3
      else
        match ZoneOf(conf.pairs, name)
        case Some(zone) => if SoaFits(zone, n, edns, limit) then 3 else 2
        case None => 5
  }

  /** Every host name, whether a CNAME takes it, it lies in the domain, in a zone of CNAMEs, or nowhere. */
  lemma CodeEverywhere(conf: Conf, c: Clusters, msg: seq<byte>, room: nat, name: Text)
    requires room >= 512 && Parse(msg).Good? && TextOf(Parse(msg).q.qname) == Some(name)
    requires Parse(msg).q.qclass == 1 || Parse(msg).q.qclass == 255
    ensures var q := Parse(msg).q;
            ReplyCode(conf, c, msg, room) == Some(CodeFor(conf, c, q, name, Min(Limit(q), room)))
  {
    hide Answered, StartDraft, SoaFits, AliasHasRoom, Parse, PlaceOf, Exists, Addresses, GoodEntries, Lookup, ZoneOf,
         TextFrom, InZone, ReplyCode;
    var q := Parse(msg).q;
    var limit := Min(Limit(q), room);
    ReplyCodeMeaning(conf, c, msg, room);
    QuestionLength(msg);
    StartFits(q, limit);
    StartShape(q, limit);
    if Lookup(conf.pairs, name).Some? {
      AliasDecision(conf, c, q, limit, name);
    } else if InZone(name, conf.domain) {
      CodeExactly(conf, c, msg, room, name);
    } else {
      ZoneDecision(conf, c, q, limit, name);
    }
  }

  lemma NoErrorHasClass(conf: Conf, c: Clusters, msg: seq<byte>, room: nat)
    requires Parse(msg).Good? && ReplyCode(conf, c, msg, room) == Some(0)
    ensures Parse(msg).q.qclass == 1 || Parse(msg).q.qclass == 255
  {
    hide Parse, TextFrom, Lookup, Service, Closed, ZoneOf, AnswerCname, ReplyCode;
    ReplyCodeMeaning(conf, c, msg, room);
    StartShape(Parse(msg).q, Min(Limit(Parse(msg).q), room));
  }

  // ---------- Which names can be answered at all ----------

  /** The datagram is a query for `name` that gets a reply with this code. */
  predicate Gets(conf: Conf, c: Clusters, msg: seq<byte>, room: nat, name: Text, code: nat) {
    && Parse(msg).Good? && TextOf(Parse(msg).q.qname) == Some(name)
    && ReplyCode(conf, c, msg, room) == Some(code)
  }

  /** A name that a CNAME takes is never NXDOMAIN. */
  lemma AliasCode(conf: Conf, c: Clusters, msg: seq<byte>, room: nat, name: Text)
    requires Gets(conf, c, msg, room, name, 3)
    ensures Lookup(conf.pairs, name) == None && (Parse(msg).q.qclass == 1 || Parse(msg).q.qclass == 255)
  {
    hide Parse, TextOf, Lookup, Service, Closed, ZoneOf, AnswerCname, ReplyCode;
    var s := StartDraft(Parse(msg).q, Min(Limit(Parse(msg).q), room));
    ReplyCodeMeaning(conf, c, msg, room);
    StartShape(Parse(msg).q, Min(Limit(Parse(msg).q), room));
    if Lookup(conf.pairs, name).Some? {
      CnameKeeps(s, Lookup(conf.pairs, name).value);
    }
  }

  /** An SOA record has room in some reply to a question name of `n` bytes: without EDNS, or with the most it offers. */
  predicate CanClose(zone: Text, n: nat, room: nat) {
    SoaFits(zone, n, false, 512) || SoaFits(zone, n, true, Min(1232, room))
  }

  /** The same for a CNAME record. */
  predicate CanAlias(target: Text, n: nat, room: nat) {
    AliasHasRoom(target, n, false, 512) || AliasHasRoom(target, n, true, Min(1232, room))
  }

  /** A CNAME answers the name. */
  predicate ByCname(conf: Conf, room: nat, t: Text) {
    Askable(t) && Lookup(conf.pairs, t).Some? && CanAlias(Lookup(conf.pairs, t).value, WireLen(LabelsOf(t)), room)
  }

  /** The cache answers the name: no CNAME takes it, and it exists in the domain, with addresses or room for NODATA. */
  predicate ByCache(conf: Conf, c: Clusters, room: nat, t: Text) {
    var place := PlaceOf(conf.domain, t);
    && Askable(t) && Lookup(conf.pairs, t) == None && InZone(t, conf.domain) && Exists(c, place)
    && (Addresses(c, place) != [] || CanClose(conf.domain, WireLen(LabelsOf(t)), room))
  }

  /** Some query for a name gets NOERROR, an answer or NODATA, exactly when a CNAME or the cache answers it. */
  lemma AnsweredExactly(conf: Conf, c: Clusters, room: nat, t: Text)
    requires room >= 512
    ensures (exists msg :: Gets(conf, c, msg, room, t, 0))
            <==> ByCname(conf, room, t) || ByCache(conf, c, room, t)
  {
    hide Gets, ByCname, ByCache;
    if msg :| Gets(conf, c, msg, room, t, 0) {
      NoErrorHasCause(conf, c, msg, room, t);
    }
    if ByCname(conf, room, t) {
      var _ := CnameIsAnswered(conf, c, room, t);
    }
    if ByCache(conf, c, room, t) {
      var _ := CacheIsAnswered(conf, c, room, t);
    }
  }

  lemma NoErrorHasCause(conf: Conf, c: Clusters, msg: seq<byte>, room: nat, t: Text)
    requires room >= 512 && Gets(conf, c, msg, room, t, 0)
    ensures ByCname(conf, room, t) || ByCache(conf, c, room, t)
  {
    hide Lookup, TextFrom, Parse, Askable, PlaceOf, WireLen, LabelsOf, SoaFits, AliasHasRoom, Exists, Addresses, InZone;
    var q := Parse(msg).q;
    var (n, limit, most) := (|q.question| - 4, Min(Limit(q), room), Min(1232, room));
    QuestionLength(msg);
    NoErrorHasClass(conf, c, msg, room);
    CodeEverywhere(conf, c, msg, room, t);
    AskedIsAskable(msg);
    NoAddressesUnlessExists(c, PlaceOf(conf.domain, t));
    SoaFitsMore(conf.domain, n, q.edns.Some?, limit, most);
    if Lookup(conf.pairs, t).Some? {
      AliasHasMoreRoom(Lookup(conf.pairs, t).value, n, q.edns.Some?, limit, most);
    }
  }

  lemma NoAddressesUnlessExists(c: Clusters, place: Place)
    ensures Addresses(c, place) != [] ==> Exists(c, place)
  {
    if !Exists(c, place) {
      UnknownHasNone(c, place);
    }
  }

  lemma SoaFitsMore(zone: Text, n: nat, edns: bool, limit: nat, limit': nat)
    requires limit <= limit'
    ensures SoaFits(zone, n, edns, limit) ==> SoaFits(zone, n, edns, limit')
  {
  }

  lemma AliasHasMoreRoom(target: Text, n: nat, edns: bool, limit: nat, limit': nat)
    requires limit <= limit'
    ensures AliasHasRoom(target, n, edns, limit) ==> AliasHasRoom(target, n, edns, limit')
  {
  }

  lemma CnameIsAnswered(conf: Conf, c: Clusters, room: nat, t: Text) returns (msg: seq<byte>)
    requires room >= 512 && ByCname(conf, room, t)
    ensures Gets(conf, c, msg, room, t, 0)
  {
    hide Lookup, TextFrom, Parse, Askable, PlaceOf, WireLen, LabelsOf, AliasHasRoom;
    var plain := AliasHasRoom(Lookup(conf.pairs, t).value, WireLen(LabelsOf(t)), false, 512);
    msg := AskingFor(t, 1, if plain then None else Some(1232));
    CodeEverywhere(conf, c, msg, room, t);
  }

  lemma CacheIsAnswered(conf: Conf, c: Clusters, room: nat, t: Text) returns (msg: seq<byte>)
    requires room >= 512 && ByCache(conf, c, room, t)
    ensures Gets(conf, c, msg, room, t, 0)
  {
    hide Lookup, TextFrom, Parse, Askable, PlaceOf, WireLen, LabelsOf, SoaFits, Exists, Addresses, InZone;
    var plain := SoaFits(conf.domain, WireLen(LabelsOf(t)), false, 512);
    msg := AskingFor(t, 1, if plain then None else Some(1232));
    CodeEverywhere(conf, c, msg, room, t);
  }

  // ---------- What NXDOMAIN hides ----------

  /** `below` lies properly below `name`. */
  predicate Below(below: Text, name: Text) {
    InZone(below, name) && below != name
  }

  /** An exact CNAME key below the name that a question can carry, with room for its record. */
  predicate ByExactKey(conf: Conf, room: nat, name: Text, k: Text) {
    && Below(k, name) && Get(conf.pairs.exact, k).Some? && Askable(k)
    && CanAlias(Get(conf.pairs.exact, k).value, WireLen(LabelsOf(k)), room)
  }

  /** A wildcard with its parent at or below the name, and a text under it that a question can carry, with room. */
  ghost predicate ByWildcard(conf: Conf, room: nat, name: Text, parent: Text, t: Text) {
    && InZone(parent, name) && LongestCover(conf.pairs.wildcard, t, parent) && Get(conf.pairs.exact, t) == None
    && Askable(t) && CanAlias(Get(conf.pairs.wildcard, parent).value, WireLen(LabelsOf(t)), room)
  }

  /**
   When an NXDOMAIN hides something, exactly, wherever the name lies. Some name below a name that gets NXDOMAIN gets
   NOERROR, an answer or NODATA, if and only if one of three things is below it: an exact CNAME key that can be
   asked for, a wildcard with a name under it that can be asked for, or a name that the cache answers.
   */
  lemma NxDomainSubtree(conf: Conf, c: Clusters, msg: seq<byte>, room: nat, name: Text)
    requires GoodConf(conf) && room >= 512 && Gets(conf, c, msg, room, name, 3)
    ensures (exists msg', below :: Below(below, name) && Gets(conf, c, msg', room, below, 0))
            <==> || (exists k :: ByExactKey(conf, room, name, k))
                 || (exists parent, t :: ByWildcard(conf, room, name, parent, t))
                 || (exists t :: Below(t, name) && ByCache(conf, c, room, t))
  {
    hide Gets, Below, ByCname, ByCache, ByExactKey, ByWildcard;
    if msg', below :| Below(below, name) && Gets(conf, c, msg', room, below, 0) {
      AnsweredExactly(conf, c, room, below);
      if ByCname(conf, room, below) {
        CnameHasKey(conf, c, msg, room, name, below);
      }
    }
    if k :| ByExactKey(conf, room, name, k) {
      ExactKeyIsCname(conf, room, name, k);
      AnsweredExactly(conf, c, room, k);
    }
    if parent, t :| ByWildcard(conf, room, name, parent, t) {
      WildcardIsCname(conf, room, name, parent, t);
      AnsweredExactly(conf, c, room, t);
    }
    if t :| Below(t, name) && ByCache(conf, c, room, t) {
      AnsweredExactly(conf, c, room, t);
    }
  }

  /** The names that can be asked for are looked up as they are. */
  lemma AskableShape(t: Text)
    requires Askable(t)
    ensures |t| <= 255 && Lower(StripDot(t)) == t && (t != [] ==> t[0] != DOT)
  {
    hide Askable, Parse, TextFrom;
    var msg := AskingFor(t, 1, None);
    TextShape(Parse(msg).q.qname);
  }

  /** A CNAME below a name that gets NXDOMAIN has its key at or below that name. */
  lemma CnameHasKey(conf: Conf, c: Clusters, msg: seq<byte>, room: nat, name: Text, t: Text)
    requires GoodConf(conf) && Gets(conf, c, msg, room, name, 3) && Below(t, name) && ByCname(conf, room, t)
    ensures ByExactKey(conf, room, name, t) || exists parent :: ByWildcard(conf, room, name, parent, t)
  {
    hide TextFrom, Lookup, StripDot, Answered, Lower, Parse, CanAlias, LabelsOf, WireLen, Askable;
    AskableShape(t);
    TextShape(Parse(msg).q.qname);
    AliasCode(conf, c, msg, room, name);
    LookupMeaning(conf.pairs, t);
    LookupMeaning(conf.pairs, name);
    if Get(conf.pairs.exact, t).None? {
      var p :| LongestCover(conf.pairs.wildcard, t, p);
      if |p| < |name| {
        ZonesNest(t, p, name);
        var _ := Covers(conf.pairs.wildcard, name, p);
      } else {
        ZonesNest(t, name, p);
      }
      assert ByWildcard(conf, room, name, p, t);
    }
  }

  lemma ExactKeyIsCname(conf: Conf, room: nat, name: Text, k: Text)
    requires GoodConf(conf) && ByExactKey(conf, room, name, k)
    ensures Below(k, name) && ByCname(conf, room, k)
  {
    hide Lookup, StripDot, Lower, CanAlias, LabelsOf, WireLen, Askable;
    AskableShape(k);
    LookupMeaning(conf.pairs, k);
  }

  lemma WildcardIsCname(conf: Conf, room: nat, name: Text, parent: Text, t: Text)
    requires GoodConf(conf) && ByWildcard(conf, room, name, parent, t)
    ensures Below(t, name) && ByCname(conf, room, t)
  {
    hide Lookup, StripDot, Lower, CanAlias, LabelsOf, WireLen, Askable;
    AskableShape(t);
    LookupMeaning(conf.pairs, t);
    InZoneTransitive(t, parent, name);
  }

  // ---------- What the cache answers below a name ----------

  /** A name that gets NXDOMAIN is one in the domain that does not exist, or one outside it in a zone of CNAMEs. */
  lemma NxDomainPlaces(conf: Conf, c: Clusters, msg: seq<byte>, room: nat, name: Text)
    requires GoodConf(conf) && room >= 512 && Gets(conf, c, msg, room, name, 3)
    ensures Lookup(conf.pairs, name) == None
    ensures if InZone(name, conf.domain) then
              (exists prefix :: name == prefix + [DOT] + conf.domain) && !Exists(c, PlaceOf(conf.domain, name))
            else exists z :: z in Zones(conf.pairs) && InZone(name, z)
  {
    hide TextFrom, Lookup, Answered, Parse, PlaceOf, Exists, Addresses, SoaFits, ZoneOf, Zones, AliasHasRoom;
    AliasCode(conf, c, msg, room, name);
    CodeEverywhere(conf, c, msg, room, name);
    InZoneMeaning(name, conf.domain);
    if name == conf.domain {
      ApexExists(conf.domain, c);
    }
    ZoneOfMeaning(conf.pairs, name, ZoneOf(conf.pairs, name).GetOr([]));
  }

  lemma ApexExists(domain: Text, c: Clusters)
    ensures Exists(c, PlaceOf(domain, domain))
  {
  }

  /**
   A job that an NXDOMAIN for `prefix.domain` denies although it can be asked for: a cluster at or below `prefix`
   holds it, its name fits a question, and it has an address or an empty answer with room for its SOA record.
   */
  predicate Denied(conf: Conf, c: Clusters, room: nat, prefix: Text, cluster: Text, job: Text) {
    var text := job + [DOT] + cluster + [DOT] + conf.domain;
    && InZone(cluster, prefix) && DOT !in job && GetCluster(c, cluster, job).Some? && Askable(text)
    && (GetCluster(c, cluster, job).value != [] || CanClose(conf.domain, WireLen(LabelsOf(text)), room))
  }

  /** Below a name in the domain the cache answers exactly the denied jobs that no CNAME takes. */
  lemma CacheBelowInDomain(conf: Conf, c: Clusters, room: nat, prefix: Text)
    ensures (exists t :: Below(t, prefix + [DOT] + conf.domain) && ByCache(conf, c, room, t))
            <==> exists cluster, job :: && Denied(conf, c, room, prefix, cluster, job)
                                        && Lookup(conf.pairs, job + [DOT] + cluster + [DOT] + conf.domain) == None
  {
    hide Lookup, Askable, PlaceOf, CanClose, LabelsOf, WireLen, Below, InZone;
    var name := prefix + [DOT] + conf.domain;
    if t :| Below(t, name) && ByCache(conf, c, room, t) {
      var cluster, job := BelowPlace(conf.domain, prefix, t);
      assert Denied(conf, c, room, prefix, cluster, job);
    }
    if cluster, job :| && Denied(conf, c, room, prefix, cluster, job)
                       && Lookup(conf.pairs, job + [DOT] + cluster + [DOT] + conf.domain) == None {
      var t := job + [DOT] + cluster + [DOT] + conf.domain;
      ClusterBelow(conf.domain, prefix, cluster, job);
      PlaceBelow(conf.domain, job, cluster);
      InZoneBelow(job + [DOT] + cluster, conf.domain);
      assert ByCache(conf, c, room, t);
    }
  }

  /**
   Below a name outside the domain the cache answers everything that it answers when the domain lies below the name,
   and else nothing.
   */
  lemma CacheBelowElsewhere(conf: Conf, c: Clusters, room: nat, name: Text)
    requires !InZone(name, conf.domain)
    ensures (exists t :: Below(t, name) && ByCache(conf, c, room, t))
            <==> InZone(conf.domain, name) && exists t :: ByCache(conf, c, room, t)
    ensures InZone(conf.domain, name) && ByCache(conf, c, room, conf.domain)
            <==> && InZone(conf.domain, name) && Askable(conf.domain) && Lookup(conf.pairs, conf.domain) == None
                 && CanClose(conf.domain, WireLen(LabelsOf(conf.domain)), room)
  {
    hide Lookup, Askable, Exists, Addresses, CanClose, LabelsOf, WireLen;
    if t :| Below(t, name) && ByCache(conf, c, room, t) {
      if |conf.domain| <= |name| {
        ZonesNest(t, conf.domain, name);
      } else {
        ZonesNest(t, name, conf.domain);
      }
    }
    if t :| InZone(conf.domain, name) && ByCache(conf, c, room, t) {
      InZoneTransitive(t, conf.domain, name);
      assert Below(t, name);
    }
    ApexExists(conf.domain, c);
    ApexIsBare(conf.domain, c);
  }

  lemma ApexIsBare(domain: Text, c: Clusters)
    ensures PlaceOf(domain, domain) == Apex && Addresses(c, Apex) == []
  {
  }

  /** A name below `prefix.domain` asks for a job of a cluster at or below `prefix`. */
  lemma BelowPlace(domain: Text, prefix: Text, below: Text) returns (cluster: Text, job: Text)
    requires Below(below, prefix + [DOT] + domain)
    ensures InZone(cluster, prefix) && DOT !in job && below == job + [DOT] + cluster + [DOT] + domain
    ensures PlaceOf(domain, below) == OneCluster(cluster, job)
  {
    hide SplitOnce, PlaceOf;
    var name := prefix + [DOT] + domain;
    var longer := below[..|below| - (|domain| + 1)];
    assert name[..|name| - (|domain| + 1)] == prefix;
    PrefixBelow(below, name, |domain| + 1);
    assert below == longer + [DOT] + domain by {
      var m := |below| - |name|;
      assert below[m..] == name;
      assert below == below[..m] + name && longer == below[..m] + prefix;
    }
    ProperlyBelow(longer, prefix);
    var cut := SplitOnce(longer).value;
    job, cluster := cut.0, cut.1;
    PlaceBelow(domain, job, cluster);
  }

  lemma ClusterBelow(domain: Text, prefix: Text, cluster: Text, job: Text)
    requires InZone(cluster, prefix)
    ensures Below(job + [DOT] + cluster + [DOT] + domain, prefix + [DOT] + domain)
  {
    var text, name := job + [DOT] + cluster + [DOT] + domain, prefix + [DOT] + domain;
    if cluster == prefix {
      assert text == job + [DOT] + name;
      InZoneBelow(job, name);
    } else {
      InZoneMeaning(cluster, prefix);
      var x: Text :| cluster == x + [DOT] + prefix;
      assert text == (job + [DOT] + x) + [DOT] + name;
      InZoneBelow(job + [DOT] + x, name);
    }
  }

  /** A cluster at or below a name that does not exist has a dot in its own name. */
  lemma HiddenClustersAreDotted(domain: Text, c: Clusters, prefix: Text, cluster: Text)
    requires prefix != [] && !Exists(c, PlaceOf(domain, prefix + [DOT] + domain))
    requires InZone(cluster, prefix) && HasCluster(c, cluster)
    ensures DOT in cluster
  {
    hide SplitOnce, PlaceOf;
    PlaceIs(domain, prefix);
    InZoneMeaning(cluster, prefix);
  }

  // ---------- Without CNAME keys below the name ----------

  /** No CNAME key lies below the name: neither an exact one nor a wildcard with its parent at or below the name. */
  ghost predicate NoKeyBelow(pairs: Pairs, name: Text) {
    && (forall k :: Get(pairs.exact, k).Some? ==> !InZone(k, name) || k == name)
    && (forall p :: Get(pairs.wildcard, p).Some? ==> !InZone(p, name))
  }

  /** Then, for a name in the domain, the denied jobs are all that an NXDOMAIN hides. */
  lemma NxDomainWithoutKeys(conf: Conf, c: Clusters, msg: seq<byte>, room: nat, prefix: Text)
    requires GoodConf(conf) && room >= 512
    requires Gets(conf, c, msg, room, prefix + [DOT] + conf.domain, 3)
    requires NoKeyBelow(conf.pairs, prefix + [DOT] + conf.domain)
    ensures (exists msg', below ::
               Below(below, prefix + [DOT] + conf.domain) && Gets(conf, c, msg', room, below, 0))
            <==> exists cluster, job :: Denied(conf, c, room, prefix, cluster, job)
  {
    hide Gets, Below, ByCache, Lookup, Denied, Askable;
    var name := prefix + [DOT] + conf.domain;
    NxDomainSubtree(conf, c, msg, room, name);
    CacheBelowInDomain(conf, c, room, prefix);
    forall k ensures !ByExactKey(conf, room, name, k) {
      BelowMeaning(k, name);
    }
    forall cluster, job | Denied(conf, c, room, prefix, cluster, job)
      ensures Lookup(conf.pairs, job + [DOT] + cluster + [DOT] + conf.domain) == None
    {
      DeniedHasNoCname(conf, c, msg, room, prefix, cluster, job);
    }
  }

  lemma BelowMeaning(t: Text, name: Text)
    ensures Below(t, name) <==> InZone(t, name) && t != name
  {
  }

  lemma DeniedHasNoCname(conf: Conf, c: Clusters, msg: seq<byte>, room: nat, prefix: Text, cluster: Text, job: Text)
    requires GoodConf(conf) && Gets(conf, c, msg, room, prefix + [DOT] + conf.domain, 3)
    requires NoKeyBelow(conf.pairs, prefix + [DOT] + conf.domain) && Denied(conf, c, room, prefix, cluster, job)
    ensures Lookup(conf.pairs, job + [DOT] + cluster + [DOT] + conf.domain) == None
  {
    hide TextFrom, Lookup, StripDot, Answered, Lower, Parse, CanClose, LabelsOf, WireLen, Askable;
    var name, t := prefix + [DOT] + conf.domain, job + [DOT] + cluster + [DOT] + conf.domain;
    AskableShape(t);
    TextShape(Parse(msg).q.qname);
    AliasCode(conf, c, msg, room, name);
    ClusterBelow(conf.domain, prefix, cluster, job);
    NoCnameBelow(conf.pairs, name, t);
  }

  /** Below such a name no CNAME takes a query, so the cache decides. */
  lemma BelowAsksService(conf: Conf, c: Clusters, msg: seq<byte>, room: nat, name: Text, q: Query, below: Text)
    requires GoodConf(conf) && Gets(conf, c, msg, room, name, 3) && NoKeyBelow(conf.pairs, name)
    requires InZone(name, conf.domain) && Below(below, name)
    requires TextOf(q.qname) == Some(below) && (q.qclass == 1 || q.qclass == 255)
    ensures AsksService(conf, q, below)
  {
    hide TextFrom, Lookup, StripDot, Answered, Lower, Parse;
    TextShape(Parse(msg).q.qname);
    TextShape(q.qname);
    AliasCode(conf, c, msg, room, name);
    NoCnameBelow(conf.pairs, name, below);
    InZoneTransitive(below, name, conf.domain);
  }

  /**
   NXDOMAIN is safe for the subtree. Take cluster names of one label, and a name in the domain that has no CNAME
   key below it. If that name gets NXDOMAIN, then no query for a name below it gets an address, a CNAME, or NODATA:
   it is NXDOMAIN as well, unless its own negative reply does not fit.
   */
  lemma NxDomainIsSafe(conf: Conf, c: Clusters, msg: seq<byte>, msg': seq<byte>, room: nat, room': nat, prefix: Text,
                       below: Text)
    requires GoodConf(conf) && forall k :: HasCluster(c, k) ==> DOT !in k
    requires room >= 512 && room' >= 512
    requires Gets(conf, c, msg, room, prefix + [DOT] + conf.domain, 3)
    requires NoKeyBelow(conf.pairs, prefix + [DOT] + conf.domain)
    requires Parse(msg').Good? && TextOf(Parse(msg').q.qname) == Some(below)
    requires Parse(msg').q.qclass == 1 || Parse(msg').q.qclass == 255
    requires Below(below, prefix + [DOT] + conf.domain)
    ensures Gets(conf, c, msg', room', below, 3) || Gets(conf, c, msg', room', below, 2)
  {
    hide NoKeyBelow, Lookup, TextFrom, Parse, PlaceOf, SoaFits, StripDot, Lower, Below;
    var name := prefix + [DOT] + conf.domain;
    InZoneBelow(prefix, conf.domain);
    TextShape(Parse(msg).q.qname);
    BelowAsksService(conf, c, msg, room, name, Parse(msg').q, below);
    AliasCode(conf, c, msg, room, name);
    CodeExactly(conf, c, msg, room, name);
    CodeExactly(conf, c, msg', room', below);
    UnknownHasNone(c, PlaceOf(conf.domain, name));
    assert name[0] == (prefix + [DOT])[0];
    var cluster, job := BelowPlace(conf.domain, prefix, below);
    if HasCluster(c, cluster) {
      HiddenClustersAreDotted(conf.domain, c, prefix, cluster);
    }
    UnknownHasNone(c, PlaceOf(conf.domain, below));
  }
}
