/** What the decoder of `Reading` reads: records and messages, measured against the bytes that stand there. */
module Messages {
  import opened Basics
  import opened Names
  import opened Reading
  import opened NameReaders

  // ---------- Records and sections ----------

  /** The name at `at` reads as this text and ends at `e`. */
  ghost predicate ReadsAs(msg: seq<byte>, at: nat, name: Text, e: nat) {
    && (exists ls, jumps :: Spells(msg, at, ls, jumps) && |Dotted(ls)| <= 255 && name == Fqdn(ls))
    && exists skipped :: SkippedTo(msg, at, skipped, e)
  }

  lemma NameMeaning(msg: seq<byte>, at: nat, name: Text, e: nat)
    ensures NameAt(msg, at) == Ok((name, e)) <==> ReadsAs(msg, at, name, e)
  {
    hide NameAt, SkippedTo;
    ReadNameExactly(msg, at);
    NameEndMeaning(msg, at, e);
    if NameAt(msg, at) == Ok((name, e)) {
      var ls, jumps :| Spells(msg, at, ls, jumps) && |Dotted(ls)| <= 255;
      assert name == Fqdn(ls);
    }
    if ReadsAs(msg, at, name, e) {
      var ls, jumps :| Spells(msg, at, ls, jumps) && |Dotted(ls)| <= 255 && name == Fqdn(ls);
      assert exists l, j :: Spells(msg, at, l, j) && |Dotted(l)| <= NAME_MAX;
      assert NameAt(msg, at).value.0 == name && NameAt(msg, at).value.1 == e;
    }
  }

  /** The data of a record, by its type: 1 is an address, 5 an alias, 6 the start of a zone. */
  ghost predicate DataIs(msg: seq<byte>, rd: nat, rdlen: nat, rtype: u16, data: Rdata)
    requires rd + rdlen <= |msg|
  {
    if rtype == 1 then rdlen == 4 && data == A(Ip(msg[rd], msg[rd + 1], msg[rd + 2], msg[rd + 3]))
    else if rtype == 5 then data.Cname? && exists e :: ReadsAs(msg, rd, data.target, e)
    else if rtype == 6 then data.Soa? && exists p, n :: SoaIs(msg, rd, p, n, data)
    else data == Other(rtype)
  }

  ghost predicate SoaIs(msg: seq<byte>, rd: nat, p: nat, n: nat, data: Rdata)
    requires data.Soa?
  {
    && ReadsAs(msg, rd, data.mname, p) && ReadsAs(msg, p, data.rname, n) && n + 20 <= |msg|
    && data.serial == Num32(msg, n) && data.refresh == Num32(msg, n + 4) && data.retry == Num32(msg, n + 8)
    && data.expire == Num32(msg, n + 12) && data.minimum == Num32(msg, n + 16)
  }

  /** The bytes from `at` to `next` are this record: name, type, class, TTL, data length and data. */
  ghost predicate RecordIs(msg: seq<byte>, at: nat, rec: Record, next: nat) {
    exists n: nat :: && ReadsAs(msg, at, rec.name, n) && n + 10 <= |msg|
                     && rec.rtype == Num16(msg, n) && rec.ttl == Num32(msg, n + 4)
                     && next == n + 10 + Num16(msg, n + 8) <= |msg|
                     && DataIs(msg, n + 10, Num16(msg, n + 8), rec.rtype, rec.data)
  }

  lemma SoaMeaning(msg: seq<byte>, rd: nat, data: Rdata)
    ensures SoaAt(msg, rd) == Ok(data) <==> data.Soa? && exists p, n :: SoaIs(msg, rd, p, n, data)
  {
    hide NameAt, ReadsAs;
    if SoaAt(msg, rd) == Ok(data) {
      var (mname, p) := NameAt(msg, rd).value;
      var (rname, n) := NameAt(msg, p).value;
      NameMeaning(msg, rd, mname, p);
      NameMeaning(msg, p, rname, n);
      NumsMeaning(msg, n);
      assert SoaIs(msg, rd, p, n, data);
    }
    if data.Soa? {
      if p, n :| SoaIs(msg, rd, p, n, data) {
        NameMeaning(msg, rd, data.mname, p);
        NameMeaning(msg, p, data.rname, n);
        NumsMeaning(msg, n);
      }
    }
  }

  lemma NumsMeaning(msg: seq<byte>, n: nat)
    ensures Be32(msg, n + 16).Some? <==> n + 20 <= |msg|
    ensures n + 20 <= |msg| ==> && Be32(msg, n) == Some(Num32(msg, n)) && Be32(msg, n + 4) == Some(Num32(msg, n + 4))
                                && Be32(msg, n + 8) == Some(Num32(msg, n + 8))
                                && Be32(msg, n + 12) == Some(Num32(msg, n + 12))
                                && Be32(msg, n + 16) == Some(Num32(msg, n + 16))
  {
    NumMeaning(msg, n);
    NumMeaning(msg, n + 4);
    NumMeaning(msg, n + 8);
    NumMeaning(msg, n + 12);
    NumMeaning(msg, n + 16);
  }

  lemma DataMeaning(msg: seq<byte>, rd: nat, rtype: u16, rdlen: u16, data: Rdata)
    requires rd + rdlen <= |msg|
    ensures DataAt(msg, rd, rtype, rdlen) == Ok(data) <==> DataIs(msg, rd, rdlen, rtype, data)
  {
    hide NameAt, ReadsAs, SoaAt, SoaIs;
    SoaMeaning(msg, rd, data);
    if rtype == 5 {
      if NameAt(msg, rd).Ok? {
        var (target, e) := NameAt(msg, rd).value;
        NameMeaning(msg, rd, target, e);
      }
      if data.Cname? {
        forall e: nat ensures ReadsAs(msg, rd, data.target, e) <==> NameAt(msg, rd) == Ok((data.target, e)) {
          NameMeaning(msg, rd, data.target, e);
        }
      }
    }
  }

  /** What is read as a record, for every byte string: exactly what stands there byte for byte. */
  lemma RecordMeaning(msg: seq<byte>, at: nat, rec: Record, next: nat)
    ensures RecordAt(msg, at) == Ok((rec, next)) <==> RecordIs(msg, at, rec, next)
  {
    hide NameAt, ReadsAs, DataAt, DataIs, Be16, Be32, Num16, Num32;
    if RecordAt(msg, at) == Ok((rec, next)) {
      var n := NameAt(msg, at).value.1;
      NameMeaning(msg, at, rec.name, n);
      RecordNums(msg, n);
      DataMeaning(msg, n + 10, rec.rtype, Num16(msg, n + 8), rec.data);
    }
    if RecordIs(msg, at, rec, next) {
      var n: nat :| && ReadsAs(msg, at, rec.name, n) && n + 10 <= |msg|
                    && rec.rtype == Num16(msg, n) && rec.ttl == Num32(msg, n + 4)
                    && next == n + 10 + Num16(msg, n + 8) <= |msg|
                    && DataIs(msg, n + 10, Num16(msg, n + 8), rec.rtype, rec.data);
      NameMeaning(msg, at, rec.name, n);
      RecordNums(msg, n);
      DataMeaning(msg, n + 10, rec.rtype, Num16(msg, n + 8), rec.data);
    }
  }

  lemma RecordNums(msg: seq<byte>, n: nat)
    ensures Be16(msg, n + 8).Some? <==> n + 10 <= |msg|
    ensures n + 10 <= |msg| ==> && Be16(msg, n) == Some(Num16(msg, n)) && Be32(msg, n + 4) == Some(Num32(msg, n + 4))
                                && Be16(msg, n + 8) == Some(Num16(msg, n + 8))
  {
    NumMeaning(msg, n);
    NumMeaning(msg, n + 4);
    NumMeaning(msg, n + 8);
  }

  /** The records of a section, one behind the other. */
  ghost predicate RecordsAre(msg: seq<byte>, at: nat, recs: seq<Record>, next: nat)
    decreases |recs|
  {
    if recs == [] then next == at
    else exists mid :: RecordIs(msg, at, recs[0], mid) && RecordsAre(msg, mid, recs[1..], next)
  }

  lemma {:induction false} RecordsMeaning(msg: seq<byte>, at: nat, count: nat, recs: seq<Record>, next: nat)
    ensures RecordsAt(msg, at, count) == Ok((recs, next)) <==> |recs| == count && RecordsAre(msg, at, recs, next)
    decreases count
  {
    hide RecordAt, RecordIs;
    if count > 0 {
      if RecordAt(msg, at).Ok? {
        var (rec, mid) := RecordAt(msg, at).value;
        RecordMeaning(msg, at, rec, mid);
        if RecordsAt(msg, mid, count - 1).Ok? {
          var (more, end) := RecordsAt(msg, mid, count - 1).value;
          RecordsMeaning(msg, mid, count - 1, more, end);
          assert ([rec] + more)[1..] == more;
          assert RecordsAt(msg, at, count) == Ok(([rec] + more, end));
        }
      }
      if |recs| == count && RecordsAre(msg, at, recs, next) {
        var mid :| RecordIs(msg, at, recs[0], mid) && RecordsAre(msg, mid, recs[1..], next);
        RecordMeaning(msg, at, recs[0], mid);
        RecordsMeaning(msg, mid, count - 1, recs[1..], next);
        assert recs == [recs[0]] + recs[1..];
      }
    }
  }

  /** As many questions, a name and four bytes each. */
  ghost predicate QuestionsAre(msg: seq<byte>, at: nat, count: nat, next: nat)
    decreases count
  {
    if count == 0 then next == at
    else exists ls, mid: nat :: SkippedTo(msg, at, ls, mid) && QuestionsAre(msg, mid + 4, count - 1, next)
  }

  lemma {:induction false} QuestionsMeaning(msg: seq<byte>, at: nat, count: nat, next: nat)
    ensures QuestionsEnd(msg, at, count) == Some(next) <==> QuestionsAre(msg, at, count, next)
    decreases count
  {
    hide SkippedTo, NameEnd;
    if count > 0 {
      if NameEnd(msg, at).Some? {
        var mid := NameEnd(msg, at).value;
        NameEndMeaning(msg, at, mid);
        QuestionsMeaning(msg, mid + 4, count - 1, next);
      }
      forall ls, mid: nat | SkippedTo(msg, at, ls, mid) ensures NameEnd(msg, at) == Some(mid) {
        NameEndMeaning(msg, at, mid);
      }
    }
  }

  /** What a message decodes to, for every byte string: exactly what its header, questions and records are. */
  lemma DecodedMeaning(msg: seq<byte>, m: Message)
    ensures Decoded(msg) == Ok(m)
            <==> && |msg| >= 12 && m.id == Num16(msg, 0) && m.flags == Num16(msg, 2) && m.additional == Num16(msg, 10)
                 && |m.answers| == Num16(msg, 6) && |m.authority| == Num16(msg, 8)
                 && exists a, b, c :: && QuestionsAre(msg, 12, Num16(msg, 4), a) && RecordsAre(msg, a, m.answers, b)
                                      && RecordsAre(msg, b, m.authority, c)
  {
    hide QuestionsAre, RecordsAre, RecordsAt, QuestionsEnd, Be16, Num16;
    HeadNums(msg);
    if Decoded(msg) == Ok(m) {
      var a := QuestionsEnd(msg, 12, Num16(msg, 4)).value;
      var b := RecordsAt(msg, a, Num16(msg, 6)).value.1;
      var c := RecordsAt(msg, b, Num16(msg, 8)).value.1;
      QuestionsMeaning(msg, 12, Num16(msg, 4), a);
      RecordsMeaning(msg, a, Num16(msg, 6), m.answers, b);
      RecordsMeaning(msg, b, Num16(msg, 8), m.authority, c);
    }
    if |msg| >= 12 && |m.answers| == Num16(msg, 6) && |m.authority| == Num16(msg, 8) {
      if a, b, c :| && QuestionsAre(msg, 12, Num16(msg, 4), a) && RecordsAre(msg, a, m.answers, b)
                    && RecordsAre(msg, b, m.authority, c) {
        QuestionsMeaning(msg, 12, Num16(msg, 4), a);
        RecordsMeaning(msg, a, Num16(msg, 6), m.answers, b);
        RecordsMeaning(msg, b, Num16(msg, 8), m.authority, c);
      }
    }
  }

  lemma HeadNums(msg: seq<byte>)
    ensures Be16(msg, 10).Some? <==> |msg| >= 12
    ensures |msg| >= 12
            ==> && Be16(msg, 0) == Some(Num16(msg, 0)) && Be16(msg, 2) == Some(Num16(msg, 2))
                && Be16(msg, 4) == Some(Num16(msg, 4)) && Be16(msg, 6) == Some(Num16(msg, 6))
                && Be16(msg, 8) == Some(Num16(msg, 8)) && Be16(msg, 10) == Some(Num16(msg, 10))
  {
  }

  // ---------- Records advance ----------

  lemma ReadNameAdvances(msg: seq<byte>, at: nat)
    requires NameAt(msg, at).Ok?
    ensures at < NameAt(msg, at).value.1 <= |msg|
  {
    ReadIsSkipped(msg, at);
  }

  /** Every record takes at least eleven bytes, and lies within the message. */
  lemma RecordAdvances(msg: seq<byte>, at: nat)
    requires RecordAt(msg, at).Ok?
    ensures at + 11 <= RecordAt(msg, at).value.1 <= |msg|
  {
    ReadNameAdvances(msg, at);
  }

  lemma {:induction false} RecordsAdvance(msg: seq<byte>, at: nat, count: nat)
    requires RecordsAt(msg, at, count).Ok?
    ensures |RecordsAt(msg, at, count).value.0| == count
    ensures at + 11 * count <= RecordsAt(msg, at, count).value.1
    ensures count > 0 ==> RecordsAt(msg, at, count).value.1 <= |msg|
    decreases count
  {
    if count > 0 {
      RecordAdvances(msg, at);
      RecordsAdvance(msg, RecordAt(msg, at).value.1, count - 1);
    }
  }

  /** A decoded message holds as many records as its header says, and they fit the bytes at eleven each. */
  lemma DecodedFits(msg: seq<byte>)
    requires Decoded(msg).Ok?
    ensures var m := Decoded(msg).value;
            && |m.answers| == Be16(msg, 6).value && |m.authority| == Be16(msg, 8).value
            && HEADER_LEN + 11 * (|m.answers| + |m.authority|) <= |msg|
  {
    var start := QuestionsEnd(msg, HEADER_LEN, Be16(msg, 4).value).value;
    QuestionsAdvance(msg, HEADER_LEN, Be16(msg, 4).value);
    RecordsAdvance(msg, start, Be16(msg, 6).value);
    var next := RecordsAt(msg, start, Be16(msg, 6).value).value.1;
    RecordsAdvance(msg, next, Be16(msg, 8).value);
  }

  lemma {:induction false} QuestionsAdvance(msg: seq<byte>, at: nat, count: nat)
    requires QuestionsEnd(msg, at, count).Some?
    ensures at <= QuestionsEnd(msg, at, count).value
    decreases count
  {
    if count > 0 {
      QuestionsAdvance(msg, NameEnd(msg, at).value + 4, count - 1);
    }
  }
}
