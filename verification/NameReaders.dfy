/**
 What the four name readers of `Reading` compute, measured against one thing: the list of labels that the
 bytes stand for. The readers agree wherever more than one of them succeeds.
 */
module NameReaders {
  import opened Basics
  import opened Texts
  import opened Names
  import opened Reading

  // ---------- The pointer-free name of a question ----------

  /** The labels before the root label at `at`. */
  function LabelsAt(msg: seq<byte>, at: nat): seq<Label>
    decreases |msg| - at
  {
    if at >= |msg| || msg[at] == 0 || at + 1 + msg[at] > |msg| then []
    else [msg[at + 1..at + 1 + msg[at]]] + LabelsAt(msg, at + 1 + msg[at])
  }

  lemma {:induction false} PlainNameSound(msg: seq<byte>, at: nat, start: nat)
    requires PlainNameEnd(msg, at, start).Some?
    ensures var ls := LabelsAt(msg, at);
            GoodLabels(ls) && msg[at..PlainNameEnd(msg, at, start).value] == Encode(ls)
    decreases |msg| - at
  {
    if msg[at] != 0 {
      var next := at + 1 + msg[at];
      PlainNameSound(msg, next, start);
      var e := PlainNameEnd(msg, at, start).value;
      assert msg[at..e] == [msg[at]] + msg[at + 1..next] + msg[next..e];
    }
  }

  lemma {:induction false} PlainNameComplete(msg: seq<byte>, at: nat, start: nat, ls: seq<Label>)
    requires GoodLabels(ls) && at + WireLen(ls) <= |msg| && msg[at..at + WireLen(ls)] == Encode(ls)
    ensures PlainNameEnd(msg, at, start)
            == if at + WireLen(ls) - start <= NAME_MAX then Some(at + WireLen(ls)) else None
    ensures NameEnd(msg, at) == Some(at + WireLen(ls))
    decreases |ls|
  {
    Unfold(msg, at, ls);
    if ls != [] {
      PlainNameComplete(msg, at + 1 + |ls[0]|, start, ls[1..]);
    }
  }

  /** The first length byte of an encoded name, its first label, and the encoding of the others behind it. */
  lemma Unfold(msg: seq<byte>, at: nat, ls: seq<Label>)
    requires GoodLabels(ls) && at + WireLen(ls) <= |msg| && msg[at..at + WireLen(ls)] == Encode(ls)
    ensures msg[at] == if ls == [] then 0 else |ls[0]|
    ensures ls != [] ==> var next := at + 1 + |ls[0]|;
                         && msg[at + 1..next] == ls[0]
                         && WireLen(ls) == 1 + |ls[0]| + WireLen(ls[1..])
                         && msg[next..next + WireLen(ls[1..])] == Encode(ls[1..])
  {
    assert ls != [] ==> Encode(ls) == [|ls[0]|] + ls[0] + Encode(ls[1..]);
    assert ls != [] ==> WireLen(ls) == 1 + |ls[0]| + WireLen(ls[1..]);
    assert Encode(ls)[0] == if ls == [] then 0 else |ls[0]|;
    hide Encode, WireLen;
    assert msg[at] == msg[at..at + WireLen(ls)][0];
    if ls != [] {
      Three(msg, at, [|ls[0]|], ls[0], Encode(ls[1..]));
    }
  }

  /** A question name is accepted exactly when it is the encoding of labels within the limits of RFC 1035. */
  lemma PlainNameMeaning(msg: seq<byte>, at: nat, e: nat)
    ensures PlainNameEnd(msg, at, at) == Some(e)
            <==> exists ls :: WireName(ls) && e == at + WireLen(ls) <= |msg| && msg[at..e] == Encode(ls)
  {
    if PlainNameEnd(msg, at, at) == Some(e) {
      PlainNameSound(msg, at, at);
      assert WireName(LabelsAt(msg, at));
    }
    if ls :| WireName(ls) && e == at + WireLen(ls) <= |msg| && msg[at..e] == Encode(ls) {
      PlainNameComplete(msg, at, at, ls);
    }
  }

  /** Every parsed query holds a well-formed name, followed by its type and class. */
  lemma ParsedName(msg: seq<byte>)
    requires Parse(msg).Good?
    ensures var q := Parse(msg).q;
            var ls := LabelsAt(msg, HEADER_LEN);
            && WireName(ls) && q.qname == Encode(ls)
            && q.question == Encode(ls) + U16(q.qtype) + U16(q.qclass)
  {
    hide Encode, LabelsAt, OptSize;
    PlainNameSound(msg, HEADER_LEN, HEADER_LEN);
    var q := Parse(msg).q;
    var e := PlainNameEnd(msg, HEADER_LEN, HEADER_LEN).value;
    assert q.question == msg[HEADER_LEN..e] + [msg[e], msg[e + 1]] + [msg[e + 2], msg[e + 3]];
    assert [msg[e], msg[e + 1]] == U16(q.qtype) && [msg[e + 2], msg[e + 3]] == U16(q.qclass);
  }

  /** Behind the header stands a well-formed name with at least four bytes behind it. */
  predicate QuestionAt(msg: seq<byte>, ls: seq<Label>) {
    WireName(ls) && 12 + WireLen(ls) + 4 <= |msg| && msg[12..12 + WireLen(ls)] == Encode(ls)
  }

  /** Two bytes as a number, the more significant first. */
  function Num16(msg: seq<byte>, at: nat): (r: u16)
    requires at + 2 <= |msg|
  {
    msg[at] as int * 256 + msg[at + 1]
  }

  function Num32(msg: seq<byte>, at: nat): (r: u32)
    requires at + 4 <= |msg|
  {
    Num16(msg, at) as int * 65536 + Num16(msg, at + 2)
  }

  lemma NumMeaning(msg: seq<byte>, at: nat)
    ensures Be16(msg, at) == if at + 2 <= |msg| then Some(Num16(msg, at)) else None
    ensures Be32(msg, at) == if at + 4 <= |msg| then Some(Num32(msg, at)) else None
  {
  }

  /** The fields of a parsed query are those that stand in the datagram. */
  predicate FieldsOf(msg: seq<byte>, q: Query, ls: seq<Label>)
    requires QuestionAt(msg, ls)
  {
    var e := 12 + WireLen(ls);
    && q.id == Num16(msg, 0) && q.flags == Num16(msg, 2) && q.question == msg[12..e + 4] && q.qname == msg[12..e]
    && q.qtype == Num16(msg, e) && q.qclass == Num16(msg, e + 2)
  }

  /**
   What becomes of a datagram, exactly. Silence for one of less than 12 bytes and for a reply; NOTIMP for another
   opcode than a query; a parsed query when it counts one question and a well-formed name, type and class follow
   the header; FORMERR for the rest.
   */
  lemma ParseMeaning(msg: seq<byte>)
    ensures if |msg| < 12 || msg[2] >= 128 then Parse(msg) == Drop
            else if msg[2] / 8 % 16 != 0 then Parse(msg) == Bad(Num16(msg, 0), Num16(msg, 2), NotImp)
            else if Num16(msg, 4) == 1 && exists ls :: QuestionAt(msg, ls) then
              Parse(msg).Good? && forall ls :: QuestionAt(msg, ls) ==> FieldsOf(msg, Parse(msg).q, ls)
            else Parse(msg) == Bad(Num16(msg, 0), Num16(msg, 2), FormErr)
  {
    hide Encode, OptSize, LabelsAt;
    if |msg| >= 12 {
      FlagBytes(msg);
      forall ls | QuestionAt(msg, ls)
        ensures PlainNameEnd(msg, 12, 12) == Some(12 + WireLen(ls))
      {
        PlainNameComplete(msg, 12, 12, ls);
      }
      if PlainNameEnd(msg, 12, 12).Some? {
        PlainNameSound(msg, 12, 12);
        assert PlainNameEnd(msg, 12, 12).value + 4 <= |msg| ==> QuestionAt(msg, LabelsAt(msg, 12));
      }
    }
  }

  lemma FlagBytes(msg: seq<byte>)
    requires |msg| >= 12
    ensures IsReply(Num16(msg, 2)) <==> msg[2] >= 128
    ensures Opcode(Num16(msg, 2)) == msg[2] / 8 % 16
  {
    assert Num16(msg, 2) / 0x800 == msg[2] / 8;
  }

  // ---------- The readers agree ----------

  /** What `skip_plain_name` accepts, `skip_name` skips to the same end. */
  lemma {:induction false} PlainIsSkipped(msg: seq<byte>, at: nat, start: nat)
    requires PlainNameEnd(msg, at, start).Some?
    ensures NameEnd(msg, at) == PlainNameEnd(msg, at, start)
    decreases |msg| - at
  {
    if msg[at] != 0 {
      PlainIsSkipped(msg, at + 1 + msg[at], start);
    }
  }

  /** What `read_name` reads, `skip_name` skips to the same end. */
  lemma ReadIsSkipped(msg: seq<byte>, at: nat)
    requires NameAt(msg, at).Ok?
    ensures NameEnd(msg, at) == Some(NameAt(msg, at).value.1)
  {
    ReadFromIsSkipped(msg, at, []);
  }

  lemma {:induction false} ReadFromIsSkipped(msg: seq<byte>, pos: nat, name: Text)
    requires |name| <= NAME_MAX && ReadFrom(msg, pos, name, None).Ok?
    ensures NameEnd(msg, pos) == Some(ReadFrom(msg, pos, name, None).value.1)
    decreases |msg| - pos
  {
    if msg[pos] == 0 {
    } else if msg[pos] <= LABEL_MAX {
      var next := pos + 1 + msg[pos];
      ReadFromIsSkipped(msg, next, name + Latin1(msg[pos + 1..next]) + [DOT]);
    } else {
      EndStays(msg, Target(msg, pos), name, pos + 2);
    }
  }

  /** Once a pointer was followed, the end is where it stood. */
  lemma {:induction false} EndStays(msg: seq<byte>, pos: nat, name: Text, end: nat)
    requires |name| <= NAME_MAX && ReadFrom(msg, pos, name, Some(end)).Ok?
    ensures ReadFrom(msg, pos, name, Some(end)).value.1 == end
    decreases NAME_MAX - |name|, pos
  {
    if msg[pos] == 0 {
    } else if msg[pos] <= LABEL_MAX {
      var next := pos + 1 + msg[pos];
      EndStays(msg, next, name + Latin1(msg[pos + 1..next]) + [DOT], end);
    } else {
      EndStays(msg, Target(msg, pos), name, end);
    }
  }

  /**
   A pointer may lead to labels that lead to it again. Whatever was read before, one round through this message
   adds two bytes to the name and comes back to the pointer and its target; when they no longer fit in 255, and
   only then, the reading ends, in a refusal. Skipping the name takes four bytes.
   */
  lemma PointerLoop(name: Text, end: Option<nat>)
    requires |name| <= NAME_MAX
    ensures var (msg: seq<byte>, longer) := ([1, 97, 0xC0, 0], name + [97, DOT]);
            && Target(msg, 2) == 0 && NameEnd(msg, 0) == Some(4)
            && ReadFrom(msg, 0, name, end)
               == (if |longer| > NAME_MAX then Err(Malformed) else ReadFrom(msg, 2, longer, end))
            && (|longer| <= NAME_MAX
                ==> ReadFrom(msg, 2, longer, end) == ReadFrom(msg, 0, longer, Some(end.GetOr(4))))
            && NameAt(msg, 0) == Err(Malformed)
  {
    var msg: seq<byte> := [1, 97, 0xC0, 0];
    assert msg[1..2] == [97] && Latin1([97]) == [97];
    assert name + Latin1([97]) + [DOT] == name + [97, DOT];
    PointerLoopFrom([]);
  }

  lemma {:induction false} PointerLoopFrom(name: Text)
    requires |name| <= NAME_MAX
    ensures forall end :: ReadFrom([1, 97, 0xC0, 0], 0, name, end) == Err(Malformed)
    decreases NAME_MAX - |name|
  {
    var msg: seq<byte> := [1, 97, 0xC0, 0];
    var longer := name + Latin1([97]) + [DOT];
    assert msg[1..2] == [97];
    if |longer| <= NAME_MAX {
      PointerLoopFrom(longer);
      assert forall end :: ReadFrom(msg, 2, longer, end) == ReadFrom(msg, 0, longer, Some(end.GetOr(4)));
    }
  }

  // ---------- name_text ----------

  predicate Printable(l: Label) {
    forall i :: 0 <= i < |l| ==> 33 <= l[i] <= 126 && l[i] != 46
  }

  predicate AllPrintable(ls: seq<Label>) {
    forall i :: 0 <= i < |ls| ==> Printable(ls[i])
  }

  lemma {:induction false} AddLabelMeaning(text: Text, l: Label)
    requires |text| + |l| <= NAME_MAX
    ensures AddLabel(text, l) == if Printable(l) then Some(text + Lower(l)) else None
    decreases |l|
  {
    if l == [] {
      assert text + Lower(l) == text;
    } else {
      PrintableTail(l);
      if !Forbidden(l[0]) {
        AddLabelMeaning(text + [LowerByte(l[0])], l[1..]);
        LowerStep(text, l);
      }
    }
  }

  lemma LowerStep(text: Text, l: Label)
    requires l != []
    ensures text + [LowerByte(l[0])] + Lower(l[1..]) == text + Lower(l)
  {
    assert Lower(l) == [LowerByte(l[0])] + Lower(l[1..]);
  }

  lemma PrintableTail(l: Label)
    requires l != []
    ensures Printable(l) <==> !Forbidden(l[0]) && Printable(l[1..])
  {
    assert forall i :: 1 <= i < |l| ==> l[i] == l[1..][i - 1];
  }

  function Extend(text: Text, ls: seq<Label>): Text {
    if ls == [] then text else if text == [] then Lower(Join(ls)) else text + [DOT] + Lower(Join(ls))
  }

  lemma {:induction false} TextFromMeaning(wire: seq<byte>, at: nat, text: Text, ls: seq<Label>)
    requires GoodLabels(ls) && at + WireLen(ls) <= |wire| && wire[at..at + WireLen(ls)] == Encode(ls)
    requires |text| + WireLen(ls) <= NAME_MAX + 1
    ensures TextFrom(wire, at, text) == if AllPrintable(ls) then Some(Extend(text, ls)) else None
    decreases |ls|
  {
    hide Encode, Extend, Join, AddLabel, Printable;
    Unfold(wire, at, ls);
    if ls == [] {
      ExtendNone(text);
    } else {
      var next := at + 1 + |ls[0]|;
      var start := if text == [] then [] else text + [DOT];
      WireLenPositive(ls[1..]);
      AddLabelMeaning(start, ls[0]);
      if Printable(ls[0]) {
        var longer := start + Lower(ls[0]);
        TextFromMeaning(wire, next, longer, ls[1..]);
        ExtendStep(text, ls);
        assert AllPrintable(ls) <==> AllPrintable(ls[1..]) by {
          assert forall i :: 1 <= i < |ls| ==> ls[i] == ls[1..][i - 1];
        }
      }
    }
  }

  lemma ExtendNone(text: Text)
    ensures Extend(text, []) == text
  {
  }

  lemma WireLenPositive(ls: seq<Label>)
    ensures WireLen(ls) >= 1
  {
  }

  lemma ExtendStep(text: Text, ls: seq<Label>)
    requires ls != [] && ls[0] != []
    ensures Extend((if text == [] then [] else text + [DOT]) + Lower(ls[0]), ls[1..]) == Extend(text, ls)
  {
    var start := if text == [] then [] else text + [DOT];
    if |ls| == 1 {
      Regroup(start, Lower(ls[0]), []);
    } else {
      hide Lower;
      LowerJoin(ls);
      Regroup(start, Lower(ls[0]), [DOT] + Lower(Join(ls[1..])));
      Regroup(start + Lower(ls[0]), [DOT], Lower(Join(ls[1..])));
      Regroup(text, [DOT], Lower(ls[0]) + ([DOT] + Lower(Join(ls[1..]))));
    }
  }

  lemma LowerDot()
    ensures Lower([DOT]) == [DOT]
  {
  }

  lemma LowerJoin(ls: seq<Label>)
    requires |ls| > 1
    ensures Lower(Join(ls)) == Lower(ls[0]) + ([DOT] + Lower(Join(ls[1..])))
  {
    var rest := Join(ls[1..]);
    LowerDot();
    hide Lower;
    Regroup(ls[0], [DOT], rest);
    LowerConcat([DOT], rest);
    LowerConcat(ls[0], [DOT] + rest);
  }

  /**
   For the name of a parsed question the scratch buffer is never too small: `name_text` fails exactly on a
   byte that no host name holds, and otherwise gives the labels in lower case, joined by dots.
   */
  lemma NameTextMeaning(ls: seq<Label>)
    requires WireName(ls)
    ensures TextOf(Encode(ls)) == if AllPrintable(ls) then Some(Lower(Join(ls))) else None
  {
    assert Encode(ls)[0..WireLen(ls)] == Encode(ls);
    TextFromMeaning(Encode(ls), 0, [], ls);
  }

  /** The text of a wire name is in lower case, fits 255 bytes, and neither begins nor ends with a dot. */
  lemma TextShape(wire: seq<byte>)
    requires TextOf(wire).Some?
    ensures var t := TextOf(wire).value;
            |t| <= NAME_MAX && Lower(t) == t && StripDot(t) == t && (t != [] ==> t[0] != DOT)
  {
    TextFromShape(wire, 0, []);
  }

  ghost predicate TextGrows(text: Text) {
    |text| <= NAME_MAX && Lower(text) == text && (text != [] ==> text[0] != DOT && text[|text| - 1] != DOT)
  }

  lemma {:induction false} TextFromShape(wire: seq<byte>, at: nat, text: Text)
    requires TextGrows(text) && TextFrom(wire, at, text).Some?
    ensures TextGrows(TextFrom(wire, at, text).value)
    decreases |wire| - at
  {
    LowerDot();
    hide Lower, AddLabel;
    if wire[at] != 0 {
      var l := wire[at + 1..at + 1 + wire[at]];
      var start := if text == [] then [] else text + [DOT];
      LowerConcat(text, [DOT]);
      AddLabelShape(start, l);
      TextFromShape(wire, at + 1 + wire[at], AddLabel(start, l).value);
    }
  }

  lemma {:induction false} AddLabelShape(text: Text, l: Label)
    requires AddLabel(text, l).Some? && |text| <= NAME_MAX && Lower(text) == text
    ensures var r := AddLabel(text, l).value;
            && |r| <= NAME_MAX && Lower(r) == r && text <= r
            && (l != [] ==> text < r && r[|text|] != DOT && r[|r| - 1] != DOT)
    decreases |l|
  {
    if l != [] {
      var longer := text + [LowerByte(l[0])];
      LowerConcat(text, [LowerByte(l[0])]);
      AddLabelShape(longer, l[1..]);
    }
  }

  // ---------- read_name ----------

  /** A label is read and added to the text, unless the text gets too long. */
  lemma ReadFromLabel(msg: seq<byte>, pos: nat, name: Text, end: Option<nat>, l: Label)
    requires |name| <= NAME_MAX && 1 <= |l| <= LABEL_MAX && pos + 1 + |l| <= |msg|
    requires msg[pos] == |l| && msg[pos + 1..pos + 1 + |l|] == l
    ensures var longer := name + Latin1(l) + [DOT];
            ReadFrom(msg, pos, name, end)
            == if |longer| > NAME_MAX then Err(Malformed) else ReadFrom(msg, pos + 1 + |l|, longer, end)
  {
    hide Latin1;
  }

  /** Reading an encoded name continues the text with it, as long as the whole stays within 255 bytes. */
  lemma {:induction false} ReadFromMeaning(msg: seq<byte>, pos: nat, name: Text, end: Option<nat>, ls: seq<Label>)
    requires GoodLabels(ls) && pos + WireLen(ls) <= |msg| && msg[pos..pos + WireLen(ls)] == Encode(ls)
    requires |name| <= NAME_MAX
    ensures ReadFrom(msg, pos, name, end)
            == if |name + Dotted(ls)| <= NAME_MAX
               then Ok((if name + Dotted(ls) == [] then [DOT] else name + Dotted(ls), end.GetOr(pos + WireLen(ls))))
               else Err(Malformed)
    decreases |ls|
  {
    hide Encode, Latin1, ReadFrom;
    Unfold(msg, pos, ls);
    if ls == [] {
      ReadFromRoot(msg, pos, name, end);
    } else {
      var longer := name + Latin1(ls[0]) + [DOT];
      LongerDotted(name, ls);
      hide WireLen, Dotted;
      ReadFromLabel(msg, pos, name, end, ls[0]);
      if |longer| <= NAME_MAX {
        ReadFromMeaning(msg, pos + 1 + |ls[0]|, longer, end, ls[1..]);
      }
    }
  }

  lemma ReadFromRoot(msg: seq<byte>, pos: nat, name: Text, end: Option<nat>)
    requires |name| <= NAME_MAX && pos < |msg| && msg[pos] == 0
    ensures name + Dotted([]) == name
    ensures ReadFrom(msg, pos, name, end) == Ok((if name == [] then [DOT] else name, end.GetOr(pos + 1)))
  {
  }

  lemma LongerDotted(name: Text, ls: seq<Label>)
    requires ls != []
    ensures name + Dotted(ls) == name + Latin1(ls[0]) + [DOT] + Dotted(ls[1..])
  {
    hide Latin1;
    Regroup(name, Latin1(ls[0]), [DOT]);
    Regroup(name, Latin1(ls[0]) + [DOT], Dotted(ls[1..]));
  }

  /** An encoded name is read as its qualified text, or refused when that text is longer than 255 bytes. */
  lemma ReadNameMeaning(msg: seq<byte>, at: nat, ls: seq<Label>)
    requires GoodLabels(ls) && at + WireLen(ls) <= |msg| && msg[at..at + WireLen(ls)] == Encode(ls)
    ensures NameAt(msg, at) == if |Dotted(ls)| <= NAME_MAX then Ok((Fqdn(ls), at + WireLen(ls))) else Err(Malformed)
  {
    hide ReadFrom, Encode, WireLen, Dotted, Fqdn;
    ReadFromNothing(msg, at, None, ls);
  }

  lemma ReadFromNothing(msg: seq<byte>, pos: nat, end: Option<nat>, ls: seq<Label>)
    requires GoodLabels(ls) && pos + WireLen(ls) <= |msg| && msg[pos..pos + WireLen(ls)] == Encode(ls)
    ensures ReadFrom(msg, pos, [], end)
            == if |Dotted(ls)| <= NAME_MAX then Ok((Fqdn(ls), end.GetOr(pos + WireLen(ls)))) else Err(Malformed)
  {
    hide ReadFrom, Encode, WireLen, GoodLabels;
    var none: Text := [];
    ReadFromMeaning(msg, pos, none, end, ls);
    assert none + Dotted(ls) == Dotted(ls);
  }

  // ---------- Compressed names ----------

  /**
   The labels met from `pos` on, along so many pointers, up to the root label (section 4.1.4 of RFC 1035): a label is
   followed by what is behind it, a pointer by what it points back to.
   */
  predicate Spells(msg: seq<byte>, pos: nat, ls: seq<Label>, jumps: nat)
    decreases |ls|, jumps
  {
    pos < |msg|
    && if msg[pos] == 0 then ls == [] && jumps == 0
       else if msg[pos] <= 63 then
         var next := pos + 1 + msg[pos];
         next <= |msg| && ls != [] && ls[0] == msg[pos + 1..next] && Spells(msg, next, ls[1..], jumps)
       else
         && msg[pos] >= 192 && pos + 1 < |msg|
         && var target := (msg[pos] as int - 192) * 256 + msg[pos + 1];
         target < pos && jumps > 0 && Spells(msg, target, ls, jumps - 1)
  }

  lemma TargetMeaning(msg: seq<byte>, pos: nat)
    requires pos + 1 < |msg| && msg[pos] >= 192
    ensures Target(msg, pos) == (msg[pos] as int - 192) * 256 + msg[pos + 1]
  {
    var low := (msg[pos] as int - 192) * 256 + msg[pos + 1];
    assert msg[pos] as int * 0x100 + msg[pos + 1] == 3 * 0x4000 + low && 0 <= low < 0x4000;
  }

  /** A chain of labels and pointers is read to its end while its text stays within 255 bytes, and else refused. */
  lemma {:induction false} SpelledIsRead(msg: seq<byte>, pos: nat, name: Text, end: Option<nat>, ls: seq<Label>,
                                         jumps: nat)
    requires Spells(msg, pos, ls, jumps) && |name| <= NAME_MAX
    ensures var r := ReadFrom(msg, pos, name, end);
            if |name + Dotted(ls)| <= NAME_MAX
            then r.Ok? && r.value.0 == if name + Dotted(ls) == [] then [DOT] else name + Dotted(ls)
            else r == Err(Malformed)
    decreases |ls|, jumps
  {
    hide Latin1;
    if msg[pos] == 0 {
      assert name + Dotted([]) == name;
    } else if msg[pos] <= LABEL_MAX {
      var longer := name + Latin1(ls[0]) + [DOT];
      LongerDotted(name, ls);
      hide Dotted;
      if |longer| <= NAME_MAX {
        SpelledIsRead(msg, pos + 1 + msg[pos], longer, end, ls[1..], jumps);
      }
    } else {
      hide Dotted;
      TargetMeaning(msg, pos);
      SpelledIsRead(msg, Target(msg, pos), name, Some(end.GetOr(pos + 2)), ls, jumps - 1);
    }
  }

  /** What is read to its end is such a chain. */
  lemma {:induction false} ReadIsSpelled(msg: seq<byte>, pos: nat, name: Text, end: Option<nat>)
    returns (ls: seq<Label>, jumps: nat)
    requires |name| <= NAME_MAX && ReadFrom(msg, pos, name, end).Ok?
    ensures Spells(msg, pos, ls, jumps) && |name + Dotted(ls)| <= NAME_MAX
    decreases NAME_MAX - |name|, pos
  {
    hide Latin1;
    ls, jumps := [], 0;
    if msg[pos] == 0 {
      assert name + Dotted([]) == name;
    } else if msg[pos] <= LABEL_MAX {
      var next := pos + 1 + msg[pos];
      var l := msg[pos + 1..next];
      ls, jumps := ReadIsSpelled(msg, next, name + Latin1(l) + [DOT], end);
      ls := [l] + ls;
      LongerDotted(name, ls);
    } else {
      TargetMeaning(msg, pos);
      ls, jumps := ReadIsSpelled(msg, Target(msg, pos), name, Some(end.GetOr(pos + 2)));
      jumps := jumps + 1;
    }
  }

  /**
   What `read_name` reads, for every byte string: it succeeds exactly when the chain of labels and backward pointers
   comes to a root label and its labels take at most 255 bytes as text; the name is that text, and the end the
   one that skipping the name gives.
   */
  lemma ReadNameExactly(msg: seq<byte>, at: nat)
    ensures NameAt(msg, at).Ok? <==> exists ls, jumps :: Spells(msg, at, ls, jumps) && |Dotted(ls)| <= NAME_MAX
    ensures forall ls, jumps :: Spells(msg, at, ls, jumps) && |Dotted(ls)| <= NAME_MAX
                                ==> && NameAt(msg, at).value.0 == Fqdn(ls)
                                    && NameEnd(msg, at) == Some(NameAt(msg, at).value.1)
    ensures NameAt(msg, at).Err? ==> NameAt(msg, at) == Err(Malformed)
  {
    hide ReadFrom, Spells;
    var none: Text := [];
    forall ls, jumps | Spells(msg, at, ls, jumps) && |Dotted(ls)| <= NAME_MAX
      ensures NameAt(msg, at).Ok? && NameAt(msg, at).value.0 == Fqdn(ls)
      ensures NameEnd(msg, at) == Some(NameAt(msg, at).value.1)
    {
      SpelledIsRead(msg, at, none, None, ls, jumps);
      assert none + Dotted(ls) == Dotted(ls);
      DottedEmpty(ls);
      ReadIsSkipped(msg, at);
    }
    if NameAt(msg, at).Ok? {
      var ls, jumps := ReadIsSpelled(msg, at, none, None);
      assert none + Dotted(ls) == Dotted(ls);
    } else {
      RefusedIsMalformed(msg, at, none, None);
    }
  }

  lemma DottedEmpty(ls: seq<Label>)
    ensures Dotted(ls) == [] <==> ls == []
  {
    hide Latin1;
  }

  lemma {:induction false} RefusedIsMalformed(msg: seq<byte>, pos: nat, name: Text, end: Option<nat>)
    requires |name| <= NAME_MAX && ReadFrom(msg, pos, name, end).Err?
    ensures ReadFrom(msg, pos, name, end) == Err(Malformed)
    decreases NAME_MAX - |name|, pos
  {
    hide Latin1;
    if pos < |msg| && 0 < msg[pos] <= LABEL_MAX {
      var next := pos + 1 + msg[pos];
      if next <= |msg| && |name + Latin1(msg[pos + 1..next]) + [DOT]| <= NAME_MAX {
        RefusedIsMalformed(msg, next, name + Latin1(msg[pos + 1..next]) + [DOT], end);
      }
    } else if pos + 1 < |msg| && msg[pos] >= 0xC0 && Target(msg, pos) < pos {
      RefusedIsMalformed(msg, Target(msg, pos), name, Some(end.GetOr(pos + 2)));
    }
  }

  // ---------- Skipping, and characters ----------

  /** From `at` there stand labels, and behind them a root label or a pointer, which ends at `e`. */
  ghost predicate SkippedTo(msg: seq<byte>, at: nat, ls: seq<Label>, e: nat) {
    && GoodLabels(ls)
    && var stop := at + WireLen(ls) - 1;
    && stop < |msg| && msg[at..stop] == Encode(ls)[..WireLen(ls) - 1]
    && ((msg[stop] == 0 && e == stop + 1) || (msg[stop] >= 192 && stop + 1 < |msg| && e == stop + 2))
  }

  /** What skipping a name accepts, exactly: labels up to a root label or a whole pointer, wherever that points. */
  lemma NameEndMeaning(msg: seq<byte>, at: nat, e: nat)
    ensures NameEnd(msg, at) == Some(e) <==> exists ls :: SkippedTo(msg, at, ls, e)
  {
    hide SkippedTo;
    if NameEnd(msg, at) == Some(e) {
      var ls := SkippedLabels(msg, at);
    }
    if ls :| SkippedTo(msg, at, ls, e) {
      SkippedIsEnd(msg, at, ls, e);
    }
  }

  lemma {:induction false} SkippedLabels(msg: seq<byte>, at: nat) returns (ls: seq<Label>)
    requires NameEnd(msg, at).Some?
    ensures SkippedTo(msg, at, ls, NameEnd(msg, at).value)
    decreases |msg| - at
  {
    ls := [];
    if 0 < msg[at] <= 63 {
      var next := at + 1 + msg[at];
      var rest := SkippedLabels(msg, next);
      ls := [msg[at + 1..next]] + rest;
      var (w, more) := (WireLen(rest) - 1, Encode(rest));
      assert ls[1..] == rest && Encode(ls) == [msg[at]] + msg[at + 1..next] + more;
      Cut(msg, at, next, next + w);
      hide Encode;
    }
  }

  lemma Cut(msg: seq<byte>, at: nat, next: nat, end: nat)
    requires at < next <= end <= |msg|
    ensures msg[at..end] == [msg[at]] + msg[at + 1..next] + msg[next..end]
  {
  }

  lemma {:induction false} SkippedIsEnd(msg: seq<byte>, at: nat, ls: seq<Label>, e: nat)
    requires SkippedTo(msg, at, ls, e)
    ensures NameEnd(msg, at) == Some(e)
    decreases |ls|
  {
    if ls != [] {
      var stop := at + WireLen(ls) - 1;
      var next := at + 1 + |ls[0]|;
      WireLenPositive(ls[1..]);
      var front := Encode(ls)[..WireLen(ls) - 1];
      assert Encode(ls) == [|ls[0]|] + ls[0] + Encode(ls[1..]);
      assert msg[at] == front[0] == |ls[0]|;
      assert msg[next..stop] == front[1 + |ls[0]|..] == Encode(ls[1..])[..WireLen(ls[1..]) - 1];
      SkippedIsEnd(msg, next, ls[1..], e);
    }
  }

  /** A byte read as a character of the same number, in UTF-8; texts are read byte by byte. */
  lemma Latin1Meaning(a: seq<byte>, b: seq<byte>, x: byte)
    ensures Latin1([x]) == Utf8(x)
    ensures Latin1(a + b) == Latin1(a) + Latin1(b)
  {
    Latin1Concat(a, b);
    assert [x][1..] == [] && Latin1([]) == [];
  }

  lemma {:induction false} Latin1Concat(a: seq<byte>, b: seq<byte>)
    ensures Latin1(a + b) == Latin1(a) + Latin1(b)
    decreases |a|
  {
    if a == [] {
      assert a + b == b;
    } else {
      assert (a + b)[1..] == a[1..] + b;
      Latin1Concat(a[1..], b);
    }
  }

  // ---------- The OPT record of a query ----------

  /** A record of another type that can be stepped over: its type, class and data length are there. */
  predicate OtherRecord(msg: seq<byte>, at: nat, next: nat) {
    && NameEnd(msg, at).Some?
    && var e := NameEnd(msg, at).value;
    && Be16(msg, e).Some? && Be16(msg, e).value != 41 && Be16(msg, e + 2).Some? && Be16(msg, e + 8).Some?
    && next == e + 10 + Be16(msg, e + 8).value
  }

  /** An OPT record, whose class is a UDP size. */
  predicate OptRecord(msg: seq<byte>, at: nat, size: u16) {
    && NameEnd(msg, at).Some?
    && var e := NameEnd(msg, at).value;
    Be16(msg, e) == Some(41) && Be16(msg, e + 2) == Some(size) && Be16(msg, e + 8).Some?
  }

  /** From the first place to the last there are records of other types, one behind the other. */
  ghost predicate Steps(msg: seq<byte>, places: seq<nat>) {
    places != [] && forall i :: 0 <= i < |places| - 1 ==> OtherRecord(msg, places[i], places[i + 1])
  }

  /**
   A query carries an OPT record with a UDP size exactly when, among the records it counts, one of that type and
   size stands behind records of other types only.
   */
  lemma OptSizeMeaning(msg: seq<byte>, at: nat, count: nat, size: u16)
    ensures OptSize(msg, at, count) == Some(size)
            <==> exists places :: && Steps(msg, places) && places[0] == at && |places| <= count
                                  && OptRecord(msg, places[|places| - 1], size)
  {
    hide Be16, NameEnd;
    if OptSize(msg, at, count) == Some(size) {
      var places := OptFoundAt(msg, at, count, size);
    }
    if places :| && Steps(msg, places) && places[0] == at && |places| <= count
                 && OptRecord(msg, places[|places| - 1], size) {
      OptReached(msg, count, size, places);
    }
  }

  /** The same for a parsed query: the records counted are those of its three other sections. */
  lemma EdnsMeaning(msg: seq<byte>, size: u16)
    requires Parse(msg).Good?
    ensures Be16(msg, 6).Some? && Be16(msg, 8).Some? && Be16(msg, 10).Some?
    ensures var (an, ns, ar) := (Be16(msg, 6).value, Be16(msg, 8).value, Be16(msg, 10).value);
            Parse(msg).q.edns == Some(size)
            <==> exists places :: && Steps(msg, places) && places[0] == HEADER_LEN + |Parse(msg).q.question|
                                  && |places| <= an as int + ns + ar && OptRecord(msg, places[|places| - 1], size)
  {
    hide OptSize, Steps, OptRecord;
    var rrs := Be16(msg, 6).value as int + Be16(msg, 8).value + Be16(msg, 10).value;
    OptSizeMeaning(msg, HEADER_LEN + |Parse(msg).q.question|, rrs, size);
  }

  lemma {:induction false} OptFoundAt(msg: seq<byte>, at: nat, count: nat, size: u16) returns (places: seq<nat>)
    requires OptSize(msg, at, count) == Some(size)
    ensures Steps(msg, places) && places[0] == at && |places| <= count
    ensures OptRecord(msg, places[|places| - 1], size)
    decreases count
  {
    hide Be16, NameEnd;
    places := [at];
    var e := NameEnd(msg, at).value;
    if Be16(msg, e).value != TYPE_OPT {
      var next := e + 10 + Be16(msg, e + 8).value;
      var rest := OptFoundAt(msg, next, count - 1, size);
      places := [at] + rest;
      assert OtherRecord(msg, places[0], places[1]);
      assert forall i :: 0 <= i < |rest| - 1 ==> OtherRecord(msg, rest[i], rest[i + 1]);
    }
  }

  lemma {:induction false} OptReached(msg: seq<byte>, count: nat, size: u16, places: seq<nat>)
    requires Steps(msg, places) && |places| <= count && OptRecord(msg, places[|places| - 1], size)
    ensures OptSize(msg, places[0], count) == Some(size)
    decreases |places|
  {
    hide Be16, NameEnd;
    if |places| > 1 {
      assert OtherRecord(msg, places[0], places[1]);
      var rest := places[1..];
      forall i | 0 <= i < |rest| - 1 ensures OtherRecord(msg, rest[i], rest[i + 1]) {
        assert OtherRecord(msg, places[i + 1], places[i + 2]);
      }
      OptReached(msg, count - 1, size, rest);
    }
  }

  /** The pointer that every answer carries reads as the name of the question. */
  lemma ReadPointerMeaning(msg: seq<byte>, at: nat, ls: seq<Label>)
    requires GoodLabels(ls) && HEADER_LEN + WireLen(ls) <= at
    requires at + 2 <= |msg| && msg[at..at + 2] == [0xC0, HEADER_LEN]
    requires msg[HEADER_LEN..HEADER_LEN + WireLen(ls)] == Encode(ls)
    ensures NameAt(msg, at) == if |Dotted(ls)| <= NAME_MAX then Ok((Fqdn(ls), at + 2)) else Err(Malformed)
  {
    assert msg[at] == msg[at..at + 2][0] && msg[at + 1] == msg[at..at + 2][1];
    assert Target(msg, at) == HEADER_LEN;
    ReadFromNothing(msg, HEADER_LEN, Some(at + 2), ls);
  }

  /**
   `name_text` against `read_name` on the name of a parsed question: where the first succeeds, the second
   gives the same text before lower-casing, with its final dot; the root is the one exception.
   */
  lemma NameTextIsReadName(msg: seq<byte>)
    requires Parse(msg).Good? && TextOf(Parse(msg).q.qname).Some?
    ensures NameAt(msg, HEADER_LEN).Ok?
    ensures var text, name := TextOf(Parse(msg).q.qname).value, NameAt(msg, HEADER_LEN).value.0;
            if Parse(msg).q.qname == [0] then text == [] && name == [DOT] else Lower(name) == text + [DOT]
  {
    ParsedName(msg);
    PlainNameSound(msg, HEADER_LEN, HEADER_LEN);
    var ls := LabelsAt(msg, HEADER_LEN);
    NameTextMeaning(ls);
    PrintableIsAscii(ls);
    FqdnAscii(ls);
    ReadNameMeaning(msg, HEADER_LEN, ls);
    LowerConcat(Join(ls), [DOT]);
    assert Lower([DOT]) == [DOT];
  }

  lemma PrintableIsAscii(ls: seq<Label>)
    requires AllPrintable(ls)
    ensures AsciiLabels(ls)
  {
  }
}
