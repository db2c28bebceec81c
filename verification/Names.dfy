/**
 Domain names in their two forms: as text with dots, and on the wire as length-prefixed labels
 (sections 2.3.4 and 4.1 of RFC 1035). A name as such is a list of labels, without the root label.
 */
module Names {
  import opened Basics
  import opened Texts

  type Label = seq<byte>

  const LABEL_MAX := 63
  const NAME_MAX := 255

  predicate GoodLabels(ls: seq<Label>) {
    forall i :: 0 <= i < |ls| ==> 1 <= |ls[i]| <= 63
  }

  /** How many bytes the name takes on the wire, root label included. */
  function WireLen(ls: seq<Label>): nat {
    if ls == [] then 1 else 1 + |ls[0]| + WireLen(ls[1..])
  }

  /** The name on the wire: every label behind its length, closed by the root label. */
  function Encode(ls: seq<Label>): (wire: seq<byte>)
    requires GoodLabels(ls)
    ensures |wire| == WireLen(ls)
  {
    if ls == [] then [0] else [|ls[0]|] + ls[0] + Encode(ls[1..])
  }

  /** A label list that fits the limits of section 2.3.4 of RFC 1035. */
  predicate WireName(ls: seq<Label>) {
    GoodLabels(ls) && WireLen(ls) <= 255
  }

  lemma {:induction false} EncodeInjective(a: seq<Label>, b: seq<Label>, x: seq<byte>, y: seq<byte>)
    requires GoodLabels(a) && GoodLabels(b) && Encode(a) + x == Encode(b) + y
    ensures a == b && x == y
    decreases |a|
  {
    var wa, wb := Encode(a) + x, Encode(b) + y;
    assert wa[0] == wb[0];
    if a != [] && b != [] {
      Regroup([|a[0]|] + a[0], Encode(a[1..]), x);
      Regroup([|b[0]|] + b[0], Encode(b[1..]), y);
      Three(wa, 0, [|a[0]|], a[0], Encode(a[1..]) + x);
      Three(wb, 0, [|b[0]|], b[0], Encode(b[1..]) + y);
      EncodeInjective(a[1..], b[1..], x, y);
      assert a == [a[0]] + a[1..] && b == [b[0]] + b[1..];
    } else {
      assert a == [] && b == [];
      assert wa[1..] == x && wb[1..] == y;
    }
  }

  // ---------- Text with dots ----------

  /** The place of the first dot, or the length when there is none. */
  function FirstDot(s: Text): (i: nat)
    ensures i <= |s|
    ensures i < |s| ==> s[i] == DOT
    ensures DOT !in s[..i]
  {
    if s == [] || s[0] == DOT then 0
    else
      assert s[..1 + FirstDot(s[1..])] == [s[0]] + s[1..][..FirstDot(s[1..])];
      1 + FirstDot(s[1..])
  }

  /** The text before the first dot and the text after it. */
  function SplitOnce(s: Text): (r: Option<(Text, Text)>)
    ensures r.None? <==> DOT !in s
    ensures r.Some? ==> s == r.value.0 + [DOT] + r.value.1 && DOT !in r.value.0 && |r.value.1| < |s|
  {
    var i := FirstDot(s);
    if i == |s| then
      assert s[..i] == s;
      None
    else
      Some((s[..i], s[i + 1..]))
  }

  function Split(s: Text): (ls: seq<Label>)
    ensures ls != []
    decreases |s|
  {
    match SplitOnce(s)
    case None => [s]
    case Some((first, rest)) => [first] + Split(rest)
  }

  function Join(ls: seq<Label>): Text {
    if ls == [] then [] else if |ls| == 1 then ls[0] else ls[0] + [DOT] + Join(ls[1..])
  }

  /** The labels a text stands for: one final dot is dropped, the empty text is the root. */
  function LabelsOf(name: Text): seq<Label> {
    var t := StripDot(name);
    if t == [] then [] else Split(t)
  }

  lemma {:induction false} JoinSplit(s: Text)
    ensures Join(Split(s)) == s
    decreases |s|
  {
    var cut := SplitOnce(s);
    if cut.Some? {
      JoinSplit(cut.value.1);
      assert Split(s)[1..] == Split(cut.value.1);
    }
  }

  lemma {:induction false} FirstDotAt(a: Text, b: Text)
    requires DOT !in a
    ensures FirstDot(a + [DOT] + b) == |a|
  {
    var s := a + [DOT] + b;
    if a != [] {
      assert s[0] == a[0] && a[0] in a;
      assert s[1..] == a[1..] + [DOT] + b;
      FirstDotAt(a[1..], b);
    }
  }

  lemma SplitOnceAt(a: Text, b: Text)
    requires DOT !in a
    ensures SplitOnce(a + [DOT] + b) == Some((a, b))
  {
    var s := a + [DOT] + b;
    FirstDotAt(a, b);
    assert s[..|a|] == a && s[|a| + 1..] == b;
  }

  lemma {:induction false} SplitJoin(ls: seq<Label>)
    requires ls != [] && forall i :: 0 <= i < |ls| ==> DOT !in ls[i]
    ensures Split(Join(ls)) == ls
    decreases |ls|
  {
    if |ls| == 1 {
      assert SplitOnce(ls[0]) == None;
    } else {
      SplitOnceAt(ls[0], Join(ls[1..]));
      SplitJoin(ls[1..]);
    }
  }

  lemma JoinLabelsOf(name: Text)
    ensures Join(LabelsOf(name)) == StripDot(name)
  {
    if StripDot(name) != [] {
      JoinSplit(StripDot(name));
    }
  }

  lemma LabelsOfJoin(ls: seq<Label>)
    requires ls != [] && forall i :: 0 <= i < |ls| ==> ls[i] != [] && DOT !in ls[i]
    ensures LabelsOf(Join(ls)) == ls
  {
    hide Join, Split;
    SplitJoin(ls);
    LastByte(ls);
  }

  /** The labels of a text, exactly: without dots, and joined by dots they give the text without one final dot. */
  lemma LabelsMeaning(name: Text, ls: seq<Label>)
    ensures LabelsOf(name) == ls
            <==> WithoutDot(name, Join(ls)) && ls != [[]] && forall i :: 0 <= i < |ls| ==> 46 !in ls[i]
  {
    hide StripDot, Split, WithoutDot, Join;
    DotMeaning(name, Join(ls));
    JoinLabelsOf(name);
    NothingJoined();
    if StripDot(name) != [] {
      SplitNoDots(StripDot(name));
    }
    if WithoutDot(name, Join(ls)) && ls != [[]] && (forall i :: 0 <= i < |ls| ==> 46 !in ls[i]) && ls != [] {
      JoinedSome(ls);
      SplitJoin(ls);
    }
  }

  lemma NothingJoined()
    ensures Join([]) == [] && Join([[]]) == []
  {
  }

  lemma JoinedSome(ls: seq<Label>)
    requires ls != [] && ls != [[]]
    ensures Join(ls) != []
  {
    if |ls| == 1 {
      assert ls == [ls[0]];
    }
  }

  lemma {:induction false} SplitNoDots(s: Text)
    ensures forall i :: 0 <= i < |Split(s)| ==> DOT !in Split(s)[i]
    ensures s != [] ==> Split(s) != [[]]
    decreases |s|
  {
    hide SplitOnce;
    var cut := SplitOnce(s);
    if cut.Some? {
      SplitNoDots(cut.value.1);
    } else {
      assert Split(s) == [s] && DOT !in s;
    }
  }

  lemma {:induction false} LastByte(ls: seq<Label>)
    requires ls != [] && forall i :: 0 <= i < |ls| ==> ls[i] != [] && DOT !in ls[i]
    ensures Join(ls) != [] && Join(ls)[|Join(ls)| - 1] != DOT
    decreases |ls|
  {
    if |ls| > 1 {
      LastByte(ls[1..]);
    } else {
      assert ls[0][|ls[0]| - 1] in ls[0];
    }
  }

  // ---------- Text read back from the wire ----------

  /** Bytes as characters of the same number, in UTF-8: two bytes from 128 up. */
  function Latin1(s: seq<byte>): Text {
    if s == [] then []
    else (if s[0] < 128 then [s[0]] else [192 + s[0] / 64, 128 + s[0] % 64]) + Latin1(s[1..])
  }

  /** Every label followed by a dot. */
  function Dotted(ls: seq<Label>): Text {
    if ls == [] then [] else Latin1(ls[0]) + [DOT] + Dotted(ls[1..])
  }

  /** The name as a fully qualified text; the root is a single dot. */
  function Fqdn(ls: seq<Label>): Text {
    if ls == [] then [DOT] else Dotted(ls)
  }

  predicate IsAscii(s: seq<byte>) {
    forall i :: 0 <= i < |s| ==> s[i] < 128
  }

  predicate AsciiLabels(ls: seq<Label>) {
    forall i :: 0 <= i < |ls| ==> IsAscii(ls[i])
  }

  lemma {:induction false} Latin1Ascii(s: seq<byte>)
    requires IsAscii(s)
    ensures Latin1(s) == s
  {
    if s != [] {
      Latin1Ascii(s[1..]);
    }
  }

  /** For ASCII labels the qualified text is the plain text with one dot behind it. */
  lemma {:induction false} FqdnAscii(ls: seq<Label>)
    requires AsciiLabels(ls)
    ensures Fqdn(ls) == Join(ls) + [DOT]
    ensures |Dotted(ls)| == WireLen(ls) - 1
    decreases |ls|
  {
    if ls != [] {
      Latin1Ascii(ls[0]);
      FqdnAscii(ls[1..]);
    }
  }

  lemma AsciiParts(a: Text, b: Text)
    requires IsAscii(a + [DOT] + b)
    ensures IsAscii(a) && IsAscii(b)
  {
    var s := a + [DOT] + b;
    assert forall i :: 0 <= i < |a| ==> a[i] == s[i];
    assert forall i :: 0 <= i < |b| ==> b[i] == s[|a| + 1 + i];
  }

  lemma {:induction false} SplitAscii(s: Text)
    requires IsAscii(s)
    ensures AsciiLabels(Split(s))
    decreases |s|
  {
    hide SplitOnce;
    var cut := SplitOnce(s);
    if cut.Some? {
      var (first, rest) := cut.value;
      AsciiParts(first, rest);
      SplitAscii(rest);
    }
  }

  lemma LabelsOfAscii(name: Text)
    requires IsAscii(name)
    ensures AsciiLabels(LabelsOf(name))
  {
    if StripDot(name) != [] {
      SplitAscii(StripDot(name));
    }
  }

  // ---------- Zones ----------

  /** `name` is `zone` or lies below it (src/server.rs, `in_zone`); both in lower case, without final dot. */
  predicate InZone(name: Text, zone: Text) {
    || name == zone
    || (|name| > |zone| && name[|name| - |zone|..] == zone && name[|name| - |zone| - 1] == DOT)
  }

  /** Lying below a zone is having text and a dot in front of it. */
  lemma InZoneMeaning(name: Text, zone: Text)
    ensures InZone(name, zone) <==> name == zone || exists x: Text :: name == x + [DOT] + zone
  {
    if InZone(name, zone) && name != zone {
      var n := |name| - |zone| - 1;
      assert name == name[..n] + [DOT] + zone;
    }
    if x: Text :| name == x + [DOT] + zone {
      assert name[|name| - |zone|..] == zone && name[|name| - |zone| - 1] == DOT;
    }
  }

  lemma InZoneBelow(x: Text, zone: Text)
    ensures InZone(x + [DOT] + zone, zone)
  {
    InZoneMeaning(x + [DOT] + zone, zone);
  }

  lemma InZoneTransitive(a: Text, b: Text, c: Text)
    requires InZone(a, b) && InZone(b, c)
    ensures InZone(a, c)
  {
    if a != b && b != c {
      var n := |a| - |b|;
      var m := |b| - |c|;
      assert a[n..][m..] == a[n + m..];
      assert a[n..][m - 1] == a[n + m - 1];
    }
  }

  /** Two zones that hold the same name: the shorter one holds the longer one. */
  lemma ZonesNest(name: Text, a: Text, b: Text)
    requires InZone(name, a) && InZone(name, b) && |a| <= |b|
    ensures InZone(b, a)
  {
    var n := |name|;
    assert name[n - |b|..] == b && name[n - |a|..] == a;
    assert b[|b| - |a|..] == a;
    if |a| < |b| {
      assert b[|b| - |a| - 1] == name[n - |a| - 1];
    }
  }
}
