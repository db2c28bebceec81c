/** Bytes, text, results, and lists without duplicates: what every other module shares. */
module Basics {

  type byte = x: int | 0 <= x < 0x100
  type u16 = x: int | 0 <= x < 0x1_0000
  type u32 = x: int | 0 <= x < 0x1_0000_0000

  /** A text as its UTF-8 bytes. Every operation modelled on text works byte by byte. */
  type Text = seq<byte>

  datatype Option<+T> = None | Some(value: T) {
    function GetOr(other: T): T {
      if Some? then value else other
    }
  }

  /** The errors of the core that the modelled code can return. */
  datatype Error = NoClusterName | BadName | NoRoom | Malformed

  datatype Result<+T> = Ok(value: T) | Err(error: Error)

  /** An IPv4 address by its four octets. */
  datatype Ip = Ip(a: byte, b: byte, c: byte, d: byte)

  const DOT: byte := 46

  function Min(a: int, b: int): int {
    if a <= b then a else b
  }

  function Max(a: int, b: int): int {
    if a <= b then b else a
  }

  // ---------- ASCII letter case ----------

  function LowerByte(b: byte): byte {
    if 65 <= b <= 90 then b + 32 else b
  }

  function Lower(s: Text): (r: Text)
    ensures |r| == |s|
    ensures forall i :: 0 <= i < |s| ==> r[i] == LowerByte(s[i])
  {
    if s == [] then [] else [LowerByte(s[0])] + Lower(s[1..])
  }

  lemma LowerConcat(a: Text, b: Text)
    ensures Lower(a + b) == Lower(a) + Lower(b)
  {
  }

  lemma LowerTwice(a: Text)
    ensures Lower(Lower(a)) == Lower(a)
  {
  }

  // ---------- Trimming white space ----------

  /** The two bytes of a white-space character: U+0085 and U+00A0. */
  predicate Space2(a: byte, b: byte) {
    a == 0xC2 && (b == 0x85 || b == 0xA0)
  }

  /** The three bytes of one: U+1680, U+2000 to U+200A, U+2028, U+2029, U+202F, U+205F and U+3000. */
  predicate Space3(a: byte, b: byte, c: byte) {
    || (a == 0xE1 && b == 0x9A && c == 0x80)
    || (a == 0xE2 && b == 0x80 && (0x80 <= c <= 0x8A || c == 0xA8 || c == 0xA9 || c == 0xAF))
    || (a == 0xE2 && b == 0x81 && c == 0x9F)
    || (a == 0xE3 && b == 0x80 && c == 0x80)
  }

  /** How many bytes the white-space character takes that the text begins with; none when it begins with another. */
  function LeadingSpace(s: Text): (n: nat)
    ensures n <= |s|
  {
    if |s| >= 1 && (9 <= s[0] <= 13 || s[0] == 32) then 1
    else if |s| >= 2 && Space2(s[0], s[1]) then 2
    else if |s| >= 3 && Space3(s[0], s[1], s[2]) then 3
    else 0
  }

  /** The same at the end. In UTF-8 the last bytes are those of one character only. */
  function TrailingSpace(s: Text): (n: nat)
    ensures n <= |s|
  {
    var m := |s|;
    if m >= 1 && (9 <= s[m - 1] <= 13 || s[m - 1] == 32) then 1
    else if m >= 2 && Space2(s[m - 2], s[m - 1]) then 2
    else if m >= 3 && Space3(s[m - 3], s[m - 2], s[m - 1]) then 3
    else 0
  }

  function TrimStart(s: Text): Text {
    if LeadingSpace(s) > 0 then TrimStart(s[LeadingSpace(s)..]) else s
  }

  function TrimEnd(s: Text): Text {
    if TrailingSpace(s) > 0 then TrimEnd(s[..|s| - TrailingSpace(s)]) else s
  }

  function Trim(s: Text): Text {
    TrimEnd(TrimStart(s))
  }

  /** The text without one final dot. */
  function StripDot(s: Text): Text {
    if s != [] && s[|s| - 1] == DOT then s[..|s| - 1] else s
  }

  // ---------- Lists without duplicates ----------

  ghost predicate NoDup<T>(s: seq<T>) {
    forall i, j :: 0 <= i < j < |s| ==> s[i] != s[j]
  }

  function PushUnique<T(==)>(list: seq<T>, x: T): seq<T> {
    if x in list then list else list + [x]
  }

  /** `list` with every element of `s` pushed that it does not hold yet. */
  function Uniq<T(==)>(list: seq<T>, s: seq<T>): seq<T>
    decreases |s|
  {
    if s == [] then list else Uniq(PushUnique(list, s[0]), s[1..])
  }

  lemma {:induction false} UniqConcat<T>(list: seq<T>, a: seq<T>, b: seq<T>)
    ensures Uniq(list, a + b) == Uniq(Uniq(list, a), b)
    decreases |a|
  {
    if a == [] {
      assert a + b == b;
    } else {
      assert (a + b)[1..] == a[1..] + b;
      UniqConcat(PushUnique(list, a[0]), a[1..], b);
    }
  }

  lemma {:induction false} UniqPrefix<T>(list: seq<T>, s: seq<T>)
    ensures list <= Uniq(list, s)
    decreases |s|
  {
    if s != [] {
      UniqPrefix(PushUnique(list, s[0]), s[1..]);
    }
  }

  /** The list starts as given, gains exactly the elements of `s`, and gains none twice. */
  lemma {:induction false} UniqMeaning<T>(list: seq<T>, s: seq<T>)
    ensures NoDup(list) ==> NoDup(Uniq(list, s))
    ensures forall x :: x in Uniq(list, s) <==> x in list || x in s
    decreases |s|
  {
    if s != [] {
      UniqMeaning(PushUnique(list, s[0]), s[1..]);
      assert forall x :: x in s <==> x == s[0] || x in s[1..];
    }
  }

  /** The places at which a list has an element for the first time, in ascending order. */
  ghost predicate FirstPlaces<T>(s: seq<T>, ps: seq<nat>) {
    && (forall i, j :: 0 <= i < j < |ps| ==> ps[i] < ps[j])
    && (forall i :: 0 <= i < |ps| ==> ps[i] < |s|)
    && forall p: nat :: p < |s| ==> (p in ps <==> s[p] !in s[..p])
  }

  lemma PlacesGrow<T>(front: seq<T>, x: T, ps: seq<nat>)
    requires FirstPlaces(front, ps)
    ensures FirstPlaces(front + [x], if x in front then ps else ps + [|front|])
  {
    var s, ps' := front + [x], if x in front then ps else ps + [|front|];
    assert s[..|front|] == front;
    forall p: nat | p < |s| ensures p in ps' <==> s[p] !in s[..p] {
      if p < |front| {
        assert s[..p] == front[..p];
      }
    }
  }

  /** The list is what stands at these places, which are those of the first occurrences. */
  ghost predicate FirstOccurrences<T>(s: seq<T>, ps: seq<nat>, list: seq<T>) {
    FirstPlaces(s, ps) && |list| == |ps| && forall i :: 0 <= i < |ps| ==> ps[i] < |s| && list[i] == s[ps[i]]
  }

  lemma OccurrencesGrow<T>(front: seq<T>, x: T, ps: seq<nat>, list: seq<T>)
    requires FirstOccurrences(front, ps, list)
    ensures FirstOccurrences(front + [x], if x in front then ps else ps + [|front|],
                             list + if x in front then [] else [x])
  {
    PlacesGrow(front, x, ps);
    hide FirstPlaces;
    assert (front + [x])[|front|] == x;
    assert forall p :: 0 <= p < |front| ==> (front + [x])[p] == front[p];
  }

  /** De-duplicating keeps the first occurrence of every element, in order, and drops the others. */
  lemma {:induction false} UniqOrder<T>(s: seq<T>) returns (ps: seq<nat>)
    ensures FirstOccurrences(s, ps, Uniq([], s))
    decreases |s|
  {
    if s == [] {
      ps := [];
    } else {
      var front, x := s[..|s| - 1], s[|s| - 1];
      ps := UniqOrder(front);
      hide FirstOccurrences, Uniq;
      UniqBehind(front, x);
      OccurrencesGrow(front, x, ps, Uniq([], front));
      assert s == front + [x];
      ps := if x in front then ps else ps + [|front|];
    }
  }

  lemma UniqBehind<T>(front: seq<T>, x: T)
    ensures Uniq([], front + [x]) == Uniq([], front) + if x in front then [] else [x]
  {
    UniqConcat([], front, [x]);
    assert Uniq(Uniq([], front), [x]) == PushUnique(Uniq([], front), x);
    UniqMeaning([], front);
    hide Uniq;
    assert Uniq([], front) + [] == Uniq([], front);
  }

  // ---------- Pieces of a sequence ----------

  lemma Regroup<T>(a: seq<T>, b: seq<T>, c: seq<T>)
    ensures a + b + c == a + (b + c) && [] + a == a && a + [] == a
  {
  }

  lemma SubSlice<T>(m: seq<T>, from: nat, to: nat, i: nat, j: nat)
    requires from + i <= from + j <= to <= |m|
    ensures m[from..to][i..j] == m[from + i..from + j]
  {
    var a := m[from..to];
    assert forall k :: 0 <= k < j - i ==> a[i..j][k] == a[i + k] == m[from + i + k];
  }

  lemma Two<T>(m: seq<T>, at: nat, a: seq<T>, b: seq<T>)
    requires at + |a| + |b| <= |m| && m[at..at + |a + b|] == a + b
    ensures m[at..at + |a|] == a
    ensures m[at + |a|..at + |a| + |b|] == b
    ensures m[at..at + |a| + |b|] == a + b
  {
    assert forall i :: 0 <= i < |a + b| ==> m[at + i] == m[at..at + |a + b|][i] == (a + b)[i];
    assert forall i :: 0 <= i < |a| ==> m[at..at + |a|][i] == m[at + i] == a[i];
    assert forall i :: 0 <= i < |b| ==> m[at + |a|..at + |a| + |b|][i] == m[at + (|a| + i)] == b[i];
  }

  /** The three consecutive pieces of a stretch of the message. */
  lemma Three<T>(m: seq<T>, at: nat, a: seq<T>, b: seq<T>, c: seq<T>)
    requires at + |a| + |b| + |c| <= |m| && m[at..at + |a| + |b| + |c|] == a + b + c
    ensures m[at..at + |a|] == a
    ensures m[at + |a|..at + |a| + |b|] == b
    ensures m[at + |a| + |b|..at + |a| + |b| + |c|] == c
  {
    var s := a + b + c;
    assert forall i :: 0 <= i < |s| ==> m[at + i] == m[at..at + |a| + |b| + |c|][i] == s[i];
    assert forall i :: 0 <= i < |a| ==> m[at..at + |a|][i] == m[at + i] == a[i];
    assert forall i :: 0 <= i < |b| ==> m[at + |a|..at + |a| + |b|][i] == m[at + (|a| + i)] == b[i];
  }
}
