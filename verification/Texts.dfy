/** What the operations on text mean, said with characters and code points instead of with the operations. */
module Texts {
  import opened Basics

  // ---------- Letter case ----------

  /** The same text when the case of ASCII letters does not count: equal bytes, or the two cases of one letter. */
  predicate SameLetters(a: Text, b: Text) {
    |a| == |b| && forall i :: 0 <= i < |a| ==> SameLetter(a[i], b[i])
  }

  predicate SameLetter(x: byte, y: byte) {
    x == y || (65 <= x <= 90 && y == x + 32) || (97 <= x <= 122 && y == x - 32)
  }

  /** The text has no capital. */
  predicate NoCapitals(a: Text) {
    forall i :: 0 <= i < |a| ==> !(65 <= a[i] <= 90)
  }

  /** Lower case is the one text with the same letters that has no capital. */
  lemma LowerMeaning(a: Text, b: Text)
    ensures Lower(a) == b <==> SameLetters(a, b) && NoCapitals(b)
  {
    if SameLetters(a, b) && NoCapitals(b) {
      assert forall i :: 0 <= i < |a| ==> Lower(a)[i] == b[i];
    }
  }

  /** Two texts have the same lower case exactly when they are the same up to the case of letters. */
  lemma SameLowerMeaning(a: Text, b: Text)
    ensures Lower(a) == Lower(b) <==> SameLetters(a, b)
  {
    if Lower(a) == Lower(b) {
      forall i | 0 <= i < |a| ensures SameLetter(a[i], b[i]) {
        assert Lower(a)[i] == Lower(b)[i];
      }
    }
    if SameLetters(a, b) {
      assert forall i :: 0 <= i < |a| ==> SameLetter(a[i], b[i]) && Lower(a)[i] == Lower(b)[i];
    }
  }

  // ---------- The final dot ----------

  /** `n` is the text without one final dot. */
  predicate WithoutDot(t: Text, n: Text) {
    t == n + [46] || (t == n && !(t != [] && t[|t| - 1] == 46))
  }

  lemma DotMeaning(t: Text, n: Text)
    ensures WithoutDot(t, n) <==> StripDot(t) == n
  {
    if t == n + [46] {
      assert t[..|t| - 1] == n;
    }
  }

  // ---------- White space ----------

  /** The code points with the Unicode property White_Space. */
  predicate WhiteSpace(cp: nat) {
    || 9 <= cp <= 13 || cp == 0x20 || cp == 0x85 || cp == 0xA0 || cp == 0x1680 || 0x2000 <= cp <= 0x200A
    || cp == 0x2028 || cp == 0x2029 || cp == 0x202F || cp == 0x205F || cp == 0x3000
  }

  /** A code point below U+10000 in UTF-8 (section 3 of RFC 3629). */
  function Utf8(cp: nat): Text
    requires cp < 0x1_0000
  {
    if cp < 0x80 then [cp]
    else if cp < 0x800 then [0xC0 + cp / 0x40, 0x80 + cp % 0x40]
    else [0xE0 + cp / 0x1000, 0x80 + cp / 0x40 % 0x40, 0x80 + cp % 0x40]
  }

  /** A white-space character. */
  ghost predicate White(w: Text) {
    exists cp :: WhiteSpace(cp) && Utf8(cp) == w
  }

  /** White-space characters and nothing else. */
  ghost predicate AllWhite(s: Text)
    decreases |s|
  {
    s == [] || exists n :: 0 < n <= |s| && White(s[..n]) && AllWhite(s[n..])
  }

  ghost predicate BeginsWhite(s: Text) {
    exists n :: 0 <= n <= |s| && White(s[..n])
  }

  ghost predicate EndsWhite(s: Text) {
    exists n :: 0 <= n <= |s| && White(s[n..])
  }

  lemma WhiteLen(w: Text)
    requires White(w)
    ensures 1 <= |w| <= 3
  {
    hide Utf8, White;
    WhiteShape(w);
  }

  predicate WhiteBytes(w: Text) {
    || (|w| == 1 && (9 <= w[0] <= 13 || w[0] == 32))
    || (|w| == 2 && Space2(w[0], w[1]))
    || (|w| == 3 && Space3(w[0], w[1], w[2]))
  }

  lemma WhiteSpaceBytes(cp: nat)
    requires WhiteSpace(cp)
    ensures WhiteBytes(Utf8(cp))
  {
    if 0x2000 <= cp < 0x2040 {
      WideBytes(0x80, cp - 0x2000);
    } else if cp == 0x205F {
      WideBytes(0x81, 0x1F);
    }
  }

  /** The characters from U+2000 to U+207F in UTF-8. */
  lemma WideBytes(b: byte, c: nat)
    requires 0x80 <= b <= 0x81 && c < 0x40
    ensures Utf8(0x2000 + (b - 0x80) * 0x40 + c) == [0xE2, b, 0x80 + c]
  {
    var cp := 0x2000 + (b - 0x80) * 0x40 + c;
    assert cp / 0x40 == 0x80 + (b - 0x80) && cp / 0x1000 == 2;
  }

  /** The shapes of white-space characters, byte for byte. */
  lemma WhiteShape(w: Text)
    ensures White(w) <==> WhiteBytes(w)
  {
    hide Utf8;
    if cp :| WhiteSpace(cp) && Utf8(cp) == w {
      WhiteSpaceBytes(cp);
    }
    if WhiteBytes(w) {
      var cp := WhiteCode(w);
    }
  }

  lemma WhiteCode(w: Text) returns (cp: nat)
    requires WhiteBytes(w)
    ensures WhiteSpace(cp) && Utf8(cp) == w
  {
    if |w| == 1 {
      cp := w[0];
    } else if |w| == 2 {
      cp := w[1];
    } else if w[0] == 0xE1 {
      cp := 0x1680;
    } else if w[0] == 0xE3 {
      cp := 0x3000;
    } else {
      cp := 0x2000 + (w[1] - 0x80) as int * 0x40 + (w[2] - 0x80);
      WideBytes(w[1], w[2] - 0x80);
    }
  }

  lemma LeadingMeaning(s: Text)
    ensures LeadingSpace(s) > 0 ==> White(s[..LeadingSpace(s)])
    ensures LeadingSpace(s) > 0 <==> BeginsWhite(s)
  {
    hide White;
    forall n | 0 <= n <= |s| ensures White(s[..n]) ==> LeadingSpace(s) > 0 {
      WhiteShape(s[..n]);
    }
    WhiteShape(s[..LeadingSpace(s)]);
  }

  lemma TrailingMeaning(s: Text)
    ensures TrailingSpace(s) > 0 ==> White(s[|s| - TrailingSpace(s)..])
    ensures TrailingSpace(s) > 0 <==> EndsWhite(s)
  {
    hide White;
    forall n | 0 <= n <= |s| ensures White(s[n..]) ==> TrailingSpace(s) > 0 {
      WhiteShape(s[n..]);
    }
    WhiteShape(s[|s| - TrailingSpace(s)..]);
  }

  lemma {:induction false} TrimStartMeaning(s: Text) returns (front: Text)
    ensures s == front + TrimStart(s) && AllWhite(front) && !BeginsWhite(TrimStart(s))
    decreases |s|
  {
    hide White, BeginsWhite, AllWhite, LeadingSpace;
    LeadingMeaning(s);
    NothingIsWhite();
    front := [];
    var n := LeadingSpace(s);
    if n > 0 {
      var more := TrimStartMeaning(s[n..]);
      front := s[..n] + more;
      WhiteInFront(s[..n], more);
      Regroup(s[..n], more, TrimStart(s[n..]));
      assert s == s[..n] + s[n..];
    }
  }

  lemma WhiteInFront(w: Text, more: Text)
    requires White(w) && AllWhite(more)
    ensures AllWhite(w + more)
  {
    WhiteLen(w);
    hide White;
    assert (w + more)[..|w|] == w && (w + more)[|w|..] == more;
  }

  lemma {:induction false} AllWhiteBehind(a: Text, w: Text)
    requires AllWhite(a) && White(w)
    ensures AllWhite(a + w)
    decreases |a|
  {
    hide White;
    if a == [] {
      WhiteLen(w);
      assert a + w == w && w[..|w|] == w && w[|w|..] == [];
    } else {
      var n :| 0 < n <= |a| && White(a[..n]) && AllWhite(a[n..]);
      AllWhiteBehind(a[n..], w);
      assert (a + w)[..n] == a[..n] && (a + w)[n..] == a[n..] + w;
    }
  }

  lemma {:induction false} TrimEndMeaning(s: Text) returns (back: Text)
    ensures s == TrimEnd(s) + back && AllWhite(back) && !EndsWhite(TrimEnd(s))
    decreases |s|
  {
    hide White, EndsWhite, AllWhite, TrailingSpace;
    TrailingMeaning(s);
    back := [];
    NothingIsWhite();
    var n := TrailingSpace(s);
    if n > 0 {
      var (more, w) := (s[..|s| - n], s[|s| - n..]);
      back := TrimEndMeaning(more);
      AllWhiteBehind(back, w);
      assert s == more + w;
      Regroup(TrimEnd(more), back, w);
      back := back + w;
    }
  }

  lemma NothingIsWhite()
    ensures AllWhite([])
  {
  }

  /** `t` is `s` without the white space around it. */
  ghost predicate Trimmed(s: Text, t: Text) {
    !BeginsWhite(t) && !EndsWhite(t) && exists front, back :: AllWhite(front) && AllWhite(back) && s == front + t + back
  }

  /** Trimming gives the one text without white space at its ends that lies between white space in this one. */
  lemma TrimMeaning(s: Text, t: Text)
    ensures Trim(s) == t <==> Trimmed(s, t)
  {
    hide White, AllWhite, EndsWhite, BeginsWhite, TrimStart, TrimEnd;
    var front := TrimStartMeaning(s);
    var back := TrimEndMeaning(TrimStart(s));
    assert s == front + Trim(s) + back;
    StillNotWhite(Trim(s), back);
    assert Trimmed(s, Trim(s));
    if Trimmed(s, t) {
      TrimmedOnce(s, t);
    }
  }

  lemma StillNotWhite(t: Text, back: Text)
    requires !BeginsWhite(t + back)
    ensures !BeginsWhite(t)
  {
    hide White;
    forall n | 0 <= n <= |t| ensures !White(t[..n]) {
      assert (t + back)[..n] == t[..n];
    }
  }

  lemma TrimmedOnce(s: Text, t: Text)
    requires Trimmed(s, t)
    ensures Trim(s) == t
  {
    hide White, AllWhite, BeginsWhite, EndsWhite, TrimStart, TrimEnd;
    var front, back :| AllWhite(front) && AllWhite(back) && s == front + t + back;
    Regroup(front, t, back);
    if t == [] {
      AllWhiteJoin(front, back);
      Regroup(s, [], []);
      assert s == front + back;
      TrimStartOf(s, []);
      NothingIsWhite();
      TrimEndOf([], []);
    } else {
      NoneAcross(t, back);
      TrimStartOf(front, t + back);
      TrimEndOf(t, back);
    }
  }

  lemma TrimStartStep(w: Text, s: Text)
    requires WhiteBytes(w)
    ensures TrimStart(w + s) == TrimStart(s)
  {
    assert forall i :: 0 <= i < |w| ==> (w + s)[i] == w[i];
    assert LeadingSpace(w + s) == |w|;
    assert (w + s)[|w|..] == s;
  }

  lemma {:induction false} TrimStartOf(front: Text, rest: Text)
    requires AllWhite(front) && !BeginsWhite(rest)
    ensures TrimStart(front + rest) == rest
    decreases |front|
  {
    hide White, BeginsWhite;
    var s := front + rest;
    if front == [] {
      assert s == rest;
      LeadingMeaning(rest);
    } else {
      var n :| 0 < n <= |front| && White(front[..n]) && AllWhite(front[n..]);
      WhiteShape(front[..n]);
      assert front == front[..n] + front[n..];
      Regroup(front[..n], front[n..], rest);
      TrimStartStep(front[..n], front[n..] + rest);
      TrimStartOf(front[n..], rest);
    }
  }

  lemma {:induction false} LastWhite(back: Text) returns (n: nat)
    requires AllWhite(back) && back != []
    ensures n < |back| && White(back[n..]) && AllWhite(back[..n])
    decreases |back|
  {
    hide White;
    var k :| 0 < k <= |back| && White(back[..k]) && AllWhite(back[k..]);
    if k == |back| {
      assert back[..k] == back[0..] == back;
      n := 0;
    } else {
      var m := LastWhite(back[k..]);
      n := k + m;
      assert back[n..] == back[k..][m..];
      assert back[..n][..k] == back[..k] && back[..n][k..] == back[k..][..m];
    }
  }

  lemma TrimEndStep(s: Text, w: Text)
    requires WhiteBytes(w)
    ensures TrimEnd(s + w) == TrimEnd(s)
  {
    assert forall i :: 0 <= i < |w| ==> (s + w)[|s| + i] == w[i];
    assert TrailingSpace(s + w) == |w|;
    assert (s + w)[..|s|] == s;
  }

  lemma {:induction false} TrimEndOf(t: Text, back: Text)
    requires AllWhite(back) && !EndsWhite(t)
    ensures TrimEnd(t + back) == t
    decreases |back|
  {
    hide White, EndsWhite;
    var s := t + back;
    if back == [] {
      assert s == t;
      TrailingMeaning(t);
    } else {
      var n := LastWhite(back);
      var w := back[n..];
      assert back == back[..n] + w;
      Regroup(t, back[..n], w);
      WhiteShape(w);
      TrimEndStep(t + back[..n], w);
      TrimEndOf(t, back[..n]);
    }
  }

  /** No white-space character begins in a text and ends in white space behind it. */
  lemma NoneAcross(t: Text, back: Text)
    requires t != [] && !BeginsWhite(t) && AllWhite(back)
    ensures !BeginsWhite(t + back)
  {
    hide White;
    var s := t + back;
    forall n | 0 <= n <= |s| ensures !White(s[..n]) {
      WhiteShape(s[..n]);
      if n <= |t| {
        assert s[..n] == t[..n];
      } else {
        var k :| 0 < k <= |back| && White(back[..k]) && AllWhite(back[k..]);
        WhiteShape(back[..k]);
        assert s[..n][|t|] == back[0] == back[..k][0];
      }
    }
  }

  lemma {:induction false} AllWhiteJoin(a: Text, b: Text)
    requires AllWhite(a) && AllWhite(b)
    ensures AllWhite(a + b)
    decreases |a|
  {
    hide White;
    if a == [] {
      assert a + b == b;
    } else {
      var n :| 0 < n <= |a| && White(a[..n]) && AllWhite(a[n..]);
      AllWhiteJoin(a[n..], b);
      assert (a + b)[..n] == a[..n] && (a + b)[n..] == a[n..] + b;
    }
  }
}
