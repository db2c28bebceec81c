/** The static CNAME table with wildcards, after src/cnames.rs. */
module Cnames {
  import opened Basics
  import opened Texts
  import opened Names
  import opened Tables

  /** `exact` from a name to its target; `wildcard` from `apps.hop.local`, given as `*.apps.hop.local`. */
  datatype Pairs = Pairs(exact: Rows<Text>, wildcard: Rows<Text>)

  const STAR_DOT: Text := [42, DOT]
  const SCRATCH := 256

  function KeyOf(name: Text): Text {
    Lower(StripDot(Trim(name)))
  }

  function FqdnOf(name: Text): Text {
    var t := Trim(name);
    if t != [] && t[|t| - 1] == DOT then t else t + [DOT]
  }

  ghost predicate GoodPairs(t: Pairs) {
    Sorted(t.exact) && Sorted(t.wildcard) && Get(t.wildcard, []) == None
  }

  /** One line of the table: an empty name or target is dropped, `*.parent` is a wildcard, the rest is exact. */
  function AddPair(t: Pairs, k: Text, v: Text): Pairs {
    var key := KeyOf(k);
    if key == [] || Trim(v) == [] then t
    else if STAR_DOT < key then t.(wildcard := Put(t.wildcard, key[2..], FqdnOf(v)))
    else t.(exact := Put(t.exact, key, FqdnOf(v)))
  }

  function AddPairs(t: Pairs, pairs: seq<(Text, Text)>): Pairs {
    if pairs == [] then t
    else
      var last := pairs[|pairs| - 1];
      AddPair(AddPairs(t, pairs[..|pairs| - 1]), last.0, last.1)
  }

  lemma AddPairKeepsGood(t: Pairs, k: Text, v: Text)
    requires GoodPairs(t)
    ensures GoodPairs(AddPair(t, k, v))
  {
    var key := KeyOf(k);
    PutSorted(t.exact, key, FqdnOf(v));
    if STAR_DOT < key {
      PutSorted(t.wildcard, key[2..], FqdnOf(v));
      GetPut(t.wildcard, key[2..], FqdnOf(v), []);
    }
  }

  // ---------- What the lines of a table mean ----------

  /** A line with this first text is about `name`: white space around it, one final dot and letter case do not count. */
  ghost predicate About(k: Text, name: Text) {
    NoCapitals(name) && exists t, n :: Trimmed(k, t) && WithoutDot(t, n) && SameLetters(n, name)
  }

  /** A line with this second text gives `target`: the text without white space around it, with a dot at its end. */
  ghost predicate Gives(v: Text, target: Text) {
    exists t :: Trimmed(v, t) && t != [] && target == if t[|t| - 1] == 46 then t else t + [46]
  }

  /** The text begins with `*.` and has more behind it. */
  predicate Starred(name: Text) {
    |name| > 2 && name[0] == 42 && name[1] == 46
  }

  /** The line puts `target` under the exact name. */
  ghost predicate ExactLine(line: (Text, Text), name: Text, target: Text) {
    name != [] && !Starred(name) && About(line.0, name) && Gives(line.1, target)
  }

  /** The line puts `target` under the wildcard for all names below `parent`. */
  ghost predicate WildcardLine(line: (Text, Text), parent: Text, target: Text) {
    parent != [] && About(line.0, [42, 46] + parent) && Gives(line.1, target)
  }

  /** Line `i` is the last that puts something under the name, and that is `target`. */
  ghost predicate LastExact(lines: seq<(Text, Text)>, i: int, name: Text, target: Text) {
    && 0 <= i < |lines| && ExactLine(lines[i], name, target)
    && forall j, other :: i < j < |lines| ==> !ExactLine(lines[j], name, other)
  }

  ghost predicate LastWildcard(lines: seq<(Text, Text)>, i: int, parent: Text, target: Text) {
    && 0 <= i < |lines| && WildcardLine(lines[i], parent, target)
    && forall j, other :: i < j < |lines| ==> !WildcardLine(lines[j], parent, other)
  }

  lemma AboutMeaning(k: Text, name: Text)
    ensures About(k, name) <==> KeyOf(k) == name
  {
    hide Trimmed, Trim, Lower, SameLetters, NoCapitals;
    TrimMeaning(k, Trim(k));
    LowerMeaning(StripDot(Trim(k)), name);
    DotMeaning(Trim(k), StripDot(Trim(k)));
    if About(k, name) {
      var t, n :| Trimmed(k, t) && WithoutDot(t, n) && SameLetters(n, name);
      TrimMeaning(k, t);
      DotMeaning(t, n);
    }
  }

  lemma GivesMeaning(v: Text, target: Text)
    ensures Gives(v, target) <==> Trim(v) != [] && FqdnOf(v) == target
  {
    hide Trimmed, Trim;
    TrimMeaning(v, Trim(v));
    if t :| Trimmed(v, t) && t != [] && target == if t[|t| - 1] == 46 then t else t + [46] {
      TrimMeaning(v, t);
    }
  }

  /** One more line decides what it is about, and leaves everything else. */
  lemma LineAdded(t: Pairs, line: (Text, Text), name: Text)
    ensures var exact := AddPair(t, line.0, line.1).exact;
            && (forall target :: ExactLine(line, name, target) ==> Get(exact, name) == Some(target))
            && ((forall target :: !ExactLine(line, name, target)) ==> Get(exact, name) == Get(t.exact, name))
    ensures var wildcard := AddPair(t, line.0, line.1).wildcard;
            && (forall target :: WildcardLine(line, name, target) ==> Get(wildcard, name) == Some(target))
            && ((forall target :: !WildcardLine(line, name, target)) ==> Get(wildcard, name) == Get(t.wildcard, name))
  {
    hide About, Gives, KeyOf, FqdnOf, Trim, Get, Put;
    var (k, v) := line;
    var key := KeyOf(k);
    assert STAR_DOT < key <==> Starred(key);
    assert Starred(key) ==> key == [42, 46] + key[2..];
    assert ([42, 46] + name)[2..] == name;
    GetPut(t.exact, key, FqdnOf(v), name);
    if Starred(key) {
      GetPut(t.wildcard, key[2..], FqdnOf(v), name);
    }
    AboutMeaning(k, name);
    AboutMeaning(k, [42, 46] + name);
    forall target ensures Gives(v, target) <==> Trim(v) != [] && FqdnOf(v) == target {
      GivesMeaning(v, target);
    }
    if key != [] && Trim(v) != [] {
      AboutMeaning(k, key);
      assert if Starred(key) then WildcardLine(line, key[2..], FqdnOf(v)) else ExactLine(line, key, FqdnOf(v));
    }
  }

  /**
   What the table holds after any list of lines. Under an exact name stands the target of the last line that is about
   it, is no wildcard and has a target; the same for the parent of a wildcard.
   */
  lemma {:induction false} TableMeaning(lines: seq<(Text, Text)>, name: Text, target: Text)
    ensures var t := AddPairs(Pairs([], []), lines);
            && (Get(t.exact, name) == Some(target) <==> exists i :: LastExact(lines, i, name, target))
            && (Get(t.wildcard, name) == Some(target) <==> exists i :: LastWildcard(lines, i, name, target))
    decreases |lines|
  {
    hide AddPair, AddPairs, Get, ExactLine, WildcardLine, LastExact, LastWildcard;
    if lines == [] {
      NoLines(name, target);
    } else {
      var front, line := lines[..|lines| - 1], lines[|lines| - 1];
      assert lines == front + [line];
      TableMeaning(front, name, target);
      MoreLines(lines);
      LineAdded(AddPairs(Pairs([], []), front), line, name);
      LastExactOfMore(front, line, name, target);
      LastWildcardOfMore(front, line, name, target);
    }
  }

  lemma WholeTableMeaning(lines: seq<(Text, Text)>)
    ensures var t := AddPairs(Pairs([], []), lines);
            && (forall name, target :: Get(t.exact, name) == Some(target)
                                       <==> exists i :: LastExact(lines, i, name, target))
            && (forall name, target :: Get(t.wildcard, name) == Some(target)
                                       <==> exists i :: LastWildcard(lines, i, name, target))
  {
    hide AddPairs, Get, LastExact, LastWildcard;
    var t := AddPairs(Pairs([], []), lines);
    forall name, target
      ensures Get(t.exact, name) == Some(target) <==> exists i :: LastExact(lines, i, name, target)
      ensures Get(t.wildcard, name) == Some(target) <==> exists i :: LastWildcard(lines, i, name, target)
    {
      TableMeaning(lines, name, target);
    }
  }

  lemma NoLines(name: Text, target: Text)
    ensures AddPairs(Pairs([], []), []) == Pairs([], []) && Get<Text>([], name) == None
    ensures forall i :: !LastExact([], i, name, target) && !LastWildcard([], i, name, target)
  {
  }

  lemma MoreLines(lines: seq<(Text, Text)>)
    requires lines != []
    ensures var line := lines[|lines| - 1];
            AddPairs(Pairs([], []), lines) == AddPair(AddPairs(Pairs([], []), lines[..|lines| - 1]), line.0, line.1)
  {
    hide AddPair;
  }

  lemma LastExactOfMore(front: seq<(Text, Text)>, line: (Text, Text), name: Text, target: Text)
    ensures (exists i :: LastExact(front + [line], i, name, target))
            <==> ExactLine(line, name, target) || ((forall other :: !ExactLine(line, name, other))
                                                   && exists i :: LastExact(front, i, name, target))
  {
    hide ExactLine;
    var lines := front + [line];
    assert lines[|front|] == line && forall j :: 0 <= j < |front| ==> lines[j] == front[j];
    if ExactLine(line, name, target) {
      assert LastExact(lines, |front|, name, target);
    }
    if i :| LastExact(lines, i, name, target) {
      assert i < |front| ==> && LastExact(front, i, name, target)
                             && forall other :: !ExactLine(lines[|front|], name, other);
    }
    if i :| LastExact(front, i, name, target) && forall other :: !ExactLine(line, name, other) {
      assert LastExact(lines, i, name, target);
    }
  }

  lemma LastWildcardOfMore(front: seq<(Text, Text)>, line: (Text, Text), name: Text, target: Text)
    ensures (exists i :: LastWildcard(front + [line], i, name, target))
            <==> WildcardLine(line, name, target) || ((forall other :: !WildcardLine(line, name, other))
                                                      && exists i :: LastWildcard(front, i, name, target))
  {
    hide WildcardLine;
    var lines := front + [line];
    assert lines[|front|] == line && forall j :: 0 <= j < |front| ==> lines[j] == front[j];
    if WildcardLine(line, name, target) {
      assert LastWildcard(lines, |front|, name, target);
    }
    if i :| LastWildcard(lines, i, name, target) {
      assert i < |front| ==> && LastWildcard(front, i, name, target)
                             && forall other :: !WildcardLine(lines[|front|], name, other);
    }
    if i :| LastWildcard(front, i, name, target) && forall other :: !WildcardLine(line, name, other) {
      assert LastWildcard(lines, i, name, target);
    }
  }

  // ---------- Looking up a name ----------

  /** The target of the first parent of `name`, going up label by label, that is a wildcard. */
  function Walk(wildcard: Rows<Text>, name: Text): Option<Text>
    decreases |name|
  {
    match SplitOnce(name)
    case None => None
    case Some((_, rest)) =>
      if rest == [] then None
      else if Get(wildcard, rest).Some? then Get(wildcard, rest)
      else Walk(wildcard, rest)
  }

  function Lookup(t: Pairs, name: Text): Option<Text> {
    var lower := Lower(StripDot(name));
    if |lower| > SCRATCH then None
    else if Get(t.exact, lower).Some? then Get(t.exact, lower)
    else Walk(t.wildcard, lower)
  }

  /** `p` is a wildcard that covers `name`: `name` lies properly below it. */
  ghost predicate Covers(wildcard: Rows<Text>, name: Text, p: Text) {
    Get(wildcard, p).Some? && InZone(name, p) && name != p
  }

  ghost predicate LongestCover(wildcard: Rows<Text>, name: Text, p: Text) {
    Covers(wildcard, name, p) && forall q :: Covers(wildcard, name, q) ==> |q| <= |p|
  }

  /** Lying properly below `p` is lying in `p` with the first label taken off. */
  lemma ProperlyBelow(name: Text, p: Text)
    ensures InZone(name, p) && name != p
            <==> SplitOnce(name).Some? && InZone(SplitOnce(name).value.1, p)
  {
    var cut := SplitOnce(name);
    if cut.Some? {
      var (first, rest) := cut.value;
      InZoneBelow(first, rest);
      if InZone(rest, p) {
        InZoneTransitive(name, rest, p);
      }
      if InZone(name, p) && name != p {
        assert forall i :: 0 <= i < |first| ==> name[i] == first[i] != DOT;
        ZonesNest(name, p, rest);
      }
    } else {
      assert forall i :: 0 <= i < |name| ==> name[i] in name;
    }
  }

  lemma {:induction false} WalkMeaning(wildcard: Rows<Text>, name: Text)
    requires Get(wildcard, []) == None
    ensures Walk(wildcard, name) == None <==> forall p :: !Covers(wildcard, name, p)
    ensures Walk(wildcard, name).Some?
            ==> exists p :: LongestCover(wildcard, name, p) && Walk(wildcard, name) == Get(wildcard, p)
    decreases |name|
  {
    forall p ensures Covers(wildcard, name, p)
                     <==> Get(wildcard, p).Some? && SplitOnce(name).Some? && InZone(SplitOnce(name).value.1, p) {
      ProperlyBelow(name, p);
    }
    if SplitOnce(name).Some? {
      var rest := SplitOnce(name).value.1;
      if rest == [] {
        assert forall p :: InZone(rest, p) ==> p == [];
      } else if Get(wildcard, rest).Some? {
        assert LongestCover(wildcard, name, rest);
      } else {
        WalkMeaning(wildcard, rest);
        assert forall p :: Covers(wildcard, name, p) <==> Covers(wildcard, rest, p);
        if Walk(wildcard, rest).Some? {
          var p :| LongestCover(wildcard, rest, p) && Walk(wildcard, rest) == Get(wildcard, p);
          assert LongestCover(wildcard, name, p);
        }
      }
    }
  }

  /** Of two wildcards of the same length only one can cover a name. */
  lemma CoversOnce(wildcard: Rows<Text>, name: Text, p: Text, q: Text)
    requires Covers(wildcard, name, p) && Covers(wildcard, name, q) && |p| == |q|
    ensures p == q
  {
  }

  /**
   The lookup of any name: nothing when it has more than 256 bytes; else the exact entry if there is one; otherwise the
   target of the longest wildcard that the name lies properly below; otherwise nothing.
   */
  lemma LookupMeaning(t: Pairs, name: Text)
    requires GoodPairs(t)
    ensures var lower := Lower(StripDot(name));
            if |StripDot(name)| > 256 then Lookup(t, name) == None
            else if Get(t.exact, lower).Some? then Lookup(t, name) == Get(t.exact, lower)
            else
              && (Lookup(t, name) == None <==> forall p :: !Covers(t.wildcard, lower, p))
              && (forall p :: LongestCover(t.wildcard, lower, p) ==> Lookup(t, name) == Get(t.wildcard, p))
              && (Lookup(t, name).Some? ==> exists p :: LongestCover(t.wildcard, lower, p))
  {
    var lower := Lower(StripDot(name));
    if |lower| <= 256 && Get(t.exact, lower).None? {
      WalkMeaning(t.wildcard, lower);
      forall p | LongestCover(t.wildcard, lower, p) ensures Lookup(t, name) == Get(t.wildcard, p) {
        var q :| LongestCover(t.wildcard, lower, q) && Walk(t.wildcard, lower) == Get(t.wildcard, q);
        CoversOnce(t.wildcard, lower, p, q);
      }
    }
  }

  /** Neither letter case nor one final dot makes a difference. */
  lemma LookupIgnoresCaseAndDot(t: Pairs, name: Text)
    ensures Lookup(t, Lower(name)) == Lookup(t, name)
    ensures StripDot(name) == name ==> Lookup(t, name + [DOT]) == Lookup(t, name)
  {
    hide Lower, Walk, Get;
    LowerTwice(StripDot(name));
    StripDotLower(name);
    StripDotAdded(name);
  }

  lemma StripDotAdded(name: Text)
    ensures StripDot(name + [DOT]) == name
  {
  }

  lemma StripDotLower(name: Text)
    ensures StripDot(Lower(name)) == Lower(StripDot(name))
  {
    if name != [] && name[|name| - 1] == DOT {
      assert Lower(name)[..|name| - 1] == Lower(name[..|name| - 1]);
    }
  }

  // ---------- Zones ----------

  /** The zone of every exact name (all but its first label) and of every wildcard (its parent), with repetitions. */
  function ExactZones(rows: Rows<Text>): seq<Text> {
    if rows == [] then []
    else
      (match SplitOnce(rows[0].key)
       case None => []
       case Some((_, z)) => if z == [] then [] else [z]) + ExactZones(rows[1..])
  }

  function Parents(rows: Rows<Text>): seq<Text> {
    if rows == [] then [] else [rows[0].key] + Parents(rows[1..])
  }

  function ZoneList(t: Pairs): seq<Text> {
    ExactZones(t.exact) + Parents(t.wildcard)
  }

  function Zones(t: Pairs): seq<Text> {
    Uniq([], ZoneList(t))
  }

  /** The better of two candidates for the zone of `name`: the longer one, the later one of two as long. */
  function Better(name: Text, best: Option<Text>, z: Text): Option<Text> {
    if z != [] && InZone(name, z) && (best.None? || |best.value| <= |z|) then Some(z) else best
  }

  function Longest(name: Text, best: Option<Text>, zs: seq<Text>): Option<Text>
    decreases |zs|
  {
    if zs == [] then best else Longest(name, Better(name, best, zs[0]), zs[1..])
  }

  function ZoneOf(t: Pairs, name: Text): Option<Text> {
    Longest(name, None, ZoneList(t))
  }

  lemma {:induction false} LongestMeaning(name: Text, best: Option<Text>, zs: seq<Text>)
    requires best.Some? ==> InZone(name, best.value)
    ensures var r := Longest(name, best, zs);
            && (r.Some? ==> InZone(name, r.value) && (r == best || (r.value in zs && r.value != [])))
            && (best.Some? ==> r.Some? && |best.value| <= |r.value|)
            && forall z :: z in zs && z != [] && InZone(name, z) ==> r.Some? && |z| <= |r.value|
    decreases |zs|
  {
    if zs != [] {
      LongestMeaning(name, Better(name, best, zs[0]), zs[1..]);
      assert forall z :: z in zs <==> z == zs[0] || z in zs[1..];
    }
  }

  lemma {:induction false} ExactZonesMeaning(rows: Rows<Text>, z: Text)
    ensures z in ExactZones(rows)
            <==> z != [] && exists i :: && 0 <= i < |rows| && SplitOnce(rows[i].key).Some?
                                        && SplitOnce(rows[i].key).value.1 == z
    decreases |rows|
  {
    if rows != [] {
      ExactZonesMeaning(rows[1..], z);
      assert forall i :: 1 <= i < |rows| ==> rows[i] == rows[1..][i - 1];
    }
  }

  lemma {:induction false} ParentsMeaning(rows: Rows<Text>, z: Text)
    ensures z in Parents(rows) <==> Get(rows, z).Some?
    decreases |rows|
  {
    if rows != [] {
      ParentsMeaning(rows[1..], z);
    }
  }

  /** The zones, each once: what lies behind the first label of an exact name, and the parent of a wildcard. */
  lemma ZonesMeaning(t: Pairs, z: Text)
    requires GoodPairs(t)
    ensures NoDup(Zones(t)) && (z in Zones(t) <==> z in ZoneList(t))
    ensures z in Zones(t)
            <==> z != [] && (Get(t.wildcard, z).Some? || exists l :: DOT !in l && Get(t.exact, l + [DOT] + z).Some?)
  {
    hide Uniq, ExactZones, Parents, Get, SplitOnce;
    UniqMeaning([], ZoneList(t));
    ExactZonesMeaning(t.exact, z);
    ParentsMeaning(t.wildcard, z);
    if l :| DOT !in l && Get(t.exact, l + [DOT] + z).Some? {
      GetFinds(t.exact, l + [DOT] + z);
      SplitOnceAt(l, z);
    }
    if i :| 0 <= i < |t.exact| && SplitOnce(t.exact[i].key).Some? && SplitOnce(t.exact[i].key).value.1 == z {
      GetOfRow(t.exact, i);
      assert t.exact[i].key == SplitOnce(t.exact[i].key).value.0 + [DOT] + z;
    }
  }

  /** The zones with `z` behind the others, unless it is there. */
  function WithZone(zones: seq<Text>, z: Text): seq<Text> {
    if z in zones then zones else zones + [z]
  }

  /** The order of the zones: those of the exact names in the order of these, then the parents of the wildcards. */
  lemma ZonesOrder(exact: Rows<Text>, wildcard: Rows<Text>, row: Row<Text>)
    ensures Zones(Pairs([], [])) == []
    ensures var (before, after) := (Zones(Pairs(exact, [])), Zones(Pairs(exact + [row], [])));
            && (forall l: Text, z: Text :: 46 !in l && z != [] && row.key == l + [46] + z
                                           ==> after == WithZone(before, z))
            && ((forall l: Text, z: Text :: 46 !in l && z != [] ==> row.key != l + [46] + z) ==> after == before)
    ensures Zones(Pairs(exact, wildcard + [row])) == WithZone(Zones(Pairs(exact, wildcard)), row.key)
  {
    hide SplitOnce, Uniq, ExactZones, Parents, WithZone;
    NoZones();
    ParentsGrow(wildcard, row);
    Regroup(ExactZones(exact), Parents(wildcard), [row.key]);
    OneZoneMore(ExactZones(exact) + Parents(wildcard), row.key);
    ExactZonesGrow(exact, row);
    Regroup(ExactZones(exact), [], []);
    Regroup(ExactZones(exact + [row]), [], []);
    forall l: Text, z: Text | 46 !in l && z != [] && row.key == l + [46] + z
      ensures Zones(Pairs(exact + [row], [])) == WithZone(Zones(Pairs(exact, [])), z)
    {
      SplitOnceAt(l, z);
      OneZoneMore(ExactZones(exact), z);
    }
    if SplitOnce(row.key).Some? {
      var (l, z) := SplitOnce(row.key).value;
      assert 46 !in l && row.key == l + [46] + z;
    }
  }

  lemma NoZones()
    ensures Uniq([], ExactZones([]) + Parents([])) == [] && Parents([]) == []
  {
  }

  lemma OneZoneMore(list: seq<Text>, z: Text)
    ensures Uniq([], list + [z]) == WithZone(Uniq([], list), z)
  {
    UniqBehind(list, z);
    UniqMeaning([], list);
    hide Uniq;
    Regroup(Uniq([], list), [], []);
  }

  lemma {:induction false} ExactZonesGrow(rows: Rows<Text>, row: Row<Text>)
    ensures ExactZones(rows + [row])
            == ExactZones(rows) + match SplitOnce(row.key)
                                  case None => []
                                  case Some((_, z)) => if z == [] then [] else [z]
    decreases |rows|
  {
    hide SplitOnce;
    if rows == [] {
      assert [] + [row] == [row] && [row][1..] == [];
    } else {
      assert (rows + [row])[1..] == rows[1..] + [row];
      ExactZonesGrow(rows[1..], row);
    }
  }

  lemma {:induction false} ParentsGrow(rows: Rows<Text>, row: Row<Text>)
    ensures Parents(rows + [row]) == Parents(rows) + [row.key]
    decreases |rows|
  {
    if rows == [] {
      assert [] + [row] == [row] && [row][1..] == [];
    } else {
      assert (rows + [row])[1..] == rows[1..] + [row];
      ParentsGrow(rows[1..], row);
    }
  }

  /** The zone of a name is the one zone holding it that is longer than every other zone holding it. */
  lemma ZoneOfMeaning(t: Pairs, name: Text, z: Text)
    requires GoodPairs(t)
    ensures ZoneOf(t, name) == Some(z)
            <==> && z in Zones(t) && InZone(name, z)
                 && forall y :: y in Zones(t) && InZone(name, y) && y != z ==> |y| < |z|
    ensures ZoneOf(t, name) == None <==> forall y :: y in Zones(t) ==> !InZone(name, y)
  {
    forall y ensures (y in Zones(t) <==> y in ZoneList(t)) && (y in Zones(t) ==> y != []) {
      ZonesMeaning(t, y);
    }
    LongestMeaning(name, None, ZoneList(t));
    forall y, x | InZone(name, y) && InZone(name, x) && |y| == |x| ensures y == x {
    }
  }

  /** Every hit lies in a zone of the table, except an exact name of a single label. */
  lemma HitsLieInZones(t: Pairs, name: Text)
    requires GoodPairs(t) && Lookup(t, name).Some?
    ensures var lower := Lower(StripDot(name));
            ZoneOf(t, lower).Some?
            || (Get(t.exact, lower).Some? && (DOT !in lower || SplitOnce(lower).value.1 == []))
  {
    var lower := Lower(StripDot(name));
    if Get(t.exact, lower).Some? {
      if SplitOnce(lower).Some? && SplitOnce(lower).value.1 != [] {
        var (first, z) := SplitOnce(lower).value;
        GetFinds(t.exact, lower);
        ExactZonesMeaning(t.exact, z);
        ZonesMeaning(t, z);
        InZoneBelow(first, z);
        ZoneOfMeaning(t, lower, z);
      }
    } else {
      WalkMeaning(t.wildcard, lower);
      var p :| LongestCover(t.wildcard, lower, p);
      ParentsMeaning(t.wildcard, p);
      ZonesMeaning(t, p);
      ZoneOfMeaning(t, lower, p);
    }
  }

  // ---------- The table of the program ----------

  /** Writes `s` in lower case into the scratch buffer; refused when it does not fit. */
  method LowerInto(s: Text, buf: array<byte>) returns (ok: bool)
    modifies buf
    ensures ok <==> |s| <= buf.Length
    ensures ok ==> buf[..|s|] == Lower(s)
  {
    if |s| > buf.Length {
      return false;
    }
    for i := 0 to |s|
      invariant forall k :: 0 <= k < i ==> buf[k] == LowerByte(s[k])
    {
      buf[i] := LowerByte(s[i]);
    }
    return true;
  }

  class CNAMEs {
    const exact: Table<Text>
    const wildcard: Table<Text>

    ghost predicate Valid()
      reads this, exact, wildcard
    {
      GoodPairs(Contents())
    }

    function Contents(): Pairs
      reads this, exact, wildcard
    {
      Pairs(exact.rows, wildcard.rows)
    }

    /** The table of these lines: every name and every wildcard has the target of the last line about it. */
    constructor (pairs: seq<(Text, Text)>)
      ensures Valid() && fresh(exact) && fresh(wildcard)
      ensures Contents() == AddPairs(Pairs([], []), pairs)
      ensures forall name, target :: Get(Contents().exact, name) == Some(target)
                                     <==> exists i :: LastExact(pairs, i, name, target)
      ensures forall name, target :: Get(Contents().wildcard, name) == Some(target)
                                     <==> exists i :: LastWildcard(pairs, i, name, target)
    {
      exact := new Table<Text>();
      wildcard := new Table<Text>();
      new;
      assert Valid() && Contents() == Pairs([], []);
      hide Put, Get, Sorted, KeyOf, FqdnOf, Trim, LastExact, LastWildcard;
      for i := 0 to |pairs|
        invariant fresh(exact) && fresh(wildcard) && exact != wildcard
        invariant Valid() && Contents() == AddPairs(Pairs([], []), pairs[..i])
      {
        var (k, v) := pairs[i];
        AddPairKeepsGood(Contents(), k, v);
        assert pairs[..i + 1][..i] == pairs[..i];
        var key := KeyOf(k);
        if key != [] && Trim(v) != [] {
          if STAR_DOT < key {
            var _ := wildcard.Insert(key[2..], FqdnOf(v));
          } else {
            var _ := exact.Insert(key, FqdnOf(v));
          }
        }
      }
      assert pairs[..|pairs|] == pairs;
      WholeTableMeaning(pairs);
    }

    method Find(name: Text) returns (r: Option<Text>)
      requires Valid()
      ensures r == Lookup(Contents(), name)
    {
      var s := StripDot(name);
      var buf := new byte[SCRATCH](i => 0);
      var ok := LowerInto(s, buf);
      if !ok {
        return None;
      }
      var lower := buf[..|s|];
      r := exact.Lookup(lower);
      if r.Some? {
        return;
      }
      var parent := lower;
      while true
        invariant Walk(wildcard.rows, parent) == Walk(wildcard.rows, lower)
        decreases |parent|
      {
        var cut := SplitOnce(parent);
        if cut.None? || cut.value.1 == [] {
          return None;
        }
        r := wildcard.Lookup(cut.value.1);
        if r.Some? {
          return;
        }
        parent := cut.value.1;
      }
    }

    method ListZones() returns (out: seq<Text>)
      requires Valid()
      ensures out == Zones(Contents())
    {
      hide ZoneList, GoodPairs;
      out := [];
      var zs := ZoneList(Contents());
      for i := 0 to |zs|
        invariant Uniq(out, zs[i..]) == Zones(Contents())
      {
        if zs[i] !in out {
          out := out + [zs[i]];
        }
      }
    }

    method FindZone(name: Text) returns (best: Option<Text>)
      ensures best == ZoneOf(Contents(), name)
    {
      best := None;
      var zs := ZoneList(Contents());
      for i := 0 to |zs|
        invariant Longest(name, best, zs[i..]) == ZoneOf(Contents(), name)
      {
        best := Better(name, best, zs[i]);
      }
    }
  }
}
