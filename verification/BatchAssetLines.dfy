/**
 The asset lines of the bytes hashed for an idempotency key: exactly which assets are told by
 their line alone, and how far a job's own fields can guard against being confused.
 */
module BatchAssetLines {
  import opened GoStrings
  import opened BatchIdentity
  import opened BatchExpand

  // ----- Blank text -----

  predicate AllSpace(s: string) { forall i | 0 <= i < |s| :: IsSpace(s[i]) }

  lemma AllSpaceTail(s: string)
    requires s != "" && IsSpace(s[0])
    ensures AllSpace(s) <==> AllSpace(s[1..])
  {
    hide IsSpace;
    assert forall i | 0 < i < |s| :: s[1..][i - 1] == s[i];
  }

  lemma {:induction false} TrimLeftBlank(s: string)
    ensures TrimLeft(s) == "" <==> AllSpace(s)
  {
    if s != "" && IsSpace(s[0]) {
      AllSpaceTail(s);
      TrimLeftBlank(s[1..]);
      hide IsSpace, AllSpace;
    }
  }

  lemma BlankIff(s: string)
    ensures Blank(s) <==> AllSpace(s)
  {
    hide IsSpace;
    TrimLeftBlank(s);
    var r := TrimLeft(s);
    if r != "" { assert TrimRight(r) != ""; }
  }

  /** Text with a colon in it is not blank. */
  lemma ColonIsNotBlank(s: string, i: nat)
    requires i < |s| && s[i] == ':'
    ensures !Blank(s)
  {
    BlankIff(s);
  }

  // ----- One asset, one line -----

  /** The line without its frame. */
  function Text(a: Asset): string { a.hash + [':'] + (a.logicalPath + [':'] + a.sourceUrl) }

  lemma LineOfText(a: Asset)
    ensures Line(a) == "asset:" + (Text(a) + ['\n'])
  {
  }

  lemma SameLineSameText(a: Asset, b: Asset)
    ensures Line(a) == Line(b) <==> Text(a) == Text(b)
  {
    LineOfText(a);
    LineOfText(b);
    hide Line, Text;
    if Line(a) == Line(b) {
      SamePrefix("asset:", Text(a) + ['\n'], Text(b) + ['\n']);
      assert Text(a) == (Text(a) + ['\n'])[..|Text(a)|] && Text(b) == (Text(b) + ['\n'])[..|Text(b)|];
    }
  }

  /** No colon of the fields could be taken for a separator: the URL has none, text before one
      in the hash is blank, and so is text on both sides of one in the path. */
  predicate ReadsOneWay(a: Asset) {
    && Free(a.sourceUrl, ':')
    && (forall i | 0 <= i < |a.hash| && a.hash[i] == ':' :: Blank(a.hash[..i]))
    && (forall i | 0 <= i < |a.logicalPath| && a.logicalPath[i] == ':' ::
          Blank(a.logicalPath[..i]) && Blank(a.logicalPath[i + 1..]))
  }

  /** Where the two separators are, and what is around them. */
  lemma TextParts(a: Asset)
    ensures var t, c := Text(a), |a.hash|;
            var d := c + 1 + |a.logicalPath|;
            && d < |t| && t[c] == ':' && t[d] == ':'
            && t[..c] == a.hash && t[c + 1..d] == a.logicalPath && t[d + 1..] == a.sourceUrl
  {
    var t, c := Text(a), |a.hash|;
    var tail := a.logicalPath + [':'] + a.sourceUrl;
    assert t[..c] == a.hash && t[c + 1..] == tail;
    assert tail[..|a.logicalPath|] == a.logicalPath && tail[|a.logicalPath| + 1..] == a.sourceUrl;
    var d := c + 1 + |a.logicalPath|;
    assert t[c + 1..d] == tail[..|a.logicalPath|] && t[d + 1..] == tail[|a.logicalPath| + 1..];
    assert t[d] == tail[|a.logicalPath|];
  }

  lemma BlankAround(a: Asset, i: nat)
    requires ReadsOneWay(a) && i < |a.logicalPath| && a.logicalPath[i] == ':'
    ensures Blank(a.logicalPath[..i]) && Blank(a.logicalPath[i + 1..])
  {
    hide Blank, Free;
  }

  lemma UrlIsFree(a: Asset)
    requires ReadsOneWay(a)
    ensures Free(a.sourceUrl, ':')
  {
  }

  function PathStart(a: Asset): nat { |a.hash| + 1 }

  function PathEnd(a: Asset): nat { |a.hash| + 1 + |a.logicalPath| }

  lemma HashColon(a: Asset, i: nat)
    requires i < |a.hash|
    ensures i < |Text(a)| && a.hash[i] == Text(a)[i] && a.hash[..i] == Text(a)[..i]
  {
  }

  lemma PathColon(a: Asset, i: nat)
    requires PathStart(a) <= i < PathEnd(a)
    ensures PathEnd(a) < |Text(a)|
    ensures var q := i - PathStart(a);
            && a.logicalPath[q] == Text(a)[i]
            && a.logicalPath[..q] == Text(a)[PathStart(a)..i]
            && a.logicalPath[q + 1..] == Text(a)[i + 1..PathEnd(a)]
  {
    TextParts(a);
    hide Text;
    var p := Text(a)[PathStart(a)..PathEnd(a)];
    var q := i - PathStart(a);
    assert p[q] == Text(a)[i] && p[..q] == Text(a)[PathStart(a)..i] && p[q + 1..] == Text(a)[i + 1..PathEnd(a)];
  }

  lemma UrlColon(a: Asset, i: nat)
    requires PathEnd(a) < i < |Text(a)| && Text(a)[i] == ':'
    ensures !Free(a.sourceUrl, ':')
  {
    TextParts(a);
    hide Text;
    assert a.sourceUrl[i - PathEnd(a) - 1] == Text(a)[i];
  }

  /** An asset that reads one way shares its first separator with any asset of the same text. */
  lemma FirstSeparatorAgrees(a: Asset, b: Asset)
    requires Named(b) && ReadsOneWay(a) && Text(a) == Text(b)
    ensures |a.hash| == |b.hash|
  {
    TextParts(a);
    TextParts(b);
    hide Text, Blank, Free;
    var c, e := |a.hash|, |b.hash|;
    var d, g := PathEnd(a), PathEnd(b);
    if e < c {
      HashColon(a, e);
    } else if d < g {
      UrlColon(a, g);
    } else if c < e {
      PathColon(a, e);
      if g < d { ColonIsNotBlank(Text(a)[e + 1..d], g - e - 1); }
    }
  }

  lemma EarlierEnd(a: Asset, b: Asset)
    requires ReadsOneWay(a) && Text(a) == Text(b) && |a.hash| == |b.hash| && |b.logicalPath| < |a.logicalPath|
    ensures Blank(b.logicalPath)
  {
    hide Text, Blank, ReadsOneWay;
    TextParts(b);
    var t, g, q := Text(a), PathEnd(b), |b.logicalPath|;
    PathColon(a, g);
    assert a.logicalPath[q] == t[g] == ':';
    BlankAround(a, q);
    assert a.logicalPath[..q] == t[PathStart(a)..g] == b.logicalPath;
  }

  lemma SecondSeparatorAgrees(a: Asset, b: Asset)
    requires Named(b) && ReadsOneWay(a) && Text(a) == Text(b) && |a.hash| == |b.hash|
    ensures |a.logicalPath| == |b.logicalPath|
  {
    TextParts(b);
    UrlIsFree(a);
    hide Text, Blank, Free, ReadsOneWay;
    if |b.logicalPath| < |a.logicalPath| {
      EarlierEnd(a, b);
    } else if |a.logicalPath| < |b.logicalPath| {
      UrlColon(a, PathEnd(b));
    }
  }

  lemma TextIsUnique(a: Asset, b: Asset)
    requires Named(b) && ReadsOneWay(a) && Text(a) == Text(b)
    ensures a == b
  {
    hide Text, Named, ReadsOneWay;
    FirstSeparatorAgrees(a, b);
    SecondSeparatorAgrees(a, b);
    TextParts(a);
    TextParts(b);
  }

  /** Another accepted asset with the same line. */
  predicate Doubles(a: Asset, b: Asset) { Named(b) && Line(b) == Line(a) && b != a }

  function Colon(x: string, y: string): string { x + [':'] + y }

  /** Text with three colons can be read as an asset in three ways. */
  lemma ThreeReadings(w: string, x: string, y: string, z: string)
    ensures Text(Asset(w, x, Colon(y, z))) == Text(Asset(w, Colon(x, y), z)) == Text(Asset(Colon(w, x), y, z))
  {
  }

  lemma CutAt(s: string, i: nat)
    requires i < |s| && s[i] == ':'
    ensures s == Colon(s[..i], s[i + 1..])
  {
  }

  lemma Doubled(a: Asset, b: Asset)
    requires Text(a) == Text(b) && Named(b) && |a.hash| + |a.logicalPath| + |a.sourceUrl| == |b.hash| + |b.logicalPath| + |b.sourceUrl|
    requires |a.hash| != |b.hash| || |a.logicalPath| != |b.logicalPath|
    ensures Doubles(a, b)
  {
    hide Text, Line, Blank;
    SameLineSameText(a, b);
  }

  lemma ColonNamed(x: string, y: string)
    ensures !Blank(Colon(x, y))
  {
    ColonIsNotBlank(Colon(x, y), |x|);
  }

  lemma SplitUrl(a: Asset, i: nat)
    requires Named(a) && i < |a.sourceUrl| && a.sourceUrl[i] == ':'
    ensures exists b :: Doubles(a, b)
  {
    hide Text, Blank, Doubles;
    var y, z := a.sourceUrl[..i], a.sourceUrl[i + 1..];
    CutAt(a.sourceUrl, i);
    ThreeReadings(a.hash, a.logicalPath, y, z);
    ColonNamed(a.logicalPath, y);
    Doubled(a, Asset(a.hash, Colon(a.logicalPath, y), z));
  }

  lemma SplitHash(a: Asset, i: nat)
    requires Named(a) && i < |a.hash| && a.hash[i] == ':' && !Blank(a.hash[..i])
    ensures exists b :: Doubles(a, b)
  {
    hide Text, Blank, Doubles;
    var w, x := a.hash[..i], a.hash[i + 1..];
    CutAt(a.hash, i);
    ThreeReadings(w, x, a.logicalPath, a.sourceUrl);
    ColonNamed(x, a.logicalPath);
    Doubled(a, Asset(w, Colon(x, a.logicalPath), a.sourceUrl));
  }

  lemma SplitPathFront(a: Asset, i: nat)
    requires Named(a) && i < |a.logicalPath| && a.logicalPath[i] == ':' && !Blank(a.logicalPath[..i])
    ensures exists b :: Doubles(a, b)
  {
    hide Text, Blank, Doubles;
    var x, y := a.logicalPath[..i], a.logicalPath[i + 1..];
    CutAt(a.logicalPath, i);
    ThreeReadings(a.hash, x, y, a.sourceUrl);
    Doubled(a, Asset(a.hash, x, Colon(y, a.sourceUrl)));
  }

  lemma SplitPathBack(a: Asset, i: nat)
    requires Named(a) && i < |a.logicalPath| && a.logicalPath[i] == ':' && !Blank(a.logicalPath[i + 1..])
    ensures exists b :: Doubles(a, b)
  {
    hide Text, Blank, Doubles;
    var x, y := a.logicalPath[..i], a.logicalPath[i + 1..];
    CutAt(a.logicalPath, i);
    ThreeReadings(a.hash, x, y, a.sourceUrl);
    ColonNamed(a.hash, x);
    Doubled(a, Asset(Colon(a.hash, x), y, a.sourceUrl));
  }

  /** An accepted asset is told from every other accepted asset by its line exactly when it reads
      one way. */
  lemma LineIdentifiesIff(a: Asset)
    requires Named(a)
    ensures (forall b | Named(b) && Line(b) == Line(a) :: b == a) <==> ReadsOneWay(a)
  {
    hide Blank, Line;
    if ReadsOneWay(a) {
      forall b | Named(b) && Line(b) == Line(a) ensures b == a {
        SameLineSameText(a, b);
        TextIsUnique(a, b);
      }
    } else {
      assert exists b :: Doubles(a, b) by { NotOneWay(a); }
    }
  }

  lemma NotOneWay(a: Asset)
    requires Named(a) && !ReadsOneWay(a)
    ensures exists b :: Doubles(a, b)
  {
    hide Blank, Named, Doubles;
    if !Free(a.sourceUrl, ':') {
      var i :| 0 <= i < |a.sourceUrl| && a.sourceUrl[i] == ':';
      SplitUrl(a, i);
    } else if i :| 0 <= i < |a.hash| && a.hash[i] == ':' && !Blank(a.hash[..i]) {
      SplitHash(a, i);
    } else {
      var i :| 0 <= i < |a.logicalPath| && a.logicalPath[i] == ':' &&
        !(Blank(a.logicalPath[..i]) && Blank(a.logicalPath[i + 1..]));
      if Blank(a.logicalPath[..i]) { SplitPathBack(a, i); } else { SplitPathFront(a, i); }
    }
  }

  lemma UrlColonCollides(w: string, x: string, y: string, z: string)
    requires !Blank(w) && !Blank(x)
    ensures var a, b := Asset(w, x, Colon(y, z)), Asset(w, Colon(x, y), z); Named(a) && Named(b) && Line(a) == Line(b)
  {
    ThreeReadings(w, x, y, z);
    SameLineSameText(Asset(w, x, Colon(y, z)), Asset(w, Colon(x, y), z));
    ColonNamed(x, y);
    hide Line, Text, Blank, Colon;
  }

  /** A colon in a URL, as after https, is enough: two assets that validation accepts, one
      line. */
  lemma ColonsCollide()
    ensures var a, b := Asset("h", "p", "u:v"), Asset("h", "p:u", "v");
            Named(a) && Named(b) && CleanAsset(a) && Line(a) == Line(b)
  {
    hide Line, Named, Blank;
    assert !Blank("h") && !Blank("p") by {
      BlankIff("h");
      BlankIff("p");
      assert !IsSpace("h"[0]) && !IsSpace("p"[0]);
    }
    UrlColonCollides("h", "p", "u", "v");
    assert Colon("u", "v") == "u:v" && Colon("p", "u") == "p:u";
  }

  // ----- Whole jobs -----

  /** No field has a line break. */
  predicate Unbroken(a: Asset) {
    Free(a.hash, '\n') && Free(a.logicalPath, '\n') && Free(a.sourceUrl, '\n')
  }

  predicate AllUnbroken(s: seq<Asset>) { forall i | 0 <= i < |s| :: Unbroken(s[i]) }

  predicate AllReadOneWay(s: seq<Asset>) { forall i | 0 <= i < |s| :: ReadsOneWay(s[i]) }

  predicate AllNamed(s: seq<Asset>) { forall i | 0 <= i < |s| :: Named(s[i]) }

  lemma FreeAppend(a: string, b: string, c: char)
    ensures Free(a + b, c) <==> Free(a, c) && Free(b, c)
  {
    assert forall i | 0 <= i < |a| :: (a + b)[i] == a[i];
    assert forall i | 0 <= i < |b| :: (a + b)[|a| + i] == b[i];
  }

  lemma UnbrokenText(a: Asset)
    requires Unbroken(a)
    ensures Free(Text(a), '\n')
  {
    hide Free;
    assert Free([':'], '\n') by { ColonIsNoBreak(); }
    FreeAppend(a.logicalPath, [':'], '\n');
    FreeAppend(a.logicalPath + [':'], a.sourceUrl, '\n');
    FreeAppend(a.hash, [':'], '\n');
    FreeAppend(a.hash + [':'], a.logicalPath + [':'] + a.sourceUrl, '\n');
  }

  lemma ColonIsNoBreak()
    ensures Free([':'], '\n')
  {
  }

  /** Unbroken assets at the front of the same lines have the same text. */
  lemma FrontLines(a: Asset, x: string, b: Asset, y: string)
    requires Unbroken(a) && Unbroken(b) && Line(a) + x == Line(b) + y
    ensures Text(a) == Text(b) && x == y
  {
    UnbrokenText(a);
    UnbrokenText(b);
    LineOfText(a);
    LineOfText(b);
    hide Line, Text, Free, Unbroken;
    assert Line(a) + x == "asset:" + (Text(a) + ['\n'] + x) && Line(b) + y == "asset:" + (Text(b) + ['\n'] + y);
    SamePrefix("asset:", Text(a) + ['\n'] + x, Text(b) + ['\n'] + y);
    FirstSeparator(Text(a), x, Text(b), y, '\n');
  }

  lemma {:induction false} LinesIdentify(s: seq<Asset>, t: seq<Asset>)
    requires AllUnbroken(s) && AllUnbroken(t) && AllReadOneWay(s) && AllNamed(t) && Lines(s) == Lines(t)
    ensures s == t
    decreases |s|
  {
    hide Line, Lines, Unbroken, ReadsOneWay, Named, Text;
    LinesStart(s);
    LinesStart(t);
    if s != [] {
      LinesFromFront(s);
      LinesFromFront(t);
      FrontLines(s[0], Lines(s[1..]), t[0], Lines(t[1..]));
      TextIsUnique(s[0], t[0]);
      LinesIdentify(s[1..], t[1..]);
      assert s == [s[0]] + s[1..] && t == [t[0]] + t[1..];
    }
  }

  lemma PopulationKeeps(s: seq<Asset>, t: seq<Asset>)
    requires multiset(s) == multiset(t)
    ensures AllUnbroken(s) ==> AllUnbroken(t)
    ensures AllReadOneWay(s) ==> AllReadOneWay(t)
    ensures AllNamed(s) ==> AllNamed(t)
  {
    hide Unbroken, ReadsOneWay, Named;
    SamePopulation(s, t);
    assert forall i | 0 <= i < |t| :: t[i] in s;
  }

  lemma ValidIsPlain(a: seq<Asset>)
    requires ValidAssets(a)
    ensures AllNamed(a) && Unambiguous(a)
  {
    hide Named;
    DistinctIsUnambiguous(a);
  }

  /** Among jobs without line breaks, one whose own assets read one way shares its bytes with no
      job but itself. */
  lemma JobIsIdentified(
      isPlan: string -> bool,
      b: string, l: string, p: string, a: seq<Asset>, c: string,
      b': string, l': string, p': string, a': seq<Asset>, c': string)
    requires SelfDelimiting(isPlan) && isPlan(p) && isPlan(p') && ValidAssets(a) && ValidAssets(a')
    requires Free(b, '\n') && Free(l, '\n') && AllUnbroken(a)
    requires Free(b', '\n') && Free(l', '\n') && AllUnbroken(a')
    requires AllReadOneWay(a)
    requires IsContent(b, l, p, a, c) && IsContent(b', l', p', a', c')
    ensures c == c' <==> b == b' && l == l' && p == p' && multiset(a) == multiset(a')
  {
    hide Sorted, Unambiguous, ValidAssets, Free, Header, SelfDelimiting, Lines, AllUnbroken, AllReadOneWay, AllNamed;
    ValidIsPlain(a);
    ValidIsPlain(a');
    var s :| Sorted(s) && multiset(s) == multiset(a) && c == Content(b, l, p, s);
    var t :| Sorted(t) && multiset(t) == multiset(a') && c' == Content(b', l', p', t);
    if c == c' {
      PopulationKeeps(a, s);
      PopulationKeeps(a', t);
      assert c == Header(b, l) + (p + Lines(s)) && c' == Header(b', l') + (p' + Lines(t));
      HeaderIsUnique(b, l, p + Lines(s), b', l', p' + Lines(t));
      PlanIsUnique(isPlan, p, s, p', t);
      LinesIdentify(s, t);
    } else if b == b' && l == l' && p == p' && multiset(a) == multiset(a') {
      ContentIgnoresOrder(b, l, p, a, a', c, c');
    }
  }

  // ----- Line breaks cannot be left to the other job -----

  /** Two assets written as one, by way of a URL with a line break. */
  function Merged(x: Asset, y: Asset): Asset {
    x.(sourceUrl := x.sourceUrl + ['\n'] + ("asset:" + Text(y)))
  }

  lemma MergedLine(x: Asset, y: Asset)
    ensures Line(Merged(x, y)) == Line(x) + Line(y)
  {
    LineOfText(y);
    hide Text;
    var u := x.sourceUrl + ['\n'] + ("asset:" + Text(y));
    assert u + ['\n'] == x.sourceUrl + ['\n'] + ("asset:" + (Text(y) + ['\n']));
  }

  /** The list with its last two assets written as one. */
  function MergeLast(s: seq<Asset>): seq<Asset>
    requires |s| >= 2
  {
    s[..|s| - 2] + [Merged(s[|s| - 2], s[|s| - 1])]
  }

  lemma LinesSnoc(s: seq<Asset>, a: Asset)
    ensures Lines(s + [a]) == Lines(s) + Line(a)
  {
    hide Line;
    assert (s + [a])[..|s|] == s;
  }

  lemma MergeLastLines(s: seq<Asset>)
    requires |s| >= 2
    ensures Lines(MergeLast(s)) == Lines(s)
  {
    hide Line, Lines, Merged;
    var n := |s|;
    var front, x, y := s[..n - 2], s[n - 2], s[n - 1];
    MergedLine(x, y);
    LinesSnoc(front, x);
    LinesSnoc(front + [x], y);
    LinesSnoc(front, Merged(x, y));
    assert s == front + [x] + [y];
    assert Lines(front) + Line(x) + Line(y) == Lines(front) + (Line(x) + Line(y));
  }

  predicate SameKey(a: Asset, b: Asset) { a.hash == b.hash && a.logicalPath == b.logicalPath }

  /** Order and validity depend on hashes and paths only. */
  lemma KeysDecide(s: seq<Asset>, m: seq<Asset>)
    requires |m| <= |s| && forall i | 0 <= i < |m| :: SameKey(m[i], s[i])
    ensures Sorted(s) ==> Sorted(m)
    ensures ValidAssets(s) ==> ValidAssets(m)
  {
    hide Blank, StringLess;
    if Sorted(s) {
      forall i, j | 0 <= i < j < |m| ensures Before(m[i], m[j]) {
        assert SameKey(m[i], s[i]) && SameKey(m[j], s[j]) && Before(s[i], s[j]);
      }
    }
    if ValidAssets(s) {
      hide Sorted, Before;
      forall i | 0 <= i < |m| ensures Named(m[i]) { assert SameKey(m[i], s[i]) && Named(s[i]); }
      forall i, j | 0 <= i < j < |m| ensures m[i].logicalPath != m[j].logicalPath {
        assert SameKey(m[i], s[i]) && SameKey(m[j], s[j]);
      }
    }
  }

  lemma MergeLastIsValid(s: seq<Asset>)
    requires |s| >= 2 && Sorted(s) && ValidAssets(s)
    ensures Sorted(MergeLast(s)) && ValidAssets(MergeLast(s))
  {
    hide Text, Sorted, ValidAssets;
    var m := MergeLast(s);
    forall i | 0 <= i < |m| ensures SameKey(m[i], s[i]) { }
    KeysDecide(s, m);
  }

  lemma ValidPopulation(s: seq<Asset>, t: seq<Asset>)
    requires multiset(s) == multiset(t) && ValidAssets(s)
    ensures ValidAssets(t)
  {
    PopulationKeeps(s, t);
    SamePopulation(s, t);
    hide Named, AllUnbroken, AllReadOneWay;
    forall i, j | 0 <= i < j < |t| ensures t[i].logicalPath != t[j].logicalPath { OnePerPath(s, t, i, j); }
  }

  /** Distinct paths in one order are distinct paths in any other. */
  lemma OnePerPath(s: seq<Asset>, t: seq<Asset>, i: nat, j: nat)
    requires multiset(s) == multiset(t) && DistinctPaths(s) && i < j < |t|
    ensures t[i].logicalPath != t[j].logicalPath
  {
    SamePopulation(s, t);
    assert t[i] in s && t[j] in s;
    if t[i] == t[j] {
      assert t == t[..i] + [t[i]] + t[i + 1..j] + [t[j]] + t[j + 1..];
      assert multiset(t)[t[i]] >= 2;
      AtMostOnce(s, t[i]);
    }
  }

  lemma {:induction false} AtMostOnce(s: seq<Asset>, a: Asset)
    requires DistinctPaths(s)
    ensures multiset(s)[a] <= 1
  {
    if s != [] {
      var n := |s| - 1;
      AtMostOnce(s[..n], a);
      assert s == s[..n] + [s[n]];
      if s[n] == a { assert a !in s[..n]; }
    }
  }

  /** Every accepted job with two assets or more shares its bytes with another accepted one, of
      one asset less and with a line break in a field: no condition on its own fields alone could identify it. */
  lemma TwoAssetsMerge(b: string, l: string, p: string, a: seq<Asset>, c: string)
    requires ValidAssets(a) && |a| >= 2 && IsContent(b, l, p, a, c)
    ensures exists a' :: ValidAssets(a') && |a'| == |a| - 1 && !AllUnbroken(a') && IsContent(b, l, p, a', c)
  {
    hide Sorted, ValidAssets, Header, Lines, MergeLast, AllUnbroken;
    var s :| Sorted(s) && multiset(s) == multiset(a) && c == Content(b, l, p, s);
    SamePopulation(a, s);
    ValidPopulation(a, s);
    MergeLastIsValid(s);
    MergeLastLines(s);
    var a' := MergeLast(s);
    assert c == Content(b, l, p, a');
    assert IsContent(b, l, p, a', c);
    MergeLastShape(s);
  }

  lemma MergeLastShape(s: seq<Asset>)
    requires |s| >= 2
    ensures |MergeLast(s)| == |s| - 1 && !AllUnbroken(MergeLast(s))
  {
    hide Text;
    var m := MergeLast(s)[|s| - 2];
    assert m.sourceUrl[|s[|s| - 2].sourceUrl|] == '\n';
    assert !Unbroken(m);
  }
}
