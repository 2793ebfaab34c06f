/**
 The identity of batch jobs: their queue ids, and the bytes whose SHA-256 is the idempotency
 key. For validated assets those bytes do not depend on the order of the asset list, and they
 identify the job.
 */
module BatchIdentity {
  import opened GoStrings

  datatype Asset = Asset(hash: string, logicalPath: string, sourceUrl: string)

  // ----- Go's string order -----

  predicate StringLess(a: string, b: string) {
    if b == "" then false
    else if a == "" then true
    else if a[0] != b[0] then a[0] < b[0]
    else StringLess(a[1..], b[1..])
  }

  lemma {:induction false} StringLessTotal(a: string, b: string)
    ensures !StringLess(a, b) && !StringLess(b, a) <==> a == b
    ensures !(StringLess(a, b) && StringLess(b, a))
  {
    if a != "" && b != "" && a[0] == b[0] {
      StringLessTotal(a[1..], b[1..]);
      assert a == [a[0]] + a[1..] && b == [b[0]] + b[1..];
    }
  }

  lemma {:induction false} StringLessTransitive(a: string, b: string, c: string)
    ensures StringLess(a, b) && StringLess(b, c) ==> StringLess(a, c)
  {
    if a != "" && b != "" && c != "" && a[0] == b[0] == c[0] {
      StringLessTransitive(a[1..], b[1..], c[1..]);
    }
  }

  /** The comparison of the sort: by hash, then by logical path. */
  predicate Less(a: Asset, b: Asset) {
    if a.hash != b.hash then StringLess(a.hash, b.hash) else StringLess(a.logicalPath, b.logicalPath)
  }

  /** `a` may stand before `b` in a sorted list. */
  predicate Before(a: Asset, b: Asset) { !Less(b, a) }

  lemma BeforeIsOrder(a: Asset, b: Asset, c: Asset)
    ensures Before(a, b) || Before(b, a)
    ensures Before(a, b) && Before(b, c) ==> Before(a, c)
    ensures Before(a, b) && Before(b, a) ==> a.hash == b.hash && a.logicalPath == b.logicalPath
    ensures Less(a, b) ==> Before(a, b)
  {
    StringLessTotal(a.hash, b.hash);
    StringLessTotal(b.hash, c.hash);
    StringLessTotal(a.hash, c.hash);
    StringLessTotal(a.logicalPath, b.logicalPath);
    StringLessTotal(b.logicalPath, c.logicalPath);
    StringLessTotal(a.logicalPath, c.logicalPath);
    StringLessTransitive(a.hash, b.hash, c.hash);
    StringLessTransitive(c.hash, a.hash, b.hash);
    StringLessTransitive(b.hash, c.hash, a.hash);
    StringLessTransitive(a.logicalPath, b.logicalPath, c.logicalPath);
    StringLessTransitive(c.logicalPath, a.logicalPath, b.logicalPath);
    StringLessTransitive(b.logicalPath, c.logicalPath, a.logicalPath);
    hide StringLess;
  }

  /** The order of strings: one is less when it ends first, or has the smaller character where
      they first differ. */
  lemma {:induction false} StringLessIff(a: string, b: string)
    ensures StringLess(a, b) <==>
            exists k | 0 <= k <= |a| && k < |b| :: AgreeUpTo(a, b, k) && (k == |a| || a[k] < b[k])
  {
    if a != "" && b != "" && a[0] == b[0] {
      var x, y := a[1..], b[1..];
      StringLessIff(x, y);
      if k :| 0 <= k <= |x| && k < |y| && AgreeUpTo(x, y, k) && (k == |x| || x[k] < y[k]) {
        assert AgreeUpTo(a, b, k + 1);
      }
      if k :| 0 <= k <= |a| && k < |b| && AgreeUpTo(a, b, k) && (k == |a| || a[k] < b[k]) {
        assert AgreeUpTo(x, y, k - 1);
      }
    } else if b != "" {
      assert AgreeUpTo(a, b, 0);
    }
  }

  /** The strings agree up to `k`. */
  predicate AgreeUpTo(a: string, b: string, k: nat) {
    k <= |a| && k <= |b| && forall i | 0 <= i < k :: a[i] == b[i]
  }

  predicate Sorted(s: seq<Asset>) { forall i, j | 0 <= i < j < |s| :: Before(s[i], s[j]) }

  /** Assets that compare equal are equal. */
  predicate Unambiguous(s: seq<Asset>) {
    forall i, j | 0 <= i < |s| && 0 <= j < |s| && s[i].hash == s[j].hash && s[i].logicalPath == s[j].logicalPath ::
      s[i] == s[j]
  }

  predicate DistinctPaths(s: seq<Asset>) {
    forall i, j | 0 <= i < j < |s| :: s[i].logicalPath != s[j].logicalPath
  }

  lemma DistinctIsUnambiguous(s: seq<Asset>)
    requires DistinctPaths(s)
    ensures Unambiguous(s)
  {
  }

  lemma SamePopulation(s: seq<Asset>, t: seq<Asset>)
    requires multiset(s) == multiset(t)
    ensures |s| == |t|
    ensures forall a :: a in s <==> a in t
    ensures Unambiguous(s) ==> Unambiguous(t)
  {
    assert |multiset(s)| == |s| && |multiset(t)| == |t|;
    forall a ensures a in s <==> a in t { assert a in s <==> a in multiset(s); }
    assert forall i | 0 <= i < |t| :: t[i] in s;
  }

  lemma HeadsAgree(s: seq<Asset>, t: seq<Asset>)
    requires Sorted(s) && Sorted(t) && multiset(s) == multiset(t) && Unambiguous(s) && s != []
    ensures t != [] && s[0] == t[0]
  {
    SamePopulation(s, t);
    hide Before, Unambiguous;
    assert s[0] in t && t[0] in s;
    var i :| 0 <= i < |t| && t[i] == s[0];
    var j :| 0 <= j < |s| && s[j] == t[0];
    BeforeIsOrder(s[0], t[0], s[0]);
    BeforeIsOrder(t[0], s[0], t[0]);
    EqualKeys(s, j);
  }

  lemma EqualKeys(s: seq<Asset>, j: nat)
    requires j < |s| && Unambiguous(s)
    ensures s[0].hash == s[j].hash && s[0].logicalPath == s[j].logicalPath ==> s[0] == s[j]
  {
  }

  lemma TailPopulation(s: seq<Asset>)
    requires s != []
    ensures multiset(s[1..]) == multiset(s) - multiset{s[0]}
  {
    assert s == [s[0]] + s[1..];
  }

  lemma TailKeeps(s: seq<Asset>)
    requires s != []
    ensures Sorted(s) ==> Sorted(s[1..])
    ensures Unambiguous(s) ==> Unambiguous(s[1..])
  {
    hide Before;
    assert forall i | 0 <= i < |s| - 1 :: s[1..][i] == s[i + 1];
  }

  /** The sort is not stable, and need not be: a sorted arrangement is unique. */
  lemma {:induction false} SortedIsUnique(s: seq<Asset>, t: seq<Asset>)
    requires Sorted(s) && Sorted(t) && multiset(s) == multiset(t) && Unambiguous(s)
    ensures s == t
  {
    hide Sorted, Unambiguous;
    SamePopulation(s, t);
    if s != [] {
      HeadsAgree(s, t);
      TailPopulation(s);
      TailPopulation(t);
      TailKeeps(s);
      TailKeeps(t);
      SortedIsUnique(s[1..], t[1..]);
      assert s == [s[0]] + s[1..] && t == [t[0]] + t[1..];
    }
  }

  /** In a sorted list hashes do not decrease, and paths of one hash do not. */
  lemma SortedByHashThenPath(s: seq<Asset>, i: nat, j: nat)
    requires Sorted(s) && i < j < |s|
    ensures s[i].hash == s[j].hash || StringLess(s[i].hash, s[j].hash)
    ensures s[i].hash == s[j].hash ==>
              s[i].logicalPath == s[j].logicalPath || StringLess(s[i].logicalPath, s[j].logicalPath)
  {
    assert Before(s[i], s[j]);
    StringLessTotal(s[i].hash, s[j].hash);
    StringLessTotal(s[i].logicalPath, s[j].logicalPath);
    hide StringLess;
  }

  /** An insertion: the assets before `a` stay before it. */
  method Insert(s: seq<Asset>, a: Asset) returns (r: seq<Asset>)
    requires Sorted(s)
    ensures Sorted(r) && multiset(r) == multiset(s) + multiset{a}
  {
    hide Before;
    var i := |s|;
    while i > 0 && Less(a, s[i - 1])
      invariant 0 <= i <= |s|
      invariant forall k | i <= k < |s| :: Before(a, s[k])
    {
      BeforeIsOrder(a, s[i - 1], a);
      i := i - 1;
    }
    if i > 0 { NotLessIsBefore(a, s[i - 1]); }
    r := s[..i] + [a] + s[i..];
    forall k | 0 <= k < i ensures Before(s[k], a) { BeforeIsOrder(s[k], s[i - 1], a); }
    assert s == s[..i] + s[i..];
  }

  lemma NotLessIsBefore(a: Asset, b: Asset)
    requires !Less(a, b)
    ensures Before(b, a)
  {
  }

  /** `sort.Slice` on a copy, known only to give a sorted permutation. */
  method Sort(assets: seq<Asset>) returns (sorted: seq<Asset>)
    ensures Sorted(sorted) && multiset(sorted) == multiset(assets)
  {
    hide Sorted;
    sorted := [];
    SortedEmpty();
    for i := 0 to |assets|
      invariant Sorted(sorted) && multiset(sorted) == multiset(assets[..i])
    {
      sorted := Insert(sorted, assets[i]);
      assert assets[..i + 1] == assets[..i] + [assets[i]];
    }
    assert assets[..|assets|] == assets;
  }

  lemma SortedEmpty()
    ensures Sorted([])
  {
  }

  // ----- The hashed bytes -----

  function Line(a: Asset): string {
    "asset:" + (a.hash + [':'] + (a.logicalPath + [':'] + (a.sourceUrl + ['\n'])))
  }

  function Lines(s: seq<Asset>): string {
    if s == [] then "" else Lines(s[..|s| - 1]) + Line(s[|s| - 1])
  }

  function Header(batch: string, logical: string): string {
    "batch:" + batch + "\njob:" + logical + "\n"
  }

  function Content(batch: string, logical: string, plan: string, sorted: seq<Asset>): string {
    Header(batch, logical) + plan + Lines(sorted)
  }

  /** The bytes hashed for these assets, in some sorted arrangement. */
  ghost predicate IsContent(batch: string, logical: string, plan: string, assets: seq<Asset>, c: string) {
    exists sorted: seq<Asset> ::
      Sorted(sorted) && multiset(sorted) == multiset(assets) && c == Content(batch, logical, plan, sorted)
  }

  /** `idempotencyKey`, up to the hash. */
  method KeyContent(batch: string, logical: string, plan: string, assets: seq<Asset>) returns (c: string)
    ensures IsContent(batch, logical, plan, assets, c)
  {
    c := "batch:" + batch + "\njob:" + logical + "\n";
    c := c + plan;
    var sorted := Sort(assets);
    hide Sorted, Line;
    ghost var start := c;
    for i := 0 to |sorted|
      invariant c == start + Lines(sorted[..i])
    {
      assert sorted[..i + 1][..i] == sorted[..i];
      c := c + Line(sorted[i]);
    }
    assert sorted[..|sorted|] == sorted;
    assert c == Content(batch, logical, plan, sorted);
  }

  /** Reordering unambiguous assets, which validated ones are, never changes the bytes. */
  lemma ContentIgnoresOrder(batch: string, logical: string, plan: string, a: seq<Asset>, b: seq<Asset>, c: string, d: string)
    requires Unambiguous(a) && multiset(a) == multiset(b)
    requires IsContent(batch, logical, plan, a, c) && IsContent(batch, logical, plan, b, d)
    ensures c == d
  {
    hide Sorted, Content, Unambiguous;
    var s :| Sorted(s) && multiset(s) == multiset(a) && c == Content(batch, logical, plan, s);
    var t :| Sorted(t) && multiset(t) == multiset(b) && d == Content(batch, logical, plan, t);
    SamePopulation(a, s);
    SortedIsUnique(s, t);
  }

  // ----- The bytes identify the job -----

  predicate Free(s: string, c: char) { forall i | 0 <= i < |s| :: s[i] != c }

  /** Text up to the first separator is read back. */
  lemma FirstSeparator(a: string, x: string, b: string, y: string, c: char)
    requires Free(a, c) && Free(b, c) && a + [c] + x == b + [c] + y
    ensures a == b && x == y
  {
    var s := a + [c] + x;
    assert s[|a|] == c && s[|b|] == c;
    assert forall i | 0 <= i < |a| :: s[i] == a[i];
    assert forall i | 0 <= i < |b| :: s[i] == b[i];
    assert |a| == |b|;
    assert a == s[..|a|] && b == s[..|b|];
    assert x == s[|a| + 1..] && y == s[|b| + 1..];
  }

  lemma SamePrefix(p: string, x: string, y: string)
    requires p + x == p + y
    ensures x == y
  {
    assert x == (p + x)[|p|..] && y == (p + y)[|p|..];
  }

  /** An asset whose fields cannot be confused with the separators around them. */
  predicate CleanAsset(a: Asset) {
    Free(a.hash, ':') && Free(a.logicalPath, ':') && Free(a.sourceUrl, '\n')
  }

  predicate CleanAssets(s: seq<Asset>) { forall i | 0 <= i < |s| :: CleanAsset(s[i]) }

  lemma LineIsUnique(a: Asset, x: string, b: Asset, y: string)
    requires CleanAsset(a) && CleanAsset(b) && Line(a) + x == Line(b) + y
    ensures a == b && x == y
  {
    hide Free;
    var ua := a.sourceUrl + ['\n'] + x;
    var ub := b.sourceUrl + ['\n'] + y;
    var ap, bp := a.logicalPath + [':'] + ua, b.logicalPath + [':'] + ub;
    assert Line(a) + x == "asset:" + (a.hash + [':'] + ap);
    assert Line(b) + y == "asset:" + (b.hash + [':'] + bp);
    SamePrefix("asset:", a.hash + [':'] + ap, b.hash + [':'] + bp);
    FirstSeparator(a.hash, ap, b.hash, bp, ':');
    FirstSeparator(a.logicalPath, ua, b.logicalPath, ub, ':');
    FirstSeparator(a.sourceUrl, x, b.sourceUrl, y, '\n');
  }

  lemma {:induction false} LinesFromFront(s: seq<Asset>)
    requires s != []
    ensures Lines(s) == Line(s[0]) + Lines(s[1..])
    decreases |s|
  {
    hide Line;
    if |s| > 1 {
      var n := |s| - 1;
      LinesFromFront(s[..n]);
      assert s[..n][1..] == s[1..][..n - 1];
      assert s[1..][n - 1] == s[n];
    } else {
      assert s[..0] == [] && s[1..] == [];
    }
  }

  lemma LineStarts(a: Asset)
    ensures Line(a) != "" && Line(a)[0] == 'a'
  {
  }

  lemma LinesStart(s: seq<Asset>)
    ensures Lines(s) == "" <==> s == []
    ensures Lines(s) == "" || Lines(s)[0] == 'a'
  {
    if s != [] {
      LinesFromFront(s);
      LineStarts(s[0]);
      hide Line;
    }
  }

  lemma {:induction false} LinesAreUnique(s: seq<Asset>, t: seq<Asset>)
    requires CleanAssets(s) && CleanAssets(t) && Lines(s) == Lines(t)
    ensures s == t
    decreases |s|
  {
    hide Line, CleanAsset, Lines;
    LinesStart(s);
    LinesStart(t);
    if s != [] {
      LinesFromFront(s);
      LinesFromFront(t);
      LineIsUnique(s[0], Lines(s[1..]), t[0], Lines(t[1..]));
      LinesAreUnique(s[1..], t[1..]);
      assert s == [s[0]] + s[1..] && t == [t[0]] + t[1..];
    }
  }

  lemma HeaderIsUnique(b: string, l: string, x: string, b': string, l': string, x': string)
    requires Free(b, '\n') && Free(l, '\n') && Free(b', '\n') && Free(l', '\n')
    requires Header(b, l) + x == Header(b', l') + x'
    ensures b == b' && l == l' && x == x'
  {
    hide Free;
    var y, y' := l + ['\n'] + x, l' + ['\n'] + x';
    var z, z' := "job:" + y, "job:" + y';
    HeaderParts(b, l, x);
    HeaderParts(b', l', x');
    SamePrefix("batch:", b + ['\n'] + z, b' + ['\n'] + z');
    FirstSeparator(b, z, b', z', '\n');
    SamePrefix("job:", y, y');
    FirstSeparator(l, x, l', x', '\n');
  }

  lemma HeaderParts(b: string, l: string, x: string)
    ensures Header(b, l) + x == "batch:" + (b + ['\n'] + ("job:" + (l + ['\n'] + x)))
  {
    assert "\njob:" == ['\n'] + "job:";
    assert "batch:" + b + "\njob:" == "batch:" + (b + ['\n'] + "job:");
  }

  /** What makes a plan end recognisable: an accepted plan continues into another only by white
      space, as JSON objects do. */
  ghost predicate SelfDelimiting(isPlan: string -> bool) {
    forall p, q | isPlan(p) && isPlan(q) && |p| < |q| && p == q[..|p|] :: IsSpace(q[|p|])
  }

  lemma Overlap(p: string, x: string, q: string, y: string)
    requires p + x == q + y && |p| < |q|
    ensures x != "" && p == q[..|p|] && q[|p|] == x[0]
  {
    var whole := p + x;
    assert whole[|p|] == q[|p|];
    assert whole[..|p|] == q[..|p|];
  }

  lemma PlanIsUnique(isPlan: string -> bool, p: string, s: seq<Asset>, q: string, t: seq<Asset>)
    requires SelfDelimiting(isPlan) && isPlan(p) && isPlan(q) && p + Lines(s) == q + Lines(t)
    ensures p == q && Lines(s) == Lines(t)
  {
    LinesStart(s);
    LinesStart(t);
    hide Lines;
    var x, y := Lines(s), Lines(t);
    if |p| < |q| {
      Overlap(p, x, q, y);
    } else if |q| < |p| {
      Overlap(q, y, p, x);
    } else {
      assert p == (p + x)[..|p|] && q == (q + y)[..|q|];
      SamePrefix(p, x, y);
    }
  }

  /** Under the same ids, whatever they are, an edited plan gives other bytes with any assets. */
  lemma PlanIsIdentified(isPlan: string -> bool, b: string, l: string,
                         p: string, a: seq<Asset>, p': string, a': seq<Asset>, c: string)
    requires SelfDelimiting(isPlan) && isPlan(p) && isPlan(p')
    requires IsContent(b, l, p, a, c) && IsContent(b, l, p', a', c)
    ensures p == p'
  {
    hide Sorted, Header, SelfDelimiting, Lines;
    var s :| Sorted(s) && multiset(s) == multiset(a) && c == Content(b, l, p, s);
    var t :| Sorted(t) && multiset(t) == multiset(a') && c == Content(b, l, p', t);
    assert c == Header(b, l) + (p + Lines(s)) && c == Header(b, l) + (p' + Lines(t));
    SamePrefix(Header(b, l), p + Lines(s), p' + Lines(t));
    PlanIsUnique(isPlan, p, s, p', t);
  }

  /** A job whose fields do not contain the separators that follow them. */
  predicate CleanJob(batch: string, logical: string, assets: seq<Asset>) {
    Free(batch, '\n') && Free(logical, '\n') && CleanAssets(assets)
  }

  lemma CleanPopulation(s: seq<Asset>, t: seq<Asset>)
    requires multiset(s) == multiset(t) && CleanAssets(s)
    ensures CleanAssets(t)
  {
    hide CleanAsset;
    SamePopulation(s, t);
    assert forall i | 0 <= i < |t| :: t[i] in s;
  }

  /** Two clean jobs have the same hashed bytes exactly when they have the same batch, logical
      id, plan and assets up to order: an edit gives new bytes, a replay the same. */
  lemma ContentIdentifiesJob(
      isPlan: string -> bool,
      b: string, l: string, p: string, a: seq<Asset>, c: string,
      b': string, l': string, p': string, a': seq<Asset>, c': string)
    requires SelfDelimiting(isPlan) && isPlan(p) && isPlan(p')
    requires CleanJob(b, l, a) && CleanJob(b', l', a') && Unambiguous(a) && Unambiguous(a')
    requires IsContent(b, l, p, a, c) && IsContent(b', l', p', a', c')
    ensures c == c' <==> b == b' && l == l' && p == p' && multiset(a) == multiset(a')
  {
    hide Sorted, Unambiguous, CleanAssets, Free, Header, SelfDelimiting, Lines;
    var s :| Sorted(s) && multiset(s) == multiset(a) && c == Content(b, l, p, s);
    var t :| Sorted(t) && multiset(t) == multiset(a') && c' == Content(b', l', p', t);
    if c == c' {
      CleanPopulation(a, s);
      CleanPopulation(a', t);
      assert c == Header(b, l) + (p + Lines(s)) && c' == Header(b', l') + (p' + Lines(t));
      HeaderIsUnique(b, l, p + Lines(s), b', l', p' + Lines(t));
      PlanIsUnique(isPlan, p, s, p', t);
      LinesAreUnique(s, t);
    } else if b == b' && l == l' && p == p' && multiset(a) == multiset(a') {
      ContentIgnoresOrder(b, l, p, a, a', c, c');
    }
  }

  // ----- Queue ids -----

  function JobId(batch: string, logical: string): string { batch + ":" + logical }

  lemma JobIdsInOneBatch(batch: string, l: string, l': string)
    ensures JobId(batch, l) == JobId(batch, l') <==> l == l'
  {
    if JobId(batch, l) == JobId(batch, l') { SamePrefix(batch + ":", l, l'); }
  }

  predicate IsPrefix(a: string, b: string) { |a| <= |b| && b[..|a|] == a }

  predicate Blank(s: string) { TrimSpace(s) == "" }

  /** Non-blank jobs of two batches that would get one queue id. */
  predicate Collide(b: string, l: string, b': string, l': string) {
    !Blank(l) && !Blank(l') && JobId(b, l) == JobId(b', l')
  }

  /** Two batches can produce the same queue id, against what their identifiers promise, exactly
      when one batch id, with its colon, starts the other. */
  lemma BatchesCollideIff(b: string, b': string)
    requires b != b'
    ensures (exists l, l' :: Collide(b, l, b', l')) <==>
            IsPrefix(b + ":", b') || IsPrefix(b' + ":", b)
  {
    hide Blank;
    if IsPrefix(b + ":", b') { Collision(b, b'); }
    if IsPrefix(b' + ":", b) {
      Collision(b', b);
      var l, l' :| Collide(b', l, b, l');
      assert Collide(b, l', b', l);
    }
    if l, l' :| Collide(b, l, b', l') { SharedIdPrefix(b, l, b', l'); }
  }

  lemma SharedIdPrefix(b: string, l: string, b': string, l': string)
    requires b != b' && JobId(b, l) == JobId(b', l')
    ensures IsPrefix(b + ":", b') || IsPrefix(b' + ":", b)
  {
    var id := JobId(b, l);
    assert id[..|b| + 1] == b + ":" && id[..|b'| + 1] == b' + ":";
    assert id[..|b|] == b && id[..|b'|] == b';
    if |b| < |b'| {
      assert b'[..|b| + 1] == id[..|b| + 1];
    } else if |b'| < |b| {
      assert b[..|b'| + 1] == id[..|b'| + 1];
    }
  }

  lemma Collision(b: string, b': string)
    requires IsPrefix(b + ":", b')
    ensures exists l, l' :: Collide(b, l, b', l')
  {
    hide Collide;
    var p := b + ":";
    var rest := b'[|p|..];
    assert b' == b'[..|p|] + rest;
    SolidJob(b, rest, "x");
  }

  lemma SolidJob(b: string, rest: string, x: string)
    requires x != "" && !IsSpace(x[|x| - 1])
    ensures Collide(b, rest + ":" + x, b + ":" + rest, x)
  {
    hide Blank;
    SharedId(b, rest, x);
    EndsSolid(rest + ":", x);
    EndsSolid("", x);
    assert "" + x == x;
  }

  lemma SharedId(b: string, rest: string, x: string)
    ensures JobId(b, rest + ":" + x) == JobId(b + ":" + rest, x)
  {
  }

  lemma EndsSolid(s: string, t: string)
    requires t != "" && !IsSpace(t[|t| - 1])
    ensures !Blank(s + t)
  {
    assert (s + t)[|s + t| - 1] == t[|t| - 1];
    SolidSurvives(s + t);
  }

  lemma {:induction false} SolidSurvives(s: string)
    requires s != "" && !IsSpace(s[|s| - 1])
    ensures TrimLeft(s) != ""
  {
    if IsSpace(s[0]) {
      assert s[1..][|s| - 2] == s[|s| - 1];
      SolidSurvives(s[1..]);
    }
  }
}
