/**
 Exactly which batches can share an idempotency key: those for which the same bytes can be
 hashed. Validation refuses none of the entries shown here.
 */
module BatchCollisions {
  import opened GoStrings
  import opened BatchIdentity
  import opened BatchExpand

  // ----- Batches -----

  /** Two accepted entries of two batches for which the same bytes are hashed. */
  ghost predicate SharesBytes(isPlan: string -> bool, b: string, e: FlatJob, b': string, e': FlatJob) {
    && GoodEntry(isPlan, e) && GoodEntry(isPlan, e')
    && exists c :: IsContent(b, e.id, e.plan, e.assets, c) && IsContent(b', e'.id, e'.plan, e'.assets, c)
  }

  const MARK := "\njob:"

  lemma ContentStarts(b: string, l: string, p: string, s: seq<Asset>)
    ensures exists x :: Content(b, l, p, s) == "batch:" + (b + MARK + x)
  {
    hide Lines;
    var x := l + "\n" + p + Lines(s);
    assert Content(b, l, p, s) == "batch:" + (b + MARK + x) by {
      assert "batch:" + b + MARK + l + "\n" + p + Lines(s) == "batch:" + (b + MARK + (l + "\n" + p + Lines(s)));
    }
  }

  /** A mark that follows both ids puts one, with its mark, at the start of the other: marks do
      not overlap. */
  lemma MarkedPrefix(b: string, x: string, b': string, x': string)
    requires b + MARK + x == b' + MARK + x' && |b| < |b'|
    ensures IsPrefix(b + MARK, b')
  {
    var whole := b + MARK + x;
    assert whole[|b'|] == (b' + MARK + x')[|b'|] == '\n';
    MarkHasOneBreak(b, x);
    assert |b| + 5 <= |b'|;
    assert whole[..|b| + 5] == b + MARK;
    assert whole[..|b'|] == b' && b'[..|b| + 5] == whole[..|b| + 5];
  }

  lemma MarkHasOneBreak(b: string, x: string)
    ensures forall i | |b| < i < |b| + 5 :: (b + MARK + x)[i] != '\n'
  {
    assert forall i | |b| < i < |b| + 5 :: (b + MARK + x)[i] == MARK[i - |b|];
  }

  lemma EqualLengths(b: string, x: string, b': string, x': string)
    requires b + MARK + x == b' + MARK + x' && |b| == |b'|
    ensures b == b'
  {
    assert b == (b + MARK + x)[..|b|] && b' == (b' + MARK + x')[..|b'|];
  }

  lemma SharedBytesPrefix(isPlan: string -> bool, b: string, e: FlatJob, b': string, e': FlatJob)
    requires b != b' && SharesBytes(isPlan, b, e, b', e')
    ensures IsPrefix(b + MARK, b') || IsPrefix(b' + MARK, b)
  {
    hide Content, Sorted, GoodEntry, IsPrefix;
    var c :| IsContent(b, e.id, e.plan, e.assets, c) && IsContent(b', e'.id, e'.plan, e'.assets, c);
    var s :| Sorted(s) && multiset(s) == multiset(e.assets) && c == Content(b, e.id, e.plan, s);
    var t :| Sorted(t) && multiset(t) == multiset(e'.assets) && c == Content(b', e'.id, e'.plan, t);
    ContentStarts(b, e.id, e.plan, s);
    ContentStarts(b', e'.id, e'.plan, t);
    var x :| c == "batch:" + (b + MARK + x);
    var x' :| c == "batch:" + (b' + MARK + x');
    SamePrefix("batch:", b + MARK + x, b' + MARK + x');
    if |b| < |b'| {
      MarkedPrefix(b, x, b', x');
    } else if |b'| < |b| {
      MarkedPrefix(b', x', b, x);
    } else {
      EqualLengths(b, x, b', x');
    }
  }

  lemma SharedHeader(b: string, rest: string, x: string)
    ensures Header(b, rest + MARK + x) == Header(b + MARK + rest, x)
  {
    assert "batch:" + b + MARK + (rest + MARK + x) == "batch:" + (b + MARK + rest) + MARK + x;
  }

  lemma SharedEntries(isPlan: string -> bool, b: string, l: string, b': string, l': string, plan: string)
    requires isPlan(plan) && !Blank(l) && !Blank(l') && Header(b, l) == Header(b', l')
    ensures SharesBytes(isPlan, b, FlatJob(l, plan, []), b', FlatJob(l', plan, []))
  {
    hide Blank, Header;
    var c := Content(b, l, plan, []);
    assert Sorted([]) && c == Content(b', l', plan, []);
    assert IsContent(b, l, plan, [], c) && IsContent(b', l', plan, [], c);
  }

  lemma SolidEntries(isPlan: string -> bool, b: string, rest: string, x: string, plan: string)
    requires isPlan(plan) && x != "" && !IsSpace(x[|x| - 1])
    ensures SharesBytes(isPlan, b, FlatJob(rest + MARK + x, plan, []), b + MARK + rest, FlatJob(x, plan, []))
  {
    hide SharesBytes, Blank, Header, MARK;
    SharedHeader(b, rest, x);
    EndsSolid(rest + MARK, x);
    EndsSolid("", x);
    assert "" + x == x;
    SharedEntries(isPlan, b, rest + MARK + x, b + MARK + rest, x, plan);
  }

  lemma PrefixShares(isPlan: string -> bool, b: string, b': string, plan: string)
    requires isPlan(plan) && IsPrefix(b + MARK, b')
    ensures exists e, e' :: SharesBytes(isPlan, b, e, b', e')
  {
    hide SharesBytes, MARK;
    var mark := b + MARK;
    var rest := b'[|mark|..];
    assert b' == b'[..|mark|] + rest;
    SolidEntries(isPlan, b, rest, "x", plan);
  }

  /** Two batches can produce the same idempotency key for every hash, against what their
      identifiers promise, exactly when one batch id, with the mark that follows it, starts the
      other. */
  lemma KeysCollideIff(isPlan: string -> bool, b: string, b': string, plan: string)
    requires b != b' && isPlan(plan)
    ensures (exists e, e' :: SharesBytes(isPlan, b, e, b', e')) <==>
            IsPrefix(b + "\njob:", b') || IsPrefix(b' + "\njob:", b)
  {
    hide SharesBytes, IsPrefix;
    if IsPrefix(b + MARK, b') { PrefixShares(isPlan, b, b', plan); }
    if IsPrefix(b' + MARK, b) {
      PrefixShares(isPlan, b', b, plan);
      var e, e' :| SharesBytes(isPlan, b', e, b, e');
      SharesSymmetric(isPlan, b', e, b, e');
    }
    if e, e' :| SharesBytes(isPlan, b, e, b', e') { SharedBytesPrefix(isPlan, b, e, b', e'); }
  }

  lemma SharesSymmetric(isPlan: string -> bool, b: string, e: FlatJob, b': string, e': FlatJob)
    requires SharesBytes(isPlan, b, e, b', e')
    ensures SharesBytes(isPlan, b', e', b, e)
  {
    hide GoodEntry, IsContent;
    var c :| IsContent(b, e.id, e.plan, e.assets, c) && IsContent(b', e'.id, e'.plan, e'.assets, c);
    assert IsContent(b', e'.id, e'.plan, e'.assets, c) && IsContent(b, e.id, e.plan, e.assets, c);
  }

  /** For instance: two different jobs of two batches, the same bytes. */
  lemma LineBreaksCollide(plan: string)
    ensures Content("a\njob:b", "c", plan, []) == Content("a", "b\njob:c", plan, [])
  {
    assert "batch:" + "a\njob:b" + "\njob:" + "c" + "\n" == "batch:" + "a" + "\njob:" + "b\njob:c" + "\n";
  }
}
