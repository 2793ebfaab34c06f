/**
 The token grammar behind the migration runner's statement splitter.

 A script is cut into tokens: single characters of ordinary text, statement separators,
 line comments, nested block comments, string literals (plain or `E'...'`) and
 dollar-quoted strings. `ValidToken` says what a token is in the text around it, `Lex` is a
 left-to-right lexer, and `WellFormedIffLexed` says the two determine each other: a token
 list is well formed exactly when lexing its text gives it back.
 */
module SqlTokens {

  datatype Kind = Plain | Cut | LineComment | BlockComment | Literal(escapes: bool) | DollarQuote

  datatype Token = Token(kind: Kind, text: string)

  /** How far a scan got, and whether it met its closing marker. */
  datatype Scan = Scan(len: nat, closed: bool) {
    function Skip(n: nat): Scan { Scan(n + len, closed) }
  }

  predicate IsIdentChar(c: char) {
    c == '_' || 'a' <= c <= 'z' || 'A' <= c <= 'Z' || '0' <= c <= '9'
  }

  predicate StartsWith2(s: string, a: char, b: char) {
    |s| >= 2 && s[0] == a && s[1] == b
  }

  // ----- The scans, each on the text that is left -----

  /** Number of characters before the first newline. */
  function LineLength(s: string): (n: nat)
    ensures n <= |s|
    ensures '\n' !in s[..n]
    ensures n == |s| || s[n] == '\n'
  {
    if s == "" || s[0] == '\n' then 0 else 1 + LineLength(s[1..])
  }

  /** A block comment scan from nesting depth `depth`; comments nest. */
  function BlockScan(s: string, depth: nat): (r: Scan)
    ensures r.len <= |s|
    ensures !r.closed ==> r.len == |s|
    ensures r.closed ==> r.len >= 2
  {
    if s == "" then Scan(0, false)
    else if StartsWith2(s, '/', '*') then BlockScan(s[2..], depth + 1).Skip(2)
    else if StartsWith2(s, '*', '/') then
      if depth <= 1 then Scan(2, true) else BlockScan(s[2..], depth - 1).Skip(2)
    else BlockScan(s[1..], depth).Skip(1)
  }

  /** A literal scan from just past the opening quote. */
  function LiteralScan(s: string, escapes: bool): (r: Scan)
    ensures r.len <= |s|
    ensures !r.closed ==> r.len == |s|
    ensures r.closed ==> r.len >= 1 && s[r.len - 1] == '\''
  {
    if s == "" then Scan(0, false)
    else if escapes && s[0] == '\\' && |s| > 1 then LiteralScan(s[2..], escapes).Skip(2)
    else if s[0] != '\'' then LiteralScan(s[1..], escapes).Skip(1)
    else if |s| > 1 && s[1] == '\'' then LiteralScan(s[2..], escapes).Skip(2)
    else Scan(1, true)
  }

  /** Length of the run of tag characters at the front. */
  function IdentRun(s: string): (n: nat)
    ensures n <= |s|
    ensures n < |s| ==> !IsIdentChar(s[n])
  {
    if s == "" || !IsIdentChar(s[0]) then 0 else 1 + IdentRun(s[1..])
  }

  /** Length of the opening dollar-quote tag, or 0 when the dollar opens none. */
  function TagLength(s: string): (n: nat)
    requires s != "" && s[0] == '$'
    ensures n <= |s|
    ensures n > 0 ==> n >= 2 && s[n - 1] == '$'
  {
    var k := 1 + IdentRun(s[1..]);
    if k < |s| && s[k] == '$' then k + 1 else 0
  }

  predicate OccursAt(s: string, tag: string, k: nat) {
    k <= |s| && tag <= s[k..]
  }

  lemma OccursInTail(s: string, tag: string)
    requires s != ""
    ensures forall k: nat :: OccursAt(s[1..], tag, k) ==> OccursAt(s, tag, k + 1)
    ensures forall k: nat :: k > 0 && OccursAt(s, tag, k) ==> OccursAt(s[1..], tag, k - 1)
  {
    forall k: nat | OccursAt(s[1..], tag, k) ensures OccursAt(s, tag, k + 1) {
      assert s[1..][k..] == s[k + 1..];
    }
    forall k: nat | k > 0 && OccursAt(s, tag, k) ensures OccursAt(s[1..], tag, k - 1) {
      assert s[1..][k - 1..] == s[k..];
    }
  }

  /** Scan to the end of the first occurrence of `tag`. */
  function TagScan(s: string, tag: string): (r: Scan)
    requires tag != ""
    ensures r.len <= |s|
    ensures !r.closed ==> r.len == |s|
    ensures r.closed ==> r.len >= |tag|
    decreases |s|
  {
    if tag <= s then Scan(|tag|, true)
    else if s == "" then Scan(0, false)
    else TagScan(s[1..], tag).Skip(1)
  }

  /** A closed tag scan ends at the first occurrence; an open one means there is none. */
  lemma {:induction false} TagScanIsFirst(s: string, tag: string)
    requires tag != ""
    ensures var r := TagScan(s, tag);
            && (r.closed ==> OccursAt(s, tag, r.len - |tag|))
            && (forall k: nat :: OccursAt(s, tag, k) ==> r.closed && r.len - |tag| <= k)
    decreases |s|
  {
    if tag <= s {
      assert s[0..] == s;
    } else if s != "" {
      TagScanIsFirst(s[1..], tag);
      OccursInTail(s, tag);
      assert !OccursAt(s, tag, 0) by { assert s[0..] == s; }
    }
  }

  // ----- Look-behind: the `E` prefix of an escape literal -----

  /** What the text already read says about a quote that comes next: whether the last
      character can be part of an identifier, and whether a quote would open `E'...'`. */
  datatype Look = Look(ident: bool, escape: bool)

  function LookBehind(before: string): Look {
    if before == "" then Look(false, false)
    else
      var c := before[|before| - 1];
      Look(IsIdentChar(c),
           (c == 'E' || c == 'e') && (|before| == 1 || !IsIdentChar(before[|before| - 2])))
  }

  const FRESH := Look(false, false)

  lemma LookBehindAppend(a: string, b: string, t: string)
    requires LookBehind(a) == LookBehind(b)
    ensures LookBehind(a + t) == LookBehind(b + t)
  {
    if |t| >= 2 {
      assert (a + t)[|a + t| - 1] == t[|t| - 1] == (b + t)[|b + t| - 1];
      assert (a + t)[|a + t| - 2] == t[|t| - 2] == (b + t)[|b + t| - 2];
    } else if |t| == 1 {
      assert (a + t)[|a + t| - 1] == t[0] == (b + t)[|b + t| - 1];
      assert a != "" ==> (a + t)[|a + t| - 2] == a[|a| - 1];
      assert b != "" ==> (b + t)[|b + t| - 2] == b[|b| - 1];
    } else {
      assert a + t == a && b + t == b;
    }
  }

  /** After a character that is no identifier character, nothing earlier matters. */
  lemma LookBehindFresh(b: string, c: char)
    requires !IsIdentChar(c)
    ensures LookBehind(b + [c]) == FRESH
  {
    assert (b + [c])[|b + [c]| - 1] == c;
  }

  // ----- The lexer -----

  /** Kind and length of the token at the front of `s`, after `before` was read. */
  function NextToken(before: string, s: string): (r: (Kind, Scan))
    requires s != ""
    ensures 1 <= r.1.len <= |s|
    ensures !r.1.closed ==> r.1.len == |s|
    ensures r.0 == Cut ==> s[0] == ';' && r.1.len == 1
  {
    if StartsWith2(s, '-', '-') then (LineComment, Scan(LineLength(s), true))
    else if StartsWith2(s, '/', '*') then (BlockComment, BlockScan(s, 0))
    else if s[0] == '\'' then
      var escapes := LookBehind(before).escape;
      (Literal(escapes), LiteralScan(s[1..], escapes).Skip(1))
    else if s[0] == '$' && TagLength(s) > 0 then
      var n := TagLength(s);
      (DollarQuote, TagScan(s[n..], s[..n]).Skip(n))
    else if s[0] == ';' then (Cut, Scan(1, true))
    else (Plain, Scan(1, true))
  }

  function Print(toks: seq<Token>): string {
    if toks == [] then "" else toks[0].text + Print(toks[1..])
  }

  /** The tokens of `s`, from left to right. Nothing is lost: printed in order they are `s`. */
  function Lex(before: string, s: string): (toks: seq<Token>)
    ensures Print(toks) == s
    decreases |s|
  {
    if s == "" then []
    else
      var (kind, scan) := NextToken(before, s);
      var rest := Lex(before + s[..scan.len], s[scan.len..]);
      assert s == s[..scan.len] + s[scan.len..];
      [Token(kind, s[..scan.len])] + rest
  }

  lemma {:induction false} PrintAppend(a: seq<Token>, b: seq<Token>)
    ensures Print(a + b) == Print(a) + Print(b)
  {
    if a == [] {
      assert a + b == b;
    } else {
      var c := a + b;
      calc {
        Print(c);
        { assert c[0] == a[0] && c[1..] == a[1..] + b; }
        a[0].text + Print(a[1..] + b);
        { PrintAppend(a[1..], b); }
        a[0].text + (Print(a[1..]) + Print(b));
        { Assoc(a[0].text, Print(a[1..]), Print(b)); }
        a[0].text + Print(a[1..]) + Print(b);
      }
    }
  }

  lemma Assoc(a: string, b: string, c: string)
    ensures (a + b) + c == a + (b + c)
  {
  }

  // ----- The grammar -----

  predicate ClosedBlock(t: string) {
    StartsWith2(t, '/', '*') && BlockScan(t, 0) == Scan(|t|, true)
  }

  predicate OpenBlock(t: string) {
    StartsWith2(t, '/', '*') && !BlockScan(t, 0).closed
  }

  predicate ClosedLiteral(t: string, escapes: bool) {
    t != "" && t[0] == '\'' && LiteralScan(t[1..], escapes) == Scan(|t| - 1, true)
  }

  predicate OpenLiteral(t: string, escapes: bool) {
    t != "" && t[0] == '\'' && !LiteralScan(t[1..], escapes).closed
  }

  predicate OpensDollar(t: string) {
    t != "" && t[0] == '$' && TagLength(t) > 0
  }

  predicate ClosedDollar(t: string) {
    OpensDollar(t) &&
    var n := TagLength(t);
    TagScan(t[n..], t[..n]) == Scan(|t| - n, true)
  }

  predicate OpenDollar(t: string) {
    OpensDollar(t) &&
    var n := TagLength(t);
    !TagScan(t[n..], t[..n]).closed
  }

  /** `t` is a token when it stands between `before` and `after`. An unterminated construct
      is a token only at the very end of the script. */
  predicate ValidToken(before: string, t: Token, after: string) {
    match t.kind
    case Plain =>
      && |t.text| == 1
      && t.text[0] != ';' && t.text[0] != '\''
      && !StartsWith2(t.text + after, '-', '-')
      && !StartsWith2(t.text + after, '/', '*')
      && !OpensDollar(t.text + after)
    case Cut => t.text == ";"
    case LineComment =>
      && StartsWith2(t.text, '-', '-') && '\n' !in t.text
      && (after == "" || after[0] == '\n')
    case BlockComment => ClosedBlock(t.text) || (after == "" && OpenBlock(t.text))
    case Literal(escapes) =>
      && escapes == LookBehind(before).escape
      && (|| (ClosedLiteral(t.text, escapes) && (after == "" || after[0] != '\''))
          || (after == "" && OpenLiteral(t.text, escapes)))
    case DollarQuote => ClosedDollar(t.text) || (after == "" && OpenDollar(t.text))
  }

  predicate WellFormed(before: string, toks: seq<Token>, after: string)
    decreases |toks|
  {
    toks == [] ||
    (&& ValidToken(before, toks[0], Print(toks[1..]) + after)
     && WellFormed(before + toks[0].text, toks[1..], after))
  }

  // ----- Lexing and the grammar agree -----

  /** Characters the block scan takes in its next turn and the depth after it; 0 when the
      comment closes there. */
  function BlockStep(s: string, depth: nat): (r: (nat, nat))
    requires s != ""
    ensures r.0 <= |s|
  {
    if StartsWith2(s, '/', '*') then (2, depth + 1)
    else if StartsWith2(s, '*', '/') then if depth <= 1 then (0, 0) else (2, depth - 1)
    else (1, depth)
  }

  lemma BlockUnfold(s: string, depth: nat)
    requires s != ""
    ensures var (k, d) := BlockStep(s, depth);
            BlockScan(s, depth) == if k == 0 then Scan(2, true) else BlockScan(s[k..], d).Skip(k)
  {
  }

  lemma {:induction false} BlockScanPrefix(s: string, n: nat, depth: nat)
    requires n <= |s|
    ensures BlockScan(s, depth) == Scan(n, true) <==> BlockScan(s[..n], depth) == Scan(n, true)
    decreases |s|
  {
    hide BlockScan;
    if n >= 2 {
      var p := s[..n];
      BlockUnfold(s, depth);
      BlockUnfold(p, depth);
      var (k, d) := BlockStep(s, depth);
      if k > 0 {
        assert p[k..] == s[k..][..n - k];
        BlockScanPrefix(s[k..], n - k, d);
      }
    }
  }

  lemma {:induction false} BlockScanEnd(s: string, depth: nat)
    ensures var r := BlockScan(s, depth); r.closed ==> s[r.len - 1] == '/'
    decreases |s|
  {
    if s != "" {
      if StartsWith2(s, '/', '*') { BlockScanEnd(s[2..], depth + 1); }
      else if StartsWith2(s, '*', '/') { if depth > 1 { BlockScanEnd(s[2..], depth - 1); } }
      else { BlockScanEnd(s[1..], depth); }
    }
  }

  /** Characters the literal scan takes in its next turn; 0 when the literal closes there. */
  function LiteralStep(s: string, escapes: bool): (k: nat)
    requires s != ""
    ensures k <= |s|
  {
    if escapes && s[0] == '\\' && |s| > 1 then 2
    else if s[0] != '\'' then 1
    else if |s| > 1 && s[1] == '\'' then 2
    else 0
  }

  lemma LiteralUnfold(s: string, escapes: bool)
    requires s != ""
    ensures var k := LiteralStep(s, escapes);
            LiteralScan(s, escapes) == if k == 0 then Scan(1, true) else LiteralScan(s[k..], escapes).Skip(k)
  {
  }

  lemma {:induction false} LiteralScanPrefix(s: string, n: nat, escapes: bool)
    requires n <= |s|
    ensures LiteralScan(s, escapes) == Scan(n, true) <==>
            LiteralScan(s[..n], escapes) == Scan(n, true) && (n == |s| || s[n] != '\'')
    decreases |s|
  {
    hide LiteralScan;
    if n >= 1 {
      var p := s[..n];
      LiteralUnfold(s, escapes);
      LiteralUnfold(p, escapes);
      var k := LiteralStep(s, escapes);
      if 0 < k <= n {
        assert p[k..] == s[k..][..n - k];
        LiteralScanPrefix(s[k..], n - k, escapes);
      }
      if k == 2 && n == 1 {
        assert p[1..] == "";
        assert !LiteralScan("", escapes).closed;
      }
    }
  }

  lemma TagLengthPrefix(s: string, n: nat)
    requires s != "" && s[0] == '$' && 1 <= n <= |s|
    ensures 0 < TagLength(s) <= n ==> TagLength(s[..n]) == TagLength(s)
    ensures 0 < TagLength(s[..n]) ==> TagLength(s) == TagLength(s[..n])
  {
    IdentRunPrefix(s[1..], n - 1);
    assert s[1..][..n - 1] == s[..n][1..];
  }

  lemma {:induction false} IdentRunPrefix(s: string, n: nat)
    requires n <= |s|
    ensures IdentRun(s[..n]) == if IdentRun(s) <= n then IdentRun(s) else n
  {
    if n > 0 && IsIdentChar(s[0]) {
      assert s[..n][1..] == s[1..][..n - 1];
      IdentRunPrefix(s[1..], n - 1);
    }
  }

  lemma TagScanPrefix(s: string, n: nat, tag: string)
    requires n <= |s| && tag != ""
    ensures TagScan(s, tag) == Scan(n, true) <==> TagScan(s[..n], tag) == Scan(n, true)
  {
    forall k: nat | k + |tag| <= n ensures OccursAt(s[..n], tag, k) <==> OccursAt(s, tag, k) {
      assert s[..n][k..] == s[k..n] && s[k..n] <= s[k..];
    }
    TagScanIsFirst(s, tag);
    TagScanIsFirst(s[..n], tag);
  }

  lemma NextBlock(s: string, t: string)
    requires StartsWith2(s, '/', '*') && t <= s && t != ""
    ensures (ClosedBlock(t) || (t == s && OpenBlock(t))) <==> |t| == BlockScan(s, 0).len
  {
    BlockScanPrefix(s, |t|, 0);
    assert t == s[..|t|];
    assert |t| == |s| ==> t == s;
  }

  lemma NextLiteral(s: string, t: string, escapes: bool)
    requires t <= s && t != "" && s[0] == '\''
    ensures (|| (ClosedLiteral(t, escapes) && (t == s || s[|t|] != '\''))
             || (t == s && OpenLiteral(t, escapes))) <==>
            |t| == LiteralScan(s[1..], escapes).len + 1
  {
    LiteralScanPrefix(s[1..], |t| - 1, escapes);
    assert s[1..][..|t| - 1] == t[1..];
    assert |t| == |s| ==> t == s;
  }

  lemma NextDollar(s: string, t: string)
    requires OpensDollar(s) && t <= s && t != ""
    ensures (ClosedDollar(t) || (t == s && OpenDollar(t))) <==>
            |t| == TagLength(s) + TagScan(s[TagLength(s)..], s[..TagLength(s)]).len
  {
    var n, k := |t|, TagLength(s);
    TagLengthPrefix(s, n);
    assert t == s[..n];
    assert |t| == |s| ==> t == s;
    if k <= n {
      TagScanPrefix(s[k..], n - k, s[..k]);
      assert s[k..][..n - k] == s[k..n] && s[..n][k..] == s[k..n] && s[..n][..k] == s[..k];
    }
  }

  predicate IsNext(before: string, s: string, t: Token)
    requires s != ""
  {
    var (kind, scan) := NextToken(before, s);
    t.kind == kind && |t.text| == scan.len
  }

  lemma NextQuoted(before: string, s: string, t: Token)
    requires s != "" && t.text <= s && t.text != ""
    requires t.kind.BlockComment? || t.kind.Literal?
    ensures ValidToken(before, t, s[|t.text|..]) <==> IsNext(before, s, t)
  {
    assert s[|t.text|..] == "" <==> t.text == s;
    if t.kind.BlockComment? {
      if StartsWith2(s, '/', '*') { NextBlock(s, t.text); }
    } else {
      if s[0] == '\'' { NextLiteral(s, t.text, t.kind.escapes); }
    }
  }

  lemma NextDollarQuote(before: string, s: string, t: Token)
    requires s != "" && t.text <= s && t.text != "" && t.kind.DollarQuote?
    ensures ValidToken(before, t, s[|t.text|..]) <==> IsNext(before, s, t)
  {
    var n := |t.text|;
    assert s[n..] == "" <==> t.text == s;
    if s[0] == '$' {
      TagLengthPrefix(s, n);
      assert s[..n] == t.text;
      if OpensDollar(s) { NextDollar(s, t.text); }
    }
  }

  /** The token the lexer finds is the token the grammar allows there, and no other is. */
  lemma NextTokenIsValid(before: string, s: string, t: Token)
    requires s != "" && t.text <= s && t.text != ""
    ensures ValidToken(before, t, s[|t.text|..]) <==> IsNext(before, s, t)
  {
    var n := |t.text|;
    var after := s[n..];
    assert s == t.text + after;
    match t.kind
    case Plain =>
    case Cut =>
    case LineComment => assert '\n' !in t.text ==> LineLength(s) >= n;
    case DollarQuote => NextDollarQuote(before, s, t);
    case _ => NextQuoted(before, s, t);
  }

  lemma ValidTokenNonempty(before: string, t: Token, after: string)
    requires ValidToken(before, t, after)
    ensures t.text != ""
    ensures t.kind != Plain && t.kind != Cut ==>
              t.text[0] == '-' || t.text[0] == '/' || t.text[0] == '\'' || t.text[0] == '$'
    ensures t.kind == Plain ==> |t.text| == 1
  {
  }

  lemma {:induction false} LexIsWellFormed(before: string, s: string)
    ensures WellFormed(before, Lex(before, s), "")
    decreases |s|
  {
    if s != "" {
      var (kind, scan) := NextToken(before, s);
      var n := scan.len;
      LexIsWellFormed(before + s[..n], s[n..]);
      NextTokenIsValid(before, s, Token(kind, s[..n]));
      assert Print(Lex(before, s)[1..]) + "" == s[n..];
    }
  }

  lemma {:induction false} WellFormedIsLexed(before: string, toks: seq<Token>)
    requires WellFormed(before, toks, "")
    ensures Lex(before, Print(toks)) == toks
    decreases |toks|
  {
    if toks != [] {
      var s, t, rest := Print(toks), toks[0], Print(toks[1..]);
      ValidTokenNonempty(before, t, rest + "");
      assert s[|t.text|..] == rest == rest + "" && s[..|t.text|] == t.text;
      NextTokenIsValid(before, s, t);
      WellFormedIsLexed(before + t.text, toks[1..]);
    }
  }

  /** Print and lex are inverse: a token list is well formed exactly when it is what its own
      text lexes to. In particular no script has two tokenisations. */
  lemma WellFormedIffLexed(before: string, toks: seq<Token>)
    ensures WellFormed(before, toks, "") <==> Lex(before, Print(toks)) == toks
  {
    LexIsWellFormed(before, Print(toks));
    if WellFormed(before, toks, "") { WellFormedIsLexed(before, toks); }
  }

  lemma {:induction false} WellFormedAppend(before: string, a: seq<Token>, b: seq<Token>, after: string)
    ensures WellFormed(before, a + b, after) <==>
            WellFormed(before, a, Print(b) + after) && WellFormed(before + Print(a), b, after)
    decreases |a|
  {
    if a == [] {
      assert a + b == b && before + Print(a) == before;
    } else {
      assert (a + b)[1..] == a[1..] + b;
      PrintAppend(a[1..], b);
      assert Print(a[1..]) + (Print(b) + after) == Print(a[1..] + b) + after;
      WellFormedAppend(before + a[0].text, a[1..], b, after);
      assert before + a[0].text + Print(a[1..]) == before + Print(a);
    }
  }

  /** Only the look-behind of the text before matters. */
  lemma {:induction false} WellFormedLook(before: string, before': string, toks: seq<Token>, after: string)
    requires LookBehind(before) == LookBehind(before')
    requires WellFormed(before, toks, after)
    ensures WellFormed(before', toks, after)
    decreases |toks|
  {
    if toks != [] {
      LookBehindAppend(before, before', toks[0].text);
      WellFormedLook(before + toks[0].text, before' + toks[0].text, toks[1..], after);
    }
  }

  // ----- What may follow a token can be weakened -----

  /** Replacing the following text `x` by `y` joins no token with what comes after it. */
  predicate Softer(x: string, y: string) {
    || x == y
    || (x != "" && (y == "" || y[0] == ';' || y[0] == '\n' || (y[0] == x[0] && !IsIdentChar(x[0]))))
  }

  lemma {:induction false} IdentRunSofter(p: string, x: string, y: string)
    requires Softer(x, y) && x != y
    requires IdentRun(p + x) == |p + x| || (p + x)[IdentRun(p + x)] != '$'
    ensures IdentRun(p + y) == |p + y| || (p + y)[IdentRun(p + y)] != '$'
  {
    if p == "" {
      assert p + x == x && p + y == y;
    } else if IsIdentChar(p[0]) {
      assert (p + x)[1..] == p[1..] + x && (p + y)[1..] == p[1..] + y;
      IdentRunSofter(p[1..], x, y);
    }
  }

  lemma ValidTokenSofter(before: string, t: Token, p: string, x: string, y: string)
    requires ValidToken(before, t, p + x)
    requires Softer(x, y)
    requires t.kind != LineComment
    ensures ValidToken(before, t, p + y)
  {
    if x != y {
      if p == "" { assert p + x == x && p + y == y; }
      if t.kind == Plain && t.text[0] == '$' {
        assert (t.text + (p + x))[1..] == p + x && (t.text + (p + y))[1..] == p + y;
        IdentRunSofter(p, x, y);
      }
    }
  }

  predicate NoComments(toks: seq<Token>) {
    forall i | 0 <= i < |toks| :: toks[i].kind != LineComment
  }

  lemma {:induction false} WellFormedSofter(before: string, toks: seq<Token>, x: string, y: string)
    requires WellFormed(before, toks, x)
    requires Softer(x, y) && NoComments(toks)
    ensures WellFormed(before, toks, y)
    decreases |toks|
  {
    if toks != [] {
      ValidTokenSofter(before, toks[0], Print(toks[1..]), x, y);
      WellFormedSofter(before + toks[0].text, toks[1..], x, y);
    }
  }
}
