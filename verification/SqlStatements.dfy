/**
 Statements of a tokenised script, and the fixed-point law of splitting: joining the
 statements with semicolons and splitting again gives the same statements.
 */
module SqlStatements {
  import opened GoStrings
  import opened SqlTokens

  // ----- What a token list says the statements are -----

  /** Line comments are dropped; every other token keeps its text. */
  function Kept(toks: seq<Token>): (r: seq<Token>)
    ensures NoComments(r)
    ensures (forall i | 0 <= i < |toks| :: toks[i].kind != Cut) ==> Solid(r)
  {
    if toks == [] then []
    else if toks[0].kind == LineComment then Kept(toks[1..])
    else [toks[0]] + Kept(toks[1..])
  }

  lemma KeptFirst(toks: seq<Token>)
    requires toks != [] && toks[0].kind != LineComment
    ensures Print(Kept(toks)) == toks[0].text + Print(Kept(toks[1..]))
  {
    assert Kept(toks)[1..] == Kept(toks[1..]);
  }

  /** Position of the first separator, or the length when there is none. */
  function FirstCut(toks: seq<Token>): (k: nat)
    ensures k <= |toks|
    ensures k < |toks| ==> toks[k].kind == Cut
    ensures forall i :: 0 <= i < k ==> toks[i].kind != Cut
  {
    if toks == [] || toks[0].kind == Cut then 0 else 1 + FirstCut(toks[1..])
  }

  /** One statement's text becomes at most one statement: trimmed, and dropped when blank. */
  function Flush(text: string): seq<string> {
    var t := TrimSpace(text);
    if t == "" then [] else [t]
  }

  /** The statements: cut at the separators, drop line comments, trim, drop blanks. */
  function Statements(toks: seq<Token>): seq<string>
    decreases |toks|
  {
    var k := FirstCut(toks);
    Flush(Print(Kept(toks[..k]))) + if k < |toks| then Statements(toks[k + 1..]) else []
  }

  /** The statements of a script. */
  function Split(script: string): seq<string> {
    Statements(Lex("", script))
  }

  /** `strings.Join(statements, ";")`. */
  function Join(statements: seq<string>): string {
    if statements == [] then ""
    else if |statements| == 1 then statements[0]
    else statements[0] + ";" + Join(statements[1..])
  }

  // ----- Dropping line comments keeps a token list well formed -----

  predicate StartsLine(toks: seq<Token>) {
    toks != [] && toks[0] == Token(Plain, "\n")
  }

  lemma AfterLineComment(before: string, toks: seq<Token>, after: string)
    requires toks != [] && toks[0].kind == LineComment && WellFormed(before, toks, after)
    ensures toks[1..] == [] || StartsLine(toks[1..])
    ensures toks[1..] == [] ==> after == "" || after[0] == '\n'
  {
    var rest := toks[1..];
    if rest != [] {
      ValidTokenNonempty(before + toks[0].text, rest[0], Print(rest[1..]) + after);
      assert rest[0].text[0] == (Print(rest) + after)[0] == '\n';
    } else {
      assert Print(rest) + after == after;
    }
  }

  lemma DropCommentSofter(before: string, toks: seq<Token>, after: string)
    requires toks != [] && toks[0].kind == LineComment && WellFormed(before, toks, after)
    ensures Softer(Print(toks) + after, Print(Kept(toks)) + after)
  {
    AfterLineComment(before, toks, after);
    var rest := toks[1..];
    assert Print(toks) + after != "" by { ValidTokenNonempty(before, toks[0], Print(rest) + after); }
    if rest == [] {
      assert Print(Kept(rest)) + after == after;
    } else {
      assert Kept(rest)[0] == rest[0];
    }
  }

  /** With the comments dropped, the text that follows a token is only softer. */
  lemma {:induction false} KeptSofter(before: string, toks: seq<Token>, after: string)
    returns (p: string, x: string, y: string)
    requires WellFormed(before, toks, after)
    ensures Print(toks) + after == p + x
    ensures Print(Kept(toks)) + after == p + y
    ensures Softer(x, y)
    decreases |toks|
  {
    hide ValidToken;
    if toks == [] {
      p, x, y := "", after, after;
    } else if toks[0].kind == LineComment {
      p, x, y := "", Print(toks) + after, Print(Kept(toks)) + after;
      DropCommentSofter(before, toks, after);
      assert p + x == x && p + y == y;
    } else {
      var t, rest := toks[0].text, toks[1..];
      var q;
      q, x, y := KeptSofter(before + t, rest, after);
      p := t + q;
      assert Kept(toks)[1..] == Kept(rest);
      Assoc(t, Print(rest), after);
      Assoc(t, Print(Kept(rest)), after);
      Assoc(t, q, x);
      Assoc(t, q, y);
    }
  }

  lemma {:induction false} KeptWellFormed(before: string, before': string, toks: seq<Token>, after: string)
    requires WellFormed(before, toks, after)
    requires toks == [] || StartsLine(toks) || LookBehind(before) == LookBehind(before')
    ensures WellFormed(before', Kept(toks), after)
    decreases |toks|
  {
    if toks == [] {
    } else if toks[0].kind == LineComment {
      AfterLineComment(before, toks, after);
      KeptWellFormed(before + toks[0].text, before', toks[1..], after);
    } else {
      var t := toks[0];
      var p, x, y := KeptSofter(before + t.text, toks[1..], after);
      ValidTokenSofter(before, t, p, x, y);
      if LookBehind(before) == LookBehind(before') {
        LookBehindAppend(before, before', t.text);
      } else {
        LookBehindFresh(before, '\n');
        LookBehindFresh(before', '\n');
      }
      KeptWellFormed(before + t.text, before' + t.text, toks[1..], after);
      assert Kept(toks)[1..] == Kept(toks[1..]);
    }
  }

  // ----- Trimming a statement trims its tokens -----

  predicate Solid(toks: seq<Token>) {
    forall i | 0 <= i < |toks| :: toks[i].kind != LineComment && toks[i].kind != Cut
  }

  predicate IsBlank(t: Token) {
    t.kind == Plain && |t.text| == 1 && IsSpace(t.text[0])
  }

  function DropSpaces(toks: seq<Token>): (r: seq<Token>)
    ensures Solid(toks) ==> Solid(r)
  {
    if toks != [] && IsBlank(toks[0]) then DropSpaces(toks[1..]) else toks
  }

  lemma {:induction false} DropSpacesWellFormed(before: string, toks: seq<Token>, after: string)
    requires WellFormed(before, toks, after) && LookBehind(before) == FRESH
    ensures WellFormed("", DropSpaces(toks), after)
    decreases |toks|
  {
    hide ValidToken;
    if toks != [] && IsBlank(toks[0]) {
      assert toks[0].text == [toks[0].text[0]];
      LookBehindFresh(before, toks[0].text[0]);
      DropSpacesWellFormed(before + toks[0].text, toks[1..], after);
    } else {
      WellFormedLook(before, "", toks, after);
    }
  }

  /** A statement's tokens begin with a space only where they are one. */
  predicate Visible(toks: seq<Token>) {
    forall i | 0 <= i < |toks| :: IsBlank(toks[i]) || (toks[i].text != "" && !IsSpace(toks[i].text[0]))
  }

  lemma {:induction false} SolidIsVisible(before: string, toks: seq<Token>, after: string)
    requires WellFormed(before, toks, after) && Solid(toks)
    ensures Visible(toks)
    decreases |toks|
  {
    hide ValidToken;
    if toks != [] {
      ValidTokenNonempty(before, toks[0], Print(toks[1..]) + after);
      SolidIsVisible(before + toks[0].text, toks[1..], after);
      assert forall i | 1 <= i < |toks| :: toks[i] == toks[1..][i - 1];
    }
  }

  lemma {:induction false} DropSpacesTrims(toks: seq<Token>)
    requires Visible(toks)
    ensures Print(DropSpaces(toks)) == TrimLeft(Print(toks))
  {
    hide TrimLeft, IsSpace;
    if toks != [] {
      var t, rest := toks[0], toks[1..];
      if IsBlank(t) {
        assert t.text == [t.text[0]];
        DropSpacesTrims(rest);
        TrimLeftSpace(t.text[0], Print(rest));
      } else {
        TrimLeftSolid(t.text, Print(rest));
      }
    }
  }

  lemma TrimLeftSpace(c: char, s: string)
    requires IsSpace(c)
    ensures TrimLeft([c] + s) == TrimLeft(s)
  {
    assert ([c] + s)[1..] == s;
  }

  lemma TrimLeftSolid(t: string, s: string)
    requires t != "" && !IsSpace(t[0])
    ensures TrimLeft(t + s) == t + s
  {
  }

  lemma OpenBlockPrefix(t: string, n: nat)
    requires OpenBlock(t) && 2 <= n <= |t|
    ensures OpenBlock(t[..n])
  {
    var m := BlockScan(t[..n], 0).len;
    BlockScanPrefix(t[..n], m, 0);
    BlockScanPrefix(t, m, 0);
    assert t[..n][..m] == t[..m];
  }

  lemma OpenLiteralPrefix(t: string, n: nat, escapes: bool)
    requires OpenLiteral(t, escapes) && 1 <= n <= |t| && (n == |t| || t[n] != '\'')
    ensures OpenLiteral(t[..n], escapes)
  {
    var s := t[1..];
    var m := LiteralScan(s[..n - 1], escapes).len;
    LiteralScanPrefix(s[..n - 1], m, escapes);
    LiteralScanPrefix(s, m, escapes);
    assert s[..n - 1][..m] == s[..m];
    assert t[..n][1..] == s[..n - 1];
  }

  lemma OpenDollarPrefix(t: string, n: nat)
    requires OpenDollar(t) && TagLength(t) <= n <= |t|
    ensures OpenDollar(t[..n])
  {
    var k := TagLength(t);
    TagLengthPrefix(t, n);
    var s, tag := t[k..], t[..k];
    var m := TagScan(s[..n - k], tag).len;
    TagScanPrefix(s[..n - k], m, tag);
    TagScanPrefix(s, m, tag);
    assert s[..n - k][..m] == s[..m];
    assert t[..n][k..] == s[..n - k] && t[..n][..k] == tag;
  }

  /** A closed dollar quote ends in its tag's dollar. */
  lemma ClosedDollarEnd(t: string)
    requires ClosedDollar(t)
    ensures t[|t| - 1] == '$'
  {
    var n := TagLength(t);
    var s, tag := t[n..], t[..n];
    TagScanIsFirst(s, tag);
    assert s[|s| - n..][n - 1] == tag[n - 1];
  }

  /** An unterminated construct with its trailing spaces trimmed is still one. */
  lemma TrimOpenToken(t: Token)
    requires t.kind.BlockComment? || t.kind.Literal? || t.kind.DollarQuote?
    requires t.kind.BlockComment? ==> OpenBlock(t.text)
    requires t.kind.Literal? ==> OpenLiteral(t.text, t.kind.escapes)
    requires t.kind.DollarQuote? ==> OpenDollar(t.text)
    ensures var r := TrimRight(t.text);
            && r != "" && r[0] == t.text[0]
            && (t.kind.BlockComment? ==> OpenBlock(r))
            && (t.kind.Literal? ==> OpenLiteral(r, t.kind.escapes))
            && (t.kind.DollarQuote? ==> OpenDollar(r))
  {
    var n := |TrimRight(t.text)|;
    match t.kind
    case BlockComment => OpenBlockPrefix(t.text, n);
    case Literal(e) => OpenLiteralPrefix(t.text, n, e);
    case DollarQuote => OpenDollarPrefix(t.text, n);
  }

  predicate IsOpen(t: Token) {
    match t.kind
    case BlockComment => !ClosedBlock(t.text)
    case Literal(e) => !ClosedLiteral(t.text, e)
    case DollarQuote => !ClosedDollar(t.text)
    case _ => false
  }

  /** A token that is not open does not end in a space, so trimming never touches it. */
  lemma ClosedEndsSolid(before: string, t: Token, after: string)
    requires ValidToken(before, t, after) && !IsOpen(t)
    requires t.kind != LineComment && !IsBlank(t)
    ensures TrimRight(t.text) == t.text
  {
    match t.kind
    case BlockComment => BlockScanEnd(t.text, 0);
    case DollarQuote => ClosedDollarEnd(t.text);
    case _ =>
  }

  lemma TrimLastToken(before: string, t: Token, after: string)
    requires ValidToken(before, t, after)
    requires t.kind != LineComment && t.kind != Cut && !IsBlank(t)
    ensures ValidToken(before, Token(t.kind, TrimRight(t.text)), after)
    ensures Softer(t.text + after, TrimRight(t.text) + after)
    ensures TrimRight(t.text) != ""
  {
    ValidTokenNonempty(before, t, after);
    if IsOpen(t) {
      TrimOpenToken(t);
    } else {
      ClosedEndsSolid(before, t, after);
      assert Token(t.kind, t.text) == t;
    }
  }

  function TrimTail(toks: seq<Token>): (r: seq<Token>)
    ensures Solid(toks) ==> Solid(r)
  {
    if toks == [] then []
    else
      var n := |toks| - 1;
      if IsBlank(toks[n]) then TrimTail(toks[..n])
      else toks[..n] + [Token(toks[n].kind, TrimRight(toks[n].text))]
  }

  lemma WellFormedSnoc(before: string, init: seq<Token>, last: Token, after: string)
    ensures WellFormed(before, init + [last], after) <==>
            && WellFormed(before, init, last.text + after)
            && ValidToken(before + Print(init), last, after)
    ensures Print(init + [last]) == Print(init) + last.text
  {
    WellFormedAppend(before, init, [last], after);
    PrintAppend(init, [last]);
    assert Print([last]) == last.text;
    assert Print([]) + after == after;
  }

  lemma {:induction false} TrimTailWellFormed(before: string, toks: seq<Token>, after: string)
    requires WellFormed(before, toks, after) && Solid(toks)
    requires after == "" || after == ";"
    ensures WellFormed(before, TrimTail(toks), after)
    decreases |toks|
  {
    hide ValidToken, TrimRight, WellFormed;
    if toks != [] {
      var n := |toks| - 1;
      var init, last := toks[..n], toks[n];
      assert toks == init + [last];
      WellFormedSnoc(before, init, last, after);
      if IsBlank(last) {
        WellFormedSofter(before, init, last.text + after, after);
        TrimTailWellFormed(before, init, after);
      } else {
        var last' := Token(last.kind, TrimRight(last.text));
        TrimLastToken(before + Print(init), last, after);
        WellFormedSofter(before, init, last.text + after, last'.text + after);
        WellFormedSnoc(before, init, last', after);
      }
    }
  }

  lemma {:induction false} TrimTailTrims(before: string, toks: seq<Token>, after: string)
    requires WellFormed(before, toks, after) && Solid(toks)
    ensures Print(TrimTail(toks)) == TrimRight(Print(toks))
    decreases |toks|
  {
    hide ValidToken, WellFormed;
    if toks != [] {
      var n := |toks| - 1;
      var init, last := toks[..n], toks[n];
      assert toks == init + [last];
      WellFormedSnoc(before, init, last, after);
      TrimRightAppend(Print(init), last.text);
      if IsBlank(last) {
        TrimTailTrims(before, init, last.text + after);
        assert TrimRight(last.text) == "";
      } else {
        TrimLastToken(before + Print(init), last, after);
        WellFormedSnoc(before, init, Token(last.kind, TrimRight(last.text)), after);
      }
    }
  }

  // ----- The fixed point -----

  /** A non-blank trimmed text that lexes to one statement's tokens and nothing else. */
  predicate Atomic(t: string) {
    t != "" && TrimSpace(t) == t && Solid(Lex("", t))
  }

  /** `t` leaves nothing open: a separator right after it is seen as one. */
  predicate Sealed(t: string) {
    WellFormed("", Lex("", t), ";")
  }

  predicate Canonical(statements: seq<string>) {
    && (forall t | t in statements :: Atomic(t))
    && (forall i | 0 <= i < |statements| - 1 :: Sealed(statements[i]))
  }

  /** One statement's tokens, comments dropped and trimmed, stand on their own. */
  lemma StatementTokens(before: string, seg: seq<Token>, after: string) returns (toks: seq<Token>)
    requires WellFormed(before, seg, after) && LookBehind(before) == FRESH
    requires forall i | 0 <= i < |seg| :: seg[i].kind != Cut
    requires after == "" || after[0] == ';'
    ensures WellFormed("", toks, if after == "" then "" else ";") && Solid(toks)
    ensures Print(toks) == TrimSpace(Print(Kept(seg)))
  {
    hide ValidToken;
    var a := if after == "" then "" else ";";
    var kept := Kept(seg);
    KeptWellFormed(before, before, seg, after);
    WellFormedSofter(before, kept, after, a);
    DropSpacesWellFormed(before, kept, a);
    SolidIsVisible(before, kept, a);
    DropSpacesTrims(kept);
    TrimTailWellFormed("", DropSpaces(kept), a);
    TrimTailTrims("", DropSpaces(kept), a);
    toks := TrimTail(DropSpaces(kept));
  }

  lemma FlushIsAtomic(before: string, seg: seq<Token>, after: string)
    requires WellFormed(before, seg, after) && LookBehind(before) == FRESH
    requires forall i | 0 <= i < |seg| :: seg[i].kind != Cut
    requires after == "" || after[0] == ';'
    ensures var t := TrimSpace(Print(Kept(seg)));
            t != "" ==> Atomic(t) && (after != "" ==> Sealed(t))
  {
    hide ValidToken, NextToken, Kept, WellFormed, TrimSpace, Print;
    var toks := StatementTokens(before, seg, after);
    var t := Print(toks);
    WellFormedSofter("", toks, if after == "" then "" else ";", "");
    WellFormedIsLexed("", toks);
    TrimmedIsFixed(t);
  }

  lemma FlushCanonical(text: string, rest: seq<string>)
    requires var t := TrimSpace(text); t != "" ==> Atomic(t) && Sealed(t)
    requires Canonical(rest)
    ensures Canonical(Flush(text) + rest)
  {
    hide Atomic, Sealed;
    var l := Flush(text) + rest;
    if TrimSpace(text) == "" {
      assert l == rest;
    } else {
      forall i | 0 <= i < |l| - 1 ensures Sealed(l[i]) {
        if i > 0 { assert l[i] == rest[i - 1]; }
      }
    }
  }

  lemma CutAhead(before: string, toks: seq<Token>, k: nat)
    requires WellFormed(before, toks, "") && k < |toks| && toks[k].kind == Cut
    ensures WellFormed(before, toks[..k], ";" + Print(toks[k + 1..]))
    ensures WellFormed(before + Print(toks[..k]) + ";", toks[k + 1..], "")
    ensures LookBehind(before + Print(toks[..k]) + ";") == FRESH
  {
    var a, b := toks[..k], toks[k..];
    assert toks == a + b;
    WellFormedAppend(before, a, b, "");
    assert b[0].text == ";" && b[1..] == toks[k + 1..];
    assert Print(b) + "" == ";" + Print(toks[k + 1..]);
    LookBehindFresh(before + Print(a), ';');
  }

  /** The splitter's output is always canonical. */
  lemma {:induction false} StatementsAreCanonical(before: string, toks: seq<Token>)
    requires WellFormed(before, toks, "") && LookBehind(before) == FRESH
    ensures Canonical(Statements(toks))
    decreases |toks|
  {
    hide ValidToken, Atomic, Sealed, Kept, Canonical, TrimSpace;
    var k := FirstCut(toks);
    if k < |toks| {
      CutAhead(before, toks, k);
      FlushIsAtomic(before, toks[..k], ";" + Print(toks[k + 1..]));
      StatementsAreCanonical(before + Print(toks[..k]) + ";", toks[k + 1..]);
      FlushCanonical(Print(Kept(toks[..k])), Statements(toks[k + 1..]));
    } else {
      assert toks[..k] == toks;
      FlushIsAtomic(before, toks, "");
      OneIsCanonical(Print(Kept(toks)));
    }
  }

  lemma OneIsCanonical(text: string)
    requires var t := TrimSpace(text); t != "" ==> Atomic(t)
    ensures Canonical(Flush(text) + [])
  {
    hide Atomic, Sealed, TrimSpace;
  }

  lemma {:induction false} KeptOfSolid(toks: seq<Token>)
    requires NoComments(toks)
    ensures Kept(toks) == toks
  {
    if toks != [] { KeptOfSolid(toks[1..]); }
  }

  lemma StatementsOfSolid(x: seq<Token>)
    requires Solid(x)
    ensures Statements(x) == Flush(Print(x))
  {
    hide Flush, Kept;
    KeptOfSolid(x);
    assert FirstCut(x) == |x| && x[..|x|] == x;
  }

  lemma StatementsOfCut(x: seq<Token>, y: seq<Token>)
    requires Solid(x)
    ensures Statements(x + ([Token(Cut, ";")] + y)) == Flush(Print(x)) + Statements(y)
  {
    hide Flush, Kept, Print;
    KeptOfSolid(x);
    var toks := x + ([Token(Cut, ";")] + y);
    assert toks[|x|].kind == Cut;
    assert forall i | 0 <= i < |x| :: toks[i] == x[i];
    assert FirstCut(toks) == |x|;
    assert toks[..|x|] == x && toks[|x| + 1..] == y;
  }

  lemma LexFresh(before: string, t: string)
    requires LookBehind(before) == FRESH
    ensures Lex(before, t) == Lex("", t)
  {
    hide ValidToken, NextToken, LookBehind;
    assert LookBehind("") == FRESH by { LookBehindEmpty(); }
    LexIsWellFormed("", t);
    WellFormedLook("", before, Lex("", t), "");
    WellFormedIsLexed(before, Lex("", t));
  }

  lemma LookBehindEmpty()
    ensures LookBehind("") == FRESH
  {
  }

  lemma SplitEmpty(before: string)
    ensures Statements(Lex(before, "")) == []
  {
    StatementsOfSolid([]);
    assert TrimSpace("") == "";
  }

  lemma CanonicalTail(statements: seq<string>)
    requires statements != [] && Canonical(statements)
    ensures Canonical(statements[1..]) && Atomic(statements[0])
    ensures |statements| > 1 ==> Sealed(statements[0])
  {
    hide Atomic, Sealed;
    var u := statements[1..];
    forall i | 0 <= i < |u| - 1 ensures Sealed(u[i]) { assert u[i] == statements[i + 1]; }
  }

  /** Statements that stand on their own, all but the last sealed, come back from a join. */
  lemma {:induction false} JoinSplits(before: string, statements: seq<string>)
    requires Canonical(statements) && LookBehind(before) == FRESH
    ensures Statements(Lex(before, Join(statements))) == statements
    decreases |statements|
  {
    hide ValidToken, NextToken, Sealed, Statements, LookBehind, Canonical, WellFormed, Solid, TrimSpace, Print;
    if statements == [] {
      SplitEmpty(before);
    } else {
      CanonicalTail(statements);
      var t, u := statements[0], statements[1..];
      var x := Lex("", t);
      if u == [] {
        LexFresh(before, t);
        StatementsOfSolid(x);
      } else {
        StatementsOfCut(x, Lex(before + t + ";", Join(u)));
        JoinedTokens(before, t, Join(u));
        LookBehindFresh(before + t, ';');
        JoinSplits(before + t + ";", u);
      }
    }
  }

  lemma JoinedTokens(before: string, t: string, u: string)
    requires Solid(Lex("", t)) && Sealed(t) && LookBehind(before) == FRESH
    ensures Lex(before, t + ";" + u) ==
            Lex("", t) + ([Token(Cut, ";")] + Lex(before + t + ";", u))
  {
    hide NextToken;
    var x, y := Lex("", t), Lex(before + t + ";", u);
    var cut := Token(Cut, ";");
    var tail := [cut] + y;
    LexIsWellFormed(before + t + ";", u);
    assert tail[1..] == y && Print(tail) == ";" + u;
    assert WellFormed(before + t, tail, "");
    WellFormedSofter("", x, ";", ";" + u);
    WellFormedLook("", before, x, ";" + u);
    assert Print(tail) + "" == ";" + u;
    WellFormedAppend(before, x, tail, "");
    PrintAppend(x, tail);
    WellFormedIsLexed(before, x + tail);
    Assoc(t, ";", u);
  }

  /** Splitting is a fixed point: the statements, joined and split again, are themselves. */
  lemma SplitFixedPoint(script: string)
    ensures Split(Join(Split(script))) == Split(script)
  {
    LexIsWellFormed("", script);
    StatementsAreCanonical("", Lex("", script));
    JoinSplits("", Split(script));
  }

  /** The lists that survive a join are exactly the canonical ones. */
  lemma SurvivesJoinIffCanonical(statements: seq<string>)
    ensures Split(Join(statements)) == statements <==> Canonical(statements)
  {
    LexIsWellFormed("", Join(statements));
    StatementsAreCanonical("", Lex("", Join(statements)));
    if Canonical(statements) { JoinSplits("", statements); }
  }

  /** No statement is invented: there is at most one more than the script has semicolons. */
  lemma {:induction false} StatementsAreBounded(before: string, toks: seq<Token>)
    requires WellFormed(before, toks, "")
    ensures |Statements(toks)| <= multiset(Print(toks))[';'] + 1
    decreases |toks|
  {
    hide ValidToken, Kept;
    var k := FirstCut(toks);
    if k < |toks| {
      var a, b := toks[..k], toks[k + 1..];
      CutAhead(before, toks, k);
      StatementsAreBounded(before + Print(a) + ";", b);
      CutText(before, toks, k);
      assert multiset(Print(a) + (";" + Print(b))) == multiset(Print(a)) + multiset(";" + Print(b));
      assert |Flush(Print(Kept(a)))| <= 1;
    }
  }

  lemma CutText(before: string, toks: seq<Token>, k: nat)
    requires WellFormed(before, toks, "") && k < |toks| && toks[k].kind == Cut
    ensures Print(toks) == Print(toks[..k]) + (";" + Print(toks[k + 1..]))
  {
    var a, b := toks[..k], toks[k..];
    assert toks == a + b && b[1..] == toks[k + 1..];
    WellFormedAppend(before, a, b, "");
    PrintAppend(a, b);
  }
}
