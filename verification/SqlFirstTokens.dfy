/**
 What the splitter recognises, told by the constructs alone: which text opens which token, when
 a quote opens an escape literal, and that semicolons inside a construct never cut.
 */
module SqlFirstTokens {
  import opened GoStrings
  import opened SqlTokens
  import opened SqlStatements
  import opened SqlGrammar

  // ----- Standalone E -----

  /** A letter, a digit or an underscore. */
  predicate WordChar(c: char) {
    'a' <= c <= 'z' || 'A' <= c <= 'Z' || '0' <= c <= '9' || c == '_'
  }

  predicate EndsInWord(p: string) { p != "" && WordChar(p[|p| - 1]) }

  /** The text ends in an E of either case that no word runs into. */
  predicate EndsInLoneE(p: string) {
    p != "" && p[|p| - 1] in {'E', 'e'} && !EndsInWord(p[..|p| - 1])
  }

  lemma LoneEIsLookedUp(p: string)
    ensures LookBehind(p).escape <==> EndsInLoneE(p)
  {
  }

  // ----- The first token -----

  lemma FirstIs(before: string, s: string, t: Token)
    requires t.text != "" && t.text <= s && ValidToken(before, t, s[|t.text|..])
    ensures Lex(before, s) == [t] + Lex(before + t.text, s[|t.text|..])
  {
    hide ValidToken, NextToken;
    NextTokenIsValid(before, s, t);
    assert s[..|t.text|] == t.text;
  }

  lemma FirstOf(before: string, t: Token, rest: string)
    requires t.text != "" && ValidToken(before, t, rest)
    ensures Lex(before, t.text + rest) == [t] + Lex(before + t.text, rest)
  {
    hide ValidToken;
    assert (t.text + rest)[|t.text|..] == rest;
    FirstIs(before, t.text + rest, t);
  }

  /** After a lone E a quote opens an escape literal, elsewhere a plain one; it ends at the quote
      that closes its pieces. */
  lemma LiteralOpens(before: string, ps: seq<Piece>, rest: string)
    requires ValidPieces(ps, EndsInLoneE(before)) && (rest == "" || rest[0] != '\'')
    ensures Lex(before, LiteralText(ps) + rest) ==
            [Token(Literal(EndsInLoneE(before)), LiteralText(ps))] + Lex(before + LiteralText(ps), rest)
  {
    LoneEIsLookedUp(before);
    ClosedLiteralIffPieces(LiteralText(ps), EndsInLoneE(before));
    FirstOf(before, Token(Literal(EndsInLoneE(before)), LiteralText(ps)), rest);
  }

  /** A block comment is a whole tree of comments, whatever follows. */
  lemma CommentOpens(before: string, b: Body, rest: string)
    requires Unambiguous(b)
    ensures Lex(before, CommentText(b) + rest) ==
            [Token(BlockComment, CommentText(b))] + Lex(before + CommentText(b), rest)
  {
    ClosedBlockIffComment(CommentText(b));
    FirstOf(before, Token(BlockComment, CommentText(b)), rest);
  }

  /** A line comment goes to the end of its line. */
  lemma LineOpens(before: string, text: string, rest: string)
    requires '\n' !in text && (rest == "" || rest[0] == '\n')
    ensures Lex(before, "--" + text + rest) ==
            [Token(LineComment, "--" + text)] + Lex(before + ("--" + text), rest)
  {
    FirstOf(before, Token(LineComment, "--" + text), rest);
  }

  /** A dollar quote goes through the first repetition of its tag, whatever follows. */
  lemma DollarOpens(before: string, name: string, body: string, rest: string)
    requires forall i | 0 <= i < |name| :: WordChar(name[i])
    requires var tag := "$" + name + "$"; forall k: nat | k < |body| :: !OccursAt(body + tag, tag, k)
    ensures var t := "$" + name + "$" + (body + ("$" + name + "$"));
            Lex(before, t + rest) == [Token(DollarQuote, t)] + Lex(before + t, rest)
  {
    var tag := "$" + name + "$";
    var t := tag + (body + tag);
    assert IsTag(tag) by { assert forall i | 1 <= i < |tag| - 1 :: tag[i] == name[i - 1]; }
    assert Tagged(t, tag, body);
    TaggedIsClosed(t, tag, body);
    hide ClosedDollar, IsTag, Tagged;
    FirstOf(before, Token(DollarQuote, t), rest);
  }

  /** A semicolon anywhere else is a separator. */
  lemma SemicolonCuts(before: string, rest: string)
    ensures Lex(before, ";" + rest) == [Token(Cut, ";")] + Lex(before + ";", rest)
  {
    FirstOf(before, Token(Cut, ";"), rest);
  }

  /** Text that opens none of the constructs is read one character at a time. */
  lemma TextIsPlain(before: string, c: char, rest: string)
    requires c !in {';', '\'', '$'}
    requires !(c == '-' && rest != "" && rest[0] == '-') && !(c == '/' && rest != "" && rest[0] == '*')
    ensures Lex(before, [c] + rest) == [Token(Plain, [c])] + Lex(before + [c], rest)
  {
    FirstOf(before, Token(Plain, [c]), rest);
  }

  /** A dollar that no second dollar after a name answers, as in `$1`, is text. */
  lemma DollarIsText(before: string, name: string, rest: string)
    requires (forall i | 0 <= i < |name| :: WordChar(name[i])) && (rest == "" || (!WordChar(rest[0]) && rest[0] != '$'))
    ensures Lex(before, "$" + (name + rest)) == [Token(Plain, "$")] + Lex(before + "$", name + rest)
  {
    var s := "$" + (name + rest);
    NoTagOpens(name, rest);
    FirstOf(before, Token(Plain, "$"), name + rest);
  }

  lemma NoTagOpens(name: string, rest: string)
    requires (forall i | 0 <= i < |name| :: WordChar(name[i])) && (rest == "" || (!WordChar(rest[0]) && rest[0] != '$'))
    ensures !OpensDollar("$" + (name + rest))
  {
    var s := "$" + (name + rest);
    assert s[1..] == name + rest;
    if rest == "" {
      assert IdentRun(name) == |name| by { IdentRunAll(name); }
      assert name + rest == name;
    } else {
      IdentRunIs(name + rest, |name|);
    }
  }

  lemma {:induction false} IdentRunAll(s: string)
    requires forall i | 0 <= i < |s| :: WordChar(s[i])
    ensures IdentRun(s) == |s|
  {
    if s != "" { IdentRunAll(s[1..]); }
  }

  /** A scan that met its closing marker has read a closed construct. */
  lemma ClosedScanIsClosed(before: string, s: string)
    requires s != ""
    ensures var scan := NextToken(before, s).1;
            && (s[0] == '\'' && scan.closed ==> ClosedLiteral(s[..scan.len], EndsInLoneE(before)))
            && ("/*" <= s && scan.closed ==> ClosedBlock(s[..scan.len]))
  {
    LoneEIsLookedUp(before);
    var scan := NextToken(before, s).1;
    if s[0] == '\'' {
      LiteralScanPrefix(s[1..], scan.len - 1, EndsInLoneE(before));
      assert s[1..][..scan.len - 1] == s[..scan.len][1..];
    } else if "/*" <= s {
      BlockScanPrefix(s, scan.len, 0);
    }
  }

  /** A construct that is opened and never closed takes the rest of the script. */
  lemma UnclosedTakesTheRest(before: string, s: string)
    requires s != ""
    requires || (s[0] == '\'' && forall n | 0 <= n <= |s| :: !ClosedLiteral(s[..n], EndsInLoneE(before)))
             || ("/*" <= s && forall n | 0 <= n <= |s| :: !ClosedBlock(s[..n]))
    ensures |Lex(before, s)| == 1 && Lex(before, s)[0].text == s
  {
    ClosedScanIsClosed(before, s);
    hide NextToken, ClosedLiteral, ClosedBlock;
    assert !NextToken(before, s).1.closed;
    assert s[..|s|] == s && s[|s|..] == "";
  }

  lemma UnclosedDollarTakesTheRest(before: string, name: string, rest: string)
    requires forall i | 0 <= i < |name| :: WordChar(name[i])
    requires forall k: nat :: !OccursAt(rest, "$" + name + "$", k)
    ensures var s := "$" + name + "$" + rest; Lex(before, s) == [Token(DollarQuote, s)]
  {
    var tag := "$" + name + "$";
    var s := tag + rest;
    assert IsTag(tag) by { assert forall i | 1 <= i < |tag| - 1 :: tag[i] == name[i - 1]; }
    OpeningOfTag(tag, rest);
    assert s[..|tag|] == tag && s[|tag|..] == rest;
    TagScanIsFirst(rest, tag);
    assert OpenDollar(s);
    hide OpenDollar, IsTag;
    FirstOf(before, Token(DollarQuote, s), "");
    assert s + "" == s;
  }

  // ----- A construct never cuts its statement -----

  /** Text without any character that could open a construct or cut. */
  predicate Simple(s: string) { forall i | 0 <= i < |s| :: s[i] !in {';', '\'', '$', '-', '/'} }

  function PlainTokens(s: string): seq<Token> {
    if s == "" then [] else [Token(Plain, [s[0]])] + PlainTokens(s[1..])
  }

  lemma {:induction false} PlainIsWellFormed(before: string, s: string, after: string)
    requires Simple(s)
    ensures WellFormed(before, PlainTokens(s), after) && Print(PlainTokens(s)) == s && Solid(PlainTokens(s))
    decreases |s|
  {
    if s != "" {
      var toks := PlainTokens(s);
      PlainIsWellFormed(before + [s[0]], s[1..], after);
      assert toks[1..] == PlainTokens(s[1..]);
      assert forall i | 0 < i < |toks| :: toks[i] == PlainTokens(s[1..])[i - 1];
    }
  }

  function Around(head: string, t: Token, tail: string): seq<Token> {
    PlainTokens(head) + ([t] + PlainTokens(tail))
  }

  predicate IsQuoted(t: Token) { t.kind.Literal? || t.kind.BlockComment? || t.kind.DollarQuote? }

  lemma TokenThenText(before: string, t: Token, tail: string, after: string)
    requires Simple(tail) && ValidToken(before, t, tail + after)
    ensures var toks := [t] + PlainTokens(tail); WellFormed(before, toks, after) && Print(toks) == t.text + tail
  {
    hide ValidToken, Simple;
    PlainIsWellFormed(before + t.text, tail, after);
    assert ([t] + PlainTokens(tail))[1..] == PlainTokens(tail);
  }

  lemma AroundIsWellFormed(head: string, t: Token, tail: string, after: string)
    requires Simple(head) && Simple(tail) && ValidToken(head, t, tail + after)
    ensures var toks := Around(head, t, tail); WellFormed("", toks, after) && Print(toks) == head + t.text + tail
  {
    hide ValidToken, Simple, WellFormed, Print, PlainTokens, Solid;
    var ph, pt := PlainTokens(head), [t] + PlainTokens(tail);
    TokenThenText(head, t, tail, after);
    PlainIsWellFormed("", head, Print(pt) + after);
    assert "" + head == head;
    WellFormedAppend("", ph, pt, after);
    PrintAppend(ph, pt);
    Assoc(head, t.text, tail);
  }

  lemma AroundIsSolid(head: string, t: Token, tail: string)
    requires Simple(head) && Simple(tail) && IsQuoted(t)
    ensures Solid(Around(head, t, tail))
  {
    PlainIsWellFormed("", head, "");
    PlainIsWellFormed("", tail, "");
    hide Simple, PlainTokens, WellFormed, Print;
  }

  /** Of a statement's tokens nothing is cut, and a separator after them is seen. */
  lemma TokensStayWhole(s: string, toks: seq<Token>, more: string)
    requires Solid(toks) && Print(toks) == s && WellFormed("", toks, "") && WellFormed("", toks, ";")
    ensures Split(s) == Flush(s) && Split(s + ";" + more) == Flush(s) + Split(more)
  {
    hide WellFormed, Solid, LookBehind, Flush, Statements, Print;
    WellFormedIsLexed("", toks);
    StatementsOfSolid(toks);
    LookBehindEmpty();
    assert "" + s == s;
    JoinedTokens("", s, more);
    StatementsOfCut(toks, Lex(s + ";", more));
    LookBehindFresh(s, ';');
    LexFresh(s + ";", more);
  }

  /** Of a construct inside simple text nothing is cut, and a separator after it is seen. */
  lemma QuotedStaysWhole(s: string, head: string, t: Token, tail: string, more: string)
    requires Simple(head) && Simple(tail) && IsQuoted(t) && s == head + t.text + tail
    requires t.text != "" && !IsSpace(t.text[0])
    requires ValidToken(head, t, tail) && ValidToken(head, t, tail + ";")
    ensures Split(s) == [TrimSpace(s)] && Split(s + ";" + more) == [TrimSpace(s)] + Split(more)
  {
    hide ValidToken, Simple, Around, Split, IsQuoted, Solid, TrimSpace, Flush;
    var toks := Around(head, t, tail);
    assert tail + "" == tail;
    AroundIsWellFormed(head, t, tail, "");
    AroundIsWellFormed(head, t, tail, ";");
    AroundIsSolid(head, t, tail);
    TokensStayWhole(s, toks, more);
    VisibleFlush(head, t.text, tail);
  }

  lemma VisibleFlush(head: string, t: string, tail: string)
    requires t != "" && !IsSpace(t[0])
    ensures Flush(head + t + tail) == [TrimSpace(head + t + tail)]
  {
    var s := head + t + tail;
    assert s[|head|] == t[0];
    VisibleIsKept(s, |head|);
  }

  lemma {:induction false} VisibleIsKept(s: string, i: nat)
    requires i < |s| && !IsSpace(s[i])
    ensures TrimSpace(s) != ""
    decreases |s|
  {
    hide IsSpace;
    if IsSpace(s[0]) {
      assert s[1..][i - 1] == s[i];
      VisibleIsKept(s[1..], i - 1);
    }
  }

  lemma ClosedIsValid(before: string, t: string, after: string)
    ensures ClosedBlock(t) ==> ValidToken(before, Token(BlockComment, t), after)
    ensures ClosedDollar(t) ==> ValidToken(before, Token(DollarQuote, t), after)
  {
    hide ClosedBlock, ClosedDollar;
  }

  /** A literal, escape or plain, stays one statement whatever semicolons and, in an escape
      literal, escaped quotes it holds. */
  lemma LiteralStaysWhole(s: string, head: string, ps: seq<Piece>, tail: string, more: string)
    requires Simple(head) && Simple(tail) && ValidPieces(ps, EndsInLoneE(head))
    requires s == head + LiteralText(ps) + tail
    ensures Split(s) == [TrimSpace(s)] && Split(s + ";" + more) == [TrimSpace(s)] + Split(more)
  {
    var t := Token(Literal(EndsInLoneE(head)), LiteralText(ps));
    assert ValidToken(head, t, tail) && ValidToken(head, t, tail + ";") by {
      LoneEIsLookedUp(head);
      ClosedLiteralIffPieces(LiteralText(ps), EndsInLoneE(head));
      hide LookBehind, ClosedLiteral, EndsInLoneE;
    }
    assert t.text[0] == '\'';
    hide ValidToken, Split, Simple, LiteralText, EndsInLoneE, TrimSpace;
    QuotedStaysWhole(s, head, t, tail, more);
  }

  /** So does a block comment. */
  lemma CommentStaysWhole(s: string, head: string, b: Body, tail: string, more: string)
    requires Simple(head) && Simple(tail) && Unambiguous(b)
    requires s == head + CommentText(b) + tail
    ensures Split(s) == [TrimSpace(s)] && Split(s + ";" + more) == [TrimSpace(s)] + Split(more)
  {
    var t := Token(BlockComment, CommentText(b));
    assert t.text[0] == '/';
    ClosedBlockIffComment(CommentText(b));
    ClosedIsValid(head, t.text, tail);
    ClosedIsValid(head, t.text, tail + ";");
    hide ClosedBlock, ClosedDollar, ValidToken, Split, Simple, CommentText, TrimSpace, Unambiguous;
    QuotedStaysWhole(s, head, t, tail, more);
  }

  /** And so does a dollar quote. */
  lemma DollarStaysWhole(s: string, head: string, t: string, tag: string, body: string, tail: string, more: string)
    requires Simple(head) && Simple(tail) && Tagged(t, tag, body)
    requires s == head + t + tail
    ensures Split(s) == [TrimSpace(s)] && Split(s + ";" + more) == [TrimSpace(s)] + Split(more)
  {
    var q := Token(DollarQuote, t);
    TaggedIsClosed(t, tag, body);
    assert t[0] == '$';
    ClosedIsValid(head, t, tail);
    ClosedIsValid(head, t, tail + ";");
    hide ClosedBlock, ClosedDollar, ValidToken, Split, Simple, Tagged, TrimSpace;
    QuotedStaysWhole(s, head, q, tail, more);
  }
}
