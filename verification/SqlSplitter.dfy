/**
 The migration runner's statement splitter: index-driven loops over the script that copy
 into a builder and flush it into the output. Each loop is proved against the token grammar
 of `SqlTokens`, so the laws of `SqlStatements` hold of what the code returns.
 */
module SqlSplitter {
  import opened GoStrings
  import opened SqlTokens
  import opened SqlStatements

  /** The quote at `start` opens an `E'...'` literal: the E must stand alone. */
  predicate IsEscapeLiteral(script: string, start: nat)
    requires start < |script|
    ensures IsEscapeLiteral(script, start) == LookBehind(script[..start]).escape
  {
    start != 0 &&
    var prev := script[start - 1];
    (prev == 'E' || prev == 'e') && (start - 1 == 0 || !IsIdentChar(script[start - 2]))
  }

  lemma Advance(script: string, i: nat, n: nat)
    requires i + n <= |script|
    ensures script[i..][n..] == script[i + n..]
    ensures script[i..][..n] == script[i..i + n]
  {
  }

  /** Writing the next `n` characters of the script to the builder. */
  lemma Extend(b: string, script: string, start: nat, i: nat, n: nat)
    requires start <= i && i + n <= |script|
    ensures (b + script[start..i]) + script[i..i + n] == b + script[start..i + n]
  {
    Assoc(b, script[start..i], script[i..i + n]);
    assert script[start..i] + script[i..i + n] == script[start..i + n];
  }

  lemma Write(b: string, script: string, start: nat, i: nat)
    requires start <= i < |script|
    ensures (b + script[start..i]) + [script[i]] == b + script[start..i + 1]
  {
    Extend(b, script, start, i, 1);
    assert [script[i]] == script[i..i + 1];
  }

  predicate At(script: string, i: nat, c: char, d: char) {
    i + 1 < |script| && script[i] == c && script[i + 1] == d
  }

  lemma BlockTurn(script: string, i: nat, depth: nat)
    requires i < |script|
    ensures BlockScan(script[i..], depth) ==
            if At(script, i, '/', '*') then BlockScan(script[i + 2..], depth + 1).Skip(2)
            else if At(script, i, '*', '/') then
              if depth <= 1 then Scan(2, true) else BlockScan(script[i + 2..], depth - 1).Skip(2)
            else BlockScan(script[i + 1..], depth).Skip(1)
  {
    Advance(script, i, 1);
    if i + 1 < |script| { Advance(script, i, 2); }
  }

  /** Copies a block comment verbatim; comments nest, and an unterminated one takes the rest. */
  method CopyBlockComment(b: string, script: string, start: nat) returns (b': string, i: nat)
    requires At(script, start, '/', '*')
    ensures i == start + BlockScan(script[start..], 0).len <= |script|
    ensures b' == b + script[start..i]
  {
    hide BlockScan;
    var depth := 0;
    b', i := b, start;
    while i < |script|
      invariant start <= i <= |script|
      invariant 0 <= depth && (depth == 0 ==> i == start)
      invariant b' == b + script[start..i]
      invariant BlockScan(script[start..], 0) == BlockScan(script[i..], depth).Skip(i - start)
      decreases |script| - i
    {
      BlockTurn(script, i, depth);
      if script[i] == '/' && i + 1 < |script| && script[i + 1] == '*' {
        Extend(b, script, start, i, 2);
        depth := depth + 1;
        b' := b' + script[i..i + 2];
        i := i + 2;
      } else if script[i] == '*' && i + 1 < |script| && script[i + 1] == '/' {
        Extend(b, script, start, i, 2);
        depth := depth - 1;
        b' := b' + script[i..i + 2];
        i := i + 2;
        if depth == 0 {
          return;
        }
      } else {
        Write(b, script, start, i);
        b' := b' + [script[i]];
        i := i + 1;
      }
    }
  }

  lemma LiteralTurn(script: string, i: nat, escapes: bool)
    requires i < |script|
    ensures LiteralScan(script[i..], escapes) ==
            if escapes && script[i] == '\\' && i + 1 < |script| then LiteralScan(script[i + 2..], escapes).Skip(2)
            else if script[i] != '\'' then LiteralScan(script[i + 1..], escapes).Skip(1)
            else if At(script, i, '\'', '\'') then LiteralScan(script[i + 2..], escapes).Skip(2)
            else Scan(1, true)
  {
    Advance(script, i, 1);
    if i + 1 < |script| { Advance(script, i, 2); }
  }

  /** Copies one literal verbatim: a doubled quote stays inside, and in an escape literal a
      backslash hides the character after it. */
  method CopyStringLiteral(b: string, script: string, start: nat) returns (b': string, i: nat)
    requires start < |script| && script[start] == '\''
    ensures i == start + 1 + LiteralScan(script[start + 1..], LookBehind(script[..start]).escape).len <= |script|
    ensures b' == b + script[start..i]
  {
    hide LiteralScan, LookBehind, IsEscapeLiteral;
    var escapes := IsEscapeLiteral(script, start);
    i := start;
    b' := b + [script[i]];
    i := i + 1;
    while i < |script|
      invariant start < i <= |script|
      invariant b' == b + script[start..i]
      invariant LiteralScan(script[start + 1..], escapes) == LiteralScan(script[i..], escapes).Skip(i - start - 1)
      decreases |script| - i
    {
      LiteralTurn(script, i, escapes);
      Write(b, script, start, i);
      var c := script[i];
      if escapes && c == '\\' && i + 1 < |script| {
        Write(b, script, start, i + 1);
        b' := b' + [c];
        b' := b' + [script[i + 1]];
        i := i + 2;
        continue;
      }
      b' := b' + [c];
      i := i + 1;
      if c == '\'' {
        if i < |script| && script[i] == '\'' {
          Write(b, script, start, i);
          b' := b' + [script[i]];
          i := i + 1;
          continue;
        }
        return;
      }
    }
  }

  lemma IdentTurn(script: string, i: nat)
    requires i < |script|
    ensures IdentRun(script[i..]) == if IsIdentChar(script[i]) then 1 + IdentRun(script[i + 1..]) else 0
  {
    Advance(script, i, 1);
  }

  /** The opening dollar-quote tag at `start`; a positional parameter such as `$1` is none. */
  method DollarQuoteTag(script: string, start: nat) returns (tag: string, ok: bool)
    requires start < |script| && script[start] == '$'
    ensures ok <==> OpensDollar(script[start..])
    ensures ok ==> tag == script[start..][..TagLength(script[start..])]
  {
    hide IdentRun;
    var i := start + 1;
    while i < |script| && IsIdentChar(script[i])
      invariant start < i <= |script|
      invariant IdentRun(script[start + 1..]) == i - start - 1 + IdentRun(script[i..])
    {
      IdentTurn(script, i);
      i := i + 1;
    }
    if i < |script| { IdentTurn(script, i); }
    Advance(script, start, 1);
    if i < |script| && script[i] == '$' {
      Advance(script, start, i + 1 - start);
      return script[start..i + 1], true;
    }
    return "", false;
  }

  /** `strings.Index`: the first occurrence of `tag`, or -1. */
  method Index(s: string, tag: string) returns (k: int)
    requires tag != ""
    ensures k >= 0 ==> TagScan(s, tag) == Scan(k + |tag|, true)
    ensures k < 0 ==> !TagScan(s, tag).closed
  {
    k := 0;
    while k + |tag| <= |s|
      invariant 0 <= k <= |s|
      invariant TagScan(s, tag) == TagScan(s[k..], tag).Skip(k)
    {
      Advance(s, k, |tag|);
      if s[k..k + |tag|] == tag {
        return;
      }
      assert !(tag <= s[k..]);
      Advance(s, k, 1);
      k := k + 1;
    }
    TooShort(s[k..], tag);
    k := -1;
  }

  lemma {:induction false} TooShort(s: string, tag: string)
    requires |s| < |tag|
    ensures !TagScan(s, tag).closed
  {
    if s != "" { TooShort(s[1..], tag); }
  }

  /** Copies a dollar-quoted body verbatim through its own closing tag. */
  method CopyDollarQuoted(b: string, script: string, start: nat, tag: string) returns (b': string, i: nat)
    requires start < |script| && OpensDollar(script[start..])
    requires tag == script[start..][..TagLength(script[start..])]
    ensures i == start + |tag| + TagScan(script[start..][|tag|..], tag).len <= |script|
    ensures b' == b + script[start..i]
  {
    var bodyStart := start + |tag|;
    Advance(script, start, |tag|);
    var end := Index(script[bodyStart..], tag);
    if end < 0 {
      return b + script[start..], |script|;
    }
    var stop := bodyStart + end + |tag|;
    return b + script[start..stop], stop;
  }

  // ----- The main loop -----

  /** Statements still to come when `b` is already in the builder and `toks` are ahead. */
  ghost function Finish(b: string, toks: seq<Token>): seq<string> {
    var k := FirstCut(toks);
    Flush(b + Print(Kept(toks[..k]))) + if k < |toks| then Statements(toks[k + 1..]) else []
  }

  lemma FinishCut(b: string, rest: seq<Token>)
    ensures Finish(b, [Token(Cut, ";")] + rest) == Flush(b) + Finish("", rest)
  {
    hide Flush;
    var toks := [Token(Cut, ";")] + rest;
    var k := FirstCut(rest);
    assert toks[..0] == [] && toks[1..] == rest;
    assert Kept([]) == [] && b + Print([]) == b;
    assert "" + Print(Kept(rest[..k])) == Print(Kept(rest[..k]));
  }

  lemma FinishToken(b: string, t: Token, rest: seq<Token>)
    requires t.kind != Cut
    ensures Finish(b, [t] + rest) == Finish(if t.kind == LineComment then b else b + t.text, rest)
  {
    hide Flush, Statements;
    var toks := [t] + rest;
    var k := FirstCut(rest);
    var seg, tail := toks[..k + 1], rest[..k];
    assert toks[1..] == rest && FirstCut(toks) == k + 1;
    assert seg[0] == t && seg[1..] == tail;
    assert k < |rest| ==> toks[k + 2..] == rest[k + 1..];
    if t.kind != LineComment {
      KeptFirst(seg);
      Assoc(b, t.text, Print(Kept(tail)));
    }
  }

  /** Statements still to come at position `i` of the script. */
  ghost function Ahead(b: string, script: string, i: nat): seq<string>
    requires i <= |script|
  {
    Finish(b, Lex(script[..i], script[i..]))
  }

  /** What one turn of the main loop has to do: find the token and treat it by its kind. */
  lemma Turn(b: string, script: string, i: nat)
    requires i < |script|
    ensures var (kind, scan) := NextToken(script[..i], script[i..]);
            var j := i + scan.len;
            && j <= |script|
            && Ahead(b, script, i) ==
               if kind == Cut then Flush(b) + Ahead("", script, j)
               else Ahead(if kind == LineComment then b else b + script[i..j], script, j)
  {
    hide Finish, Flush, NextToken;
    var (kind, scan) := NextToken(script[..i], script[i..]);
    var n := scan.len;
    Advance(script, i, n);
    assert script[..i] + script[i..i + n] == script[..i + n];
    var rest := Lex(script[..i + n], script[i + n..]);
    assert Lex(script[..i], script[i..]) == [Token(kind, script[i..i + n])] + rest;
    if kind == Cut {
      assert script[i..i + n] == ";";
      FinishCut(b, rest);
    } else {
      FinishToken(b, Token(kind, script[i..i + n]), rest);
    }
  }

  /** The token at `i`, told by the characters at `i`. */
  lemma Dispatch(script: string, i: nat)
    requires i < |script|
    ensures NextToken(script[..i], script[i..]) ==
            if At(script, i, '-', '-') then (LineComment, Scan(LineLength(script[i..]), true))
            else if At(script, i, '/', '*') then (BlockComment, BlockScan(script[i..], 0))
            else if script[i] == '\'' then
              var escapes := LookBehind(script[..i]).escape;
              (Literal(escapes), LiteralScan(script[i + 1..], escapes).Skip(1))
            else if script[i] == '$' && OpensDollar(script[i..]) then
              var n := TagLength(script[i..]);
              (DollarQuote, TagScan(script[i..][n..], script[i..][..n]).Skip(n))
            else if script[i] == ';' then (Cut, Scan(1, true))
            else (Plain, Scan(1, true))
  {
    hide LineLength, BlockScan, LiteralScan, TagScan, TagLength, LookBehind;
    Advance(script, i, 1);
  }

  lemma Start(script: string)
    ensures Ahead("", script, 0) == Split(script)
  {
    var toks := Lex("", script);
    assert script[..0] == "" && script[0..] == script;
    var t := Print(Kept(toks[..FirstCut(toks)]));
    assert "" + t == t;
  }

  lemma Stop(b: string, script: string)
    ensures Ahead(b, script, |script|) == Flush(b)
  {
    hide Flush;
    assert script[|script|..] == "" && b + Print(Kept([])) == b;
    assert Kept([]) == [];
    assert Flush(b) + [] == Flush(b);
  }

  method FlushInto(out: seq<string>, b: string) returns (out': seq<string>)
    ensures out' == out + Flush(b)
  {
    var stmt := TrimSpace(b);
    if stmt != "" {
      return out + [stmt];
    }
    return out;
  }

  /** Splits a script into statements. The result is what the token grammar says, no
      statement is blank or untrimmed, there are at most as many as separators plus one, and
      joining them with semicolons and splitting again changes nothing. */
  method SplitStatements(script: string) returns (out: seq<string>)
    ensures out == Split(script)
    ensures forall t | t in out :: t != "" && TrimSpace(t) == t
    ensures |out| <= multiset(script)[';'] + 1
    ensures Split(Join(out)) == out
  {
    hide Ahead, Split, BlockScan, LiteralScan, TagScan, LookBehind, Flush, LineLength, NextToken, OpensDollar, TagLength;
    out := [];
    var b := "";
    var i := 0;
    Start(script);
    while i < |script|
      invariant 0 <= i <= |script|
      invariant out + Ahead(b, script, i) == Split(script)
      decreases |script| - i
    {
      Turn(b, script, i);
      Dispatch(script, i);
      var c := script[i];
      assert [c] == script[i..i + 1];
      if c == '-' && i + 1 < |script| && script[i + 1] == '-' {
        i := SkipLine(script, i);
      } else if c == '/' && i + 1 < |script| && script[i + 1] == '*' {
        b, i := CopyBlockComment(b, script, i);
      } else if c == '\'' {
        b, i := CopyStringLiteral(b, script, i);
      } else if c == '$' {
        var tag, ok := DollarQuoteTag(script, i);
        if !ok {
          b := b + [c];
          i := i + 1;
          continue;
        }
        b, i := CopyDollarQuoted(b, script, i, tag);
      } else if c == ';' {
        assert out + (Flush(b) + Ahead("", script, i + 1)) == (out + Flush(b)) + Ahead("", script, i + 1);
        out := FlushInto(out, b);
        b := "";
        i := i + 1;
      } else {
        b := b + [c];
        i := i + 1;
      }
    }
    Stop(b, script);
    out := FlushInto(out, b);
    OutputLaws(script);
  }

  /** The contract the splitter's fuzz test states. */
  lemma OutputLaws(script: string)
    ensures forall t | t in Split(script) :: t != "" && TrimSpace(t) == t
    ensures |Split(script)| <= multiset(script)[';'] + 1
    ensures Split(Join(Split(script))) == Split(script)
  {
    hide ValidToken, NextToken, WellFormed, Statements, Solid, Sealed, TrimSpace;
    LexIsWellFormed("", script);
    StatementsAreBounded("", Lex("", script));
    StatementsAreCanonical("", Lex("", script));
    SplitFixedPoint(script);
  }

  /** A line comment is dropped up to its newline, which stays. */
  method SkipLine(script: string, start: nat) returns (i: nat)
    requires start <= |script|
    ensures i == start + LineLength(script[start..]) <= |script|
  {
    i := start;
    while i < |script| && script[i] != '\n'
      invariant start <= i <= |script|
      invariant LineLength(script[start..]) == i - start + LineLength(script[i..])
    {
      Advance(script, i, 1);
      i := i + 1;
    }
  }
}
