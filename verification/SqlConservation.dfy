/**
 What the splitter keeps: of all characters of a script it loses only separators, line
 comments and white space around statements.
 */
module SqlConservation {
  import opened GoStrings
  import opened SqlTokens
  import opened SqlStatements

  /** A text without its white space. */
  function Squeeze(s: string): string {
    if s == "" then "" else (if IsSpace(s[0]) then "" else [s[0]]) + Squeeze(s[1..])
  }

  function Flat(statements: seq<string>): string {
    if statements == [] then "" else statements[0] + Flat(statements[1..])
  }

  /** The text of the tokens other than separators and line comments. */
  function Substance(toks: seq<Token>): string {
    if toks == [] then ""
    else (if toks[0].kind == Cut || toks[0].kind == LineComment then "" else toks[0].text) + Substance(toks[1..])
  }

  lemma {:induction false} SqueezeAppend(a: string, b: string)
    ensures Squeeze(a + b) == Squeeze(a) + Squeeze(b)
  {
    hide IsSpace;
    if a == "" {
      assert a + b == b;
    } else {
      assert (a + b)[1..] == a[1..] + b;
      SqueezeAppend(a[1..], b);
    }
  }

  lemma {:induction false} SqueezeTrimLeft(s: string)
    ensures Squeeze(TrimLeft(s)) == Squeeze(s)
  {
    hide IsSpace;
    if s != "" && IsSpace(s[0]) { SqueezeTrimLeft(s[1..]); }
  }

  lemma {:induction false} SqueezeTrimRight(s: string)
    ensures Squeeze(TrimRight(s)) == Squeeze(s)
  {
    hide IsSpace;
    if s != "" && IsSpace(s[|s| - 1]) {
      var n := |s| - 1;
      SqueezeTrimRight(s[..n]);
      assert s == s[..n] + [s[n]];
      SqueezeAppend(s[..n], [s[n]]);
      assert Squeeze([s[n]]) == "";
    }
  }

  lemma {:induction false} FlatAppend(a: seq<string>, b: seq<string>)
    ensures Flat(a + b) == Flat(a) + Flat(b)
  {
    if a == [] {
      assert a + b == b;
    } else {
      assert (a + b)[1..] == a[1..] + b;
      FlatAppend(a[1..], b);
    }
  }

  lemma FlushKeeps(text: string)
    ensures Squeeze(Flat(Flush(text))) == Squeeze(text)
  {
    hide IsSpace;
    SqueezeTrimLeft(text);
    SqueezeTrimRight(TrimLeft(text));
    assert Flat([TrimSpace(text)]) == TrimSpace(text);
  }

  lemma {:induction false} SubstanceToCut(toks: seq<Token>)
    ensures var k := FirstCut(toks);
            Substance(toks) == Print(Kept(toks[..k])) + if k < |toks| then Substance(toks[k + 1..]) else ""
  {
    if toks != [] && toks[0].kind != Cut {
      var k, rest := FirstCut(toks), toks[1..];
      SubstanceToCut(rest);
      assert toks[..k][1..] == rest[..k - 1];
      assert k < |toks| ==> toks[k + 1..] == rest[k..];
      if toks[0].kind == LineComment {
        assert Kept(toks[..k]) == Kept(rest[..k - 1]);
      } else {
        KeptFirst(toks[..k]);
      }
    }
  }

  lemma {:induction false} StatementsKeep(toks: seq<Token>)
    ensures Squeeze(Flat(Statements(toks))) == Squeeze(Substance(toks))
    decreases |toks|
  {
    hide Flush, IsSpace, Kept, FirstCut;
    var k := FirstCut(toks);
    var text := Print(Kept(toks[..k]));
    var rest := if k < |toks| then Statements(toks[k + 1..]) else [];
    var after := if k < |toks| then Substance(toks[k + 1..]) else "";
    FlushKeeps(text);
    SubstanceToCut(toks);
    if k < |toks| { StatementsKeep(toks[k + 1..]); }
    FlatAppend(Flush(text), rest);
    SqueezeAppend(Flat(Flush(text)), Flat(rest));
    SqueezeAppend(text, after);
  }

  /** For every script, white space apart, the statements one after another are exactly the
      script without its separators and line comments: nothing else is lost, added or moved. */
  lemma NothingElseIsLost(script: string)
    ensures Squeeze(Flat(Split(script))) == Squeeze(Substance(Lex("", script)))
    ensures Print(Lex("", script)) == script
  {
    StatementsKeep(Lex("", script));
  }
}
