/**
 The quoted constructs as grammars, independent of the scans: a block comment is a tree of
 comments, a literal is a list of characters, doubled quotes and backslash pairs. The scans
 accept exactly the printed forms.
 */
module SqlGrammar {
  import opened SqlTokens

  // ----- Nested block comments -----

  /** What stands between the markers of one comment. */
  datatype Body = End | Char(c: char, rest: Body) | Nested(inner: Body, rest: Body)

  function BodyText(b: Body): string {
    match b
    case End => ""
    case Char(c, rest) => [c] + BodyText(rest)
    case Nested(inner, rest) => "/*" + BodyText(inner) + "*/" + BodyText(rest)
  }

  /** No single character forms a marker with the text that follows it. */
  predicate Unambiguous(b: Body) {
    match b
    case End => true
    case Char(c, rest) =>
      var next := (BodyText(rest) + "*/")[0];
      && !(c == '/' && next == '*') && !(c == '*' && next == '/')
      && Unambiguous(rest)
    case Nested(inner, rest) => Unambiguous(inner) && Unambiguous(rest)
  }

  function CommentText(b: Body): string { "/*" + BodyText(b) + "*/" }

  /** What the scan does after the body of an enclosing comment and its closing marker. */
  function AfterBody(rest: string, depth: nat, n: nat): Scan
    requires depth >= 1
  {
    if depth == 1 then Scan(n, true) else BlockScan(rest, depth - 1).Skip(n)
  }

  lemma NestedText(a: string, b: string, z: string)
    ensures ("/*" + a + "*/" + b) + z == "/*" + (a + "*/" + (b + z))
  {
    var x, y := ("/*" + a + "*/" + b) + z, "/*" + (a + "*/" + (b + z));
    assert |x| == |y|;
    assert x[..2 + |a| + 2] == y[..2 + |a| + 2];
    assert x[2 + |a| + 2..] == b + z && y[2 + |a| + 2..] == b + z;
  }

  lemma {:induction false} ScanBody(b: Body, rest: string, depth: nat)
    requires Unambiguous(b) && depth >= 1
    ensures BlockScan(BodyText(b) + "*/" + rest, depth) == AfterBody(rest, depth, |BodyText(b)| + 2)
    decreases b
  {
    hide BlockScan;
    var s := BodyText(b) + "*/" + rest;
    BlockUnfold(s, depth);
    match b
    case End =>
      assert s[2..] == rest;
    case Char(c, b') =>
      var t := BodyText(b') + "*/" + rest;
      assert s[1..] == t && t[0] == (BodyText(b') + "*/")[0] == s[1];
      ScanBody(b', rest, depth);
    case Nested(inner, b') =>
      var t := BodyText(b') + "*/" + rest;
      NestedText(BodyText(inner), BodyText(b'), "*/" + rest);
      Assoc(BodyText(b), "*/", rest);
      Assoc(BodyText(b'), "*/", rest);
      assert s[2..] == BodyText(inner) + "*/" + t;
      ScanBody(inner, t, depth + 1);
      ScanBody(b', rest, depth);
  }

  /** From depth d + 1 the scan first leaves the innermost comment, then goes on from d. */
  lemma {:induction false} ScanLevels(s: string, depth: nat, d: nat)
    requires depth >= 1 && d >= 1 && BlockScan(s, depth + d).closed
    ensures var r := BlockScan(s, depth);
            r.closed && BlockScan(s, depth + d) == BlockScan(s[r.len..], d).Skip(r.len)
    decreases |s|
  {
    hide BlockScan;
    assert s != "";
    BlockUnfold(s, depth);
    BlockUnfold(s, depth + d);
    var (k, e) := BlockStep(s, depth);
    if k > 0 {
      ScanLevels(s[k..], e, d);
      var n := BlockScan(s[k..], e).len;
      assert s[k..][n..] == s[k + n..];
    }
  }

  lemma CharBody(s: string, n: nat, rest: Body)
    requires 2 <= n <= |s| && Unambiguous(rest) && s[1..][..n - 1] == BodyText(rest) + "*/"
    requires !StartsWith2(s, '/', '*') && !StartsWith2(s, '*', '/')
    ensures Unambiguous(Char(s[0], rest)) && s[..n] == BodyText(Char(s[0], rest)) + "*/"
  {
    assert s[..n] == [s[0]] + s[1..][..n - 1];
    Assoc([s[0]], BodyText(rest), "*/");
    assert (BodyText(rest) + "*/")[0] == s[1..][..n - 1][0] == s[1];
  }

  lemma NestedBody(s: string, m: nat, n: nat, inner: Body, rest: Body)
    requires 2 <= m <= n <= |s| && StartsWith2(s, '/', '*')
    requires s[2..][..m - 2] == BodyText(inner) + "*/"
    requires s[m..][..n - m] == BodyText(rest) + "*/"
    ensures s[..n] == BodyText(Nested(inner, rest)) + "*/"
  {
    assert s[..n] == s[..2] + (s[2..][..m - 2] + s[m..][..n - m]);
    assert s[..2] == "/*";
    NestedText(BodyText(inner), BodyText(rest), "*/");
  }

  /** A closed scan has read a body and a closing marker. */
  lemma {:induction false} BodyOfScan(s: string) returns (b: Body)
    requires BlockScan(s, 1).closed
    ensures Unambiguous(b) && s[..BlockScan(s, 1).len] == BodyText(b) + "*/"
    decreases |s|
  {
    hide BlockScan, BodyText;
    var n := BlockScan(s, 1).len;
    BlockUnfold(s, 1);
    if StartsWith2(s, '/', '*') {
      ScanLevels(s[2..], 1, 1);
      var inner := BodyOfScan(s[2..]);
      var m := 2 + BlockScan(s[2..], 1).len;
      assert s[2..][m - 2..] == s[m..];
      var rest := BodyOfScan(s[m..]);
      b := Nested(inner, rest);
      NestedBody(s, m, n, inner, rest);
    } else if StartsWith2(s, '*', '/') {
      b := End;
      EndBody(s);
    } else {
      var rest := BodyOfScan(s[1..]);
      b := Char(s[0], rest);
      CharBody(s, n, rest);
    }
  }

  lemma EndBody(s: string)
    requires StartsWith2(s, '*', '/')
    ensures s[..2] == BodyText(End) + "*/"
  {
  }

  /** The closed block comments are exactly the printed comment trees. */
  lemma ClosedBlockIffComment(t: string)
    ensures ClosedBlock(t) <==> exists b :: Unambiguous(b) && t == CommentText(b)
  {
    if ClosedBlock(t) {
      BlockUnfold(t, 0);
      var b := BodyOfScan(t[2..]);
      assert t == t[..2] + t[2..] && t[2..][..|t| - 2] == t[2..];
      assert t == CommentText(b);
    }
    if b :| Unambiguous(b) && t == CommentText(b) {
      BlockUnfold(t, 0);
      assert t[2..] == BodyText(b) + "*/" + "";
      ScanBody(b, "", 1);
    }
  }

  // ----- String literals -----

  datatype Piece = Raw(c: char) | DoubledQuote | Escaped(c: char)

  function PieceText(p: Piece): string {
    match p
    case Raw(c) => [c]
    case DoubledQuote => "''"
    case Escaped(c) => ['\\', c]
  }

  /** A backslash is a piece of its own only in a plain literal. */
  predicate ValidPiece(p: Piece, escapes: bool) {
    match p
    case Raw(c) => c != '\'' && (escapes ==> c != '\\')
    case DoubledQuote => true
    case Escaped(_) => escapes
  }

  predicate ValidPieces(ps: seq<Piece>, escapes: bool) {
    forall i | 0 <= i < |ps| :: ValidPiece(ps[i], escapes)
  }

  function PiecesText(ps: seq<Piece>): string {
    if ps == [] then "" else PieceText(ps[0]) + PiecesText(ps[1..])
  }

  function LiteralText(ps: seq<Piece>): string { "'" + PiecesText(ps) + "'" }

  /** The scan takes one piece in one turn. */
  lemma StepPiece(p: Piece, s: string, escapes: bool)
    requires ValidPiece(p, escapes)
    ensures LiteralScan(PieceText(p) + s, escapes) == LiteralScan(s, escapes).Skip(|PieceText(p)|)
  {
    var t := PieceText(p) + s;
    assert t[|PieceText(p)|..] == s;
    LiteralUnfold(t, escapes);
  }

  lemma {:induction false} ScanPieces(ps: seq<Piece>, escapes: bool)
    requires ValidPieces(ps, escapes)
    ensures LiteralScan(PiecesText(ps) + "'", escapes) == Scan(|PiecesText(ps)| + 1, true)
  {
    if ps != [] {
      hide LiteralScan, PieceText;
      ScanPieces(ps[1..], escapes);
      StepPiece(ps[0], PiecesText(ps[1..]) + "'", escapes);
      Assoc(PieceText(ps[0]), PiecesText(ps[1..]), "'");
    }
  }

  lemma PieceOfStep(s: string, escapes: bool) returns (p: Piece)
    requires s != "" && LiteralStep(s, escapes) > 0
    requires !(escapes && s == "\\")
    ensures ValidPiece(p, escapes) && s[..LiteralStep(s, escapes)] == PieceText(p)
  {
    var k := LiteralStep(s, escapes);
    p := if k == 1 then Raw(s[0]) else if s[0] == '\'' then DoubledQuote else Escaped(s[1]);
  }

  lemma {:induction false} PiecesOfScan(s: string, escapes: bool) returns (ps: seq<Piece>)
    requires LiteralScan(s, escapes) == Scan(|s|, true)
    ensures ValidPieces(ps, escapes) && s == PiecesText(ps) + "'"
    decreases |s|
  {
    LiteralUnfold(s, escapes);
    var k := LiteralStep(s, escapes);
    if k == 0 {
      ps := [];
    } else {
      hide LiteralScan, LiteralStep, PieceText;
      var p := PieceOfStep(s, escapes);
      var rest := PiecesOfScan(s[k..], escapes);
      ps := [p] + rest;
      assert s == s[..k] + s[k..];
      assert ps[0] == p && ps[1..] == rest;
      Assoc(PieceText(p), PiecesText(rest), "'");
    }
  }

  /** The closed literals are exactly the printed lists of pieces. */
  lemma ClosedLiteralIffPieces(t: string, escapes: bool)
    ensures ClosedLiteral(t, escapes) <==> exists ps :: ValidPieces(ps, escapes) && t == LiteralText(ps)
  {
    if ClosedLiteral(t, escapes) {
      var ps := PiecesOfScan(t[1..], escapes);
      assert t == LiteralText(ps);
    }
    if ps :| ValidPieces(ps, escapes) && t == LiteralText(ps) {
      assert t[1..] == PiecesText(ps) + "'";
      ScanPieces(ps, escapes);
    }
  }

  // ----- Dollar quotes -----

  predicate IsTag(tag: string) {
    && |tag| >= 2 && tag[0] == '$' && tag[|tag| - 1] == '$'
    && forall i | 1 <= i < |tag| - 1 :: IsIdentChar(tag[i])
  }

  lemma {:induction false} IdentRunIs(s: string, n: nat)
    requires n < |s| && !IsIdentChar(s[n]) && forall i | 0 <= i < n :: IsIdentChar(s[i])
    ensures IdentRun(s) == n
  {
    if n > 0 { IdentRunIs(s[1..], n - 1); }
  }

  lemma {:induction false} IdentRunChars(s: string)
    ensures forall i | 0 <= i < IdentRun(s) :: IsIdentChar(s[i])
  {
    if s != "" && IsIdentChar(s[0]) {
      IdentRunChars(s[1..]);
      assert forall i | 1 <= i < IdentRun(s) :: s[i] == s[1..][i - 1];
    }
  }

  /** `t` is a tag, a body the tag does not occur in before its end, and the tag again. */
  predicate Tagged(t: string, tag: string, body: string) {
    && IsTag(tag) && t == tag + (body + tag)
    && forall k: nat | k < |body| :: !OccursAt(body + tag, tag, k)
  }

  lemma TagOfOpening(t: string)
    requires OpensDollar(t)
    ensures IsTag(t[..TagLength(t)])
  {
    var n := TagLength(t);
    IdentRunChars(t[1..]);
    assert forall i | 1 <= i < n - 1 :: t[..n][i] == t[1..][i - 1];
  }

  lemma OpeningOfTag(tag: string, s: string)
    requires IsTag(tag)
    ensures OpensDollar(tag + s) && TagLength(tag + s) == |tag|
  {
    var t, n := tag + s, |tag|;
    assert forall i | 0 <= i < n - 1 :: t[1..][i] == tag[i + 1];
    IdentRunIs(t[1..], n - 2);
  }

  lemma TaggedIsClosed(t: string, tag: string, body: string)
    requires Tagged(t, tag, body)
    ensures ClosedDollar(t)
  {
    hide TagLength, TagScan;
    var s := body + tag;
    OpeningOfTag(tag, s);
    assert t[..|tag|] == tag && t[|tag|..] == s;
    TagScanIsFirst(s, tag);
    assert OccursAt(s, tag, |body|) by { assert s[|body|..] == tag; }
  }

  lemma ClosedIsTagged(t: string)
    requires ClosedDollar(t)
    ensures exists tag, body :: Tagged(t, tag, body)
  {
    hide TagLength, TagScan;
    var n := TagLength(t);
    var tag, s := t[..n], t[n..];
    TagOfOpening(t);
    TagScanIsFirst(s, tag);
    var body := s[..|s| - n];
    assert s == body + tag by { assert s[|s| - n..] == tag; }
    assert Tagged(t, tag, body);
  }

  /** The closed dollar quotes are exactly the tagged bodies. */
  lemma ClosedDollarIffTagged(t: string)
    ensures ClosedDollar(t) <==> exists tag, body :: Tagged(t, tag, body)
  {
    if ClosedDollar(t) { ClosedIsTagged(t); }
    if tag, body :| Tagged(t, tag, body) { TaggedIsClosed(t, tag, body); }
  }
}
