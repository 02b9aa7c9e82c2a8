/** nova-fmt (tools/nova_fmt.cpp:37-114): tokens written out again, and what lexing gives back. */
module Formatter {
  import opened Lexer

  /** should_space_between */
  predicate SpaceBetween(prev: TokenType, current: TokenType) {
    if prev == Eof then false
    else if prev == LParen || prev == LBracket then false
    else if current == RParen || current == RBracket then false
    else if current == Comma || current == Semicolon then false
    else if prev == Comma then true
    else if prev == Dot || current == Dot then false
    else true
  }

  /** The variables of format_tokens. */
  datatype Pen = Pen(indent: nat, newLine: bool, prev: TokenType)

  const Fresh := Pen(0, true, Eof)

  function Indentation(n: nat): string {
    if n == 0 then [] else "    " + Indentation(n - 1)
  }

  function Break(pen: Pen): string {
    if pen.newLine then [] else "\n"
  }

  function Outer(pen: Pen): nat {
    if pen.indent > 0 then pen.indent - 1 else 0
  }

  /** What is written before, for, and after one token, and the variables then. */
  function Before(typ: TokenType, pen: Pen): string {
    match typ
    case RBrace => Break(pen) + Indentation(Outer(pen))
    case LBrace => Break(pen) + Indentation(pen.indent)
    case ElseKeyword => Break(pen) + Indentation(pen.indent)
    case Semicolon => []
    case Comma => []
    case Arrow => " "
    case ArrowFn => " "
    case _ => if pen.newLine then Indentation(pen.indent) else if SpaceBetween(pen.prev, typ) then " " else []
  }

  function Written(t: Token): string {
    if t.typ == Arrow || t.typ == ArrowFn then "->" else t.lexeme
  }

  function After(typ: TokenType): string {
    match typ
    case RBrace => "\n"
    case LBrace => "\n"
    case Semicolon => "\n"
    case Comma => " "
    case Arrow => " "
    case ArrowFn => " "
    case ElseKeyword => " "
    case _ => []
  }

  function Next(typ: TokenType, pen: Pen): Pen {
    match typ
    case RBrace => Pen(Outer(pen), true, typ)
    case LBrace => Pen(pen.indent + 1, true, typ)
    case Semicolon => Pen(pen.indent, true, typ)
    case _ => Pen(pen.indent, false, typ)
  }

  /** format_tokens from one token on. */
  function Format(ts: seq<Token>, pen: Pen): string {
    if ts == [] || ts[0].typ == Eof then Break(pen)
    else
      var t := ts[0];
      Before(t.typ, pen) + (Written(t) + (After(t.typ) + Format(ts[1..], Next(t.typ, pen))))
  }

  method WriteIndent(indent: nat) returns (out: string)
    ensures out == Indentation(indent)
  {
    out := [];
    for i := 0 to indent
      invariant out + Indentation(indent - i) == Indentation(indent)
    {
      out := out + "    ";
    }
  }

  /** The switch of format_tokens: what is written for one token, and the variables then. */
  method WriteToken(token: Token, pen: Pen) returns (out: string, after: Pen)
    requires token.typ != Eof
    ensures out == Before(token.typ, pen) + Written(token) + After(token.typ)
    ensures after == Next(token.typ, pen)
  {
    hide Indentation, SpaceBetween;
    var lead, text, trail := "", token.lexeme, "";
    var indent, newLine := pen.indent, pen.newLine;
    match token.typ {
      case RBrace =>
        indent := if indent > 0 then indent - 1 else 0;
        if !newLine { lead := "\n"; }
        var spaces := WriteIndent(indent);
        lead, trail := lead + spaces, "\n";
        newLine := true;
      case LBrace =>
        if !newLine { lead := "\n"; }
        var spaces := WriteIndent(indent);
        lead, trail := lead + spaces, "\n";
        indent := indent + 1;
        newLine := true;
      case Semicolon =>
        trail := "\n";
        newLine := true;
      case Comma =>
        trail := " ";
        newLine := false;
      case Arrow =>
        lead, text, trail := " ", "->", " ";
        newLine := false;
      case ArrowFn =>
        lead, text, trail := " ", "->", " ";
        newLine := false;
      case ElseKeyword =>
        if !newLine { lead := "\n"; }
        var spaces := WriteIndent(indent);
        lead, trail := lead + spaces, " ";
        newLine := false;
      case _ =>
        if newLine {
          lead := WriteIndent(indent);
          newLine := false;
        } else if SpaceBetween(pen.prev, token.typ) {
          lead := " ";
        }
    }
    out := lead + text + trail;
    after := Pen(indent, newLine, token.typ);
  }

  /** format_tokens as the loop it is. */
  method FormatTokens(tokens: seq<Token>) returns (out: string)
    ensures out == Format(tokens, Fresh)
  {
    hide Before, Written, After, Next;
    out := [];
    var pen := Fresh;
    assert tokens[0..] == tokens;
    var i := 0;
    while i < |tokens| && tokens[i].typ != Eof
      invariant 0 <= i <= |tokens|
      invariant out + Format(tokens[i..], pen) == Format(tokens, Fresh)
    {
      var token := tokens[i];
      var text, after := WriteToken(token, pen);
      assert tokens[i..][1..] == tokens[i + 1..];
      Pieces(out, Before(token.typ, pen), Written(token), After(token.typ), Format(tokens[i + 1..], after));
      out := out + text;
      pen := after;
      i := i + 1;
    }
    if !pen.newLine {
      out := out + "\n";
    }
  }

  lemma Pieces(a: string, b: string, c: string, d: string, e: string)
    ensures a + (b + (c + (d + e))) == (a + (b + c + d)) + e
  {
  }
}
