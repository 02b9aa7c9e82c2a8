/** The layout of formatted text, told from the tokens alone: where lines begin and end, how far they
    are indented, and how many blanks stand between two tokens of a line. */
module FormatterLayout {
  import opened Lexer
  import opened Formatter

  /** The braces still open behind some tokens. */
  function OpenBraces(ts: seq<Token>): nat {
    if ts == [] then 0
    else
      var n, last := OpenBraces(ts[..|ts| - 1]), ts[|ts| - 1].typ;
      if last == LBrace then n + 1 else if last == RBrace && n > 0 then n - 1 else n
  }

  /** The braces open at a token, where a closing one does not count the one it closes. */
  function Depth(ts: seq<Token>, i: nat): nat
    requires i < |ts|
  {
    OpenBraces(ts[..if ts[i].typ == RBrace then i + 1 else i])
  }

  predicate EndsLine(typ: TokenType) {
    typ == LBrace || typ == RBrace || typ == Semicolon
  }

  predicate BeginsLine(typ: TokenType) {
    typ == LBrace || typ == RBrace || typ == ElseKeyword
  }

  predicate IsArrow(typ: TokenType) {
    typ == Arrow || typ == ArrowFn
  }

  /** The first token of a line. */
  predicate Leads(ts: seq<Token>, i: nat)
    requires i < |ts|
  {
    i == 0 || EndsLine(ts[i - 1].typ) || BeginsLine(ts[i].typ)
  }

  function Spaces(n: nat): string {
    seq(n, i => ' ')
  }

  /** How far a line is indented: four blanks for each open brace. A comma or semicolon that begins a
      line is not indented, and an arrow by one blank. */
  function Margin(ts: seq<Token>, i: nat): nat
    requires i < |ts|
  {
    if ts[i].typ == Comma || ts[i].typ == Semicolon then 0 else if IsArrow(ts[i].typ) then 1 else 4 * Depth(ts, i)
  }

  /** Behind a comma, an arrow and `else` a blank is written, whatever follows. */
  function Trailing(typ: TokenType): nat {
    if typ == Comma || typ == ElseKeyword || IsArrow(typ) then 1 else 0
  }

  /** Where no blank is put in front of `current`. */
  predicate Tight(prev: TokenType, current: TokenType) {
    current == Comma || current == Semicolon
    || (!IsArrow(current)
        && (prev == LParen || prev == LBracket || current == RParen || current == RBracket
            || (prev != Comma && (prev == Dot || current == Dot))))
  }

  /** The blanks between two tokens of a line: none where they are tight, and one elsewhere, besides the
      one that is always behind a comma, an arrow or `else`. */
  function Blanks(prev: TokenType, current: TokenType): nat {
    Trailing(prev) + if Tight(prev, current) then 0 else 1
  }

  /** What stands in front of token `i`, and behind the last. */
  function Gap(ts: seq<Token>, i: nat): string
    requires i <= |ts|
  {
    if i == 0 then if ts == [] then [] else Spaces(Margin(ts, 0))
    else
      var prev := ts[i - 1].typ;
      if i == |ts| then Spaces(Trailing(prev)) + "\n"
      else if Leads(ts, i) then Spaces(Trailing(prev)) + "\n" + Spaces(Margin(ts, i))
      else Spaces(Blanks(prev, ts[i].typ))
  }

  /** The text from the gap in front of token `i` on. */
  function Laid(ts: seq<Token>, i: nat): string
    requires i <= |ts|
    decreases |ts| - i
  {
    Gap(ts, i) + if i == |ts| then [] else Written(ts[i]) + Laid(ts, i + 1)
  }

  /** The tokens that are formatted. */
  function Body(ts: seq<Token>): seq<Token> {
    if ts == [] || ts[0].typ == Eof then [] else [ts[0]] + Body(ts[1..])
  }

  // ----- the formatter lays tokens out like this -----

  predicate NoEof(ts: seq<Token>) {
    forall i :: 0 <= i < |ts| ==> ts[i].typ != Eof
  }

  lemma {:induction false} BodyIsFormatted(ts: seq<Token>, pen: Pen)
    ensures Format(ts, pen) == Format(Body(ts), pen) && NoEof(Body(ts))
  {
    if ts != [] && ts[0].typ != Eof {
      BodyIsFormatted(ts[1..], Next(ts[0].typ, pen));
      assert Body(ts)[1..] == Body(ts[1..]);
    }
  }

  /** The variables of the formatter in front of token `i`. */
  function PenAt(ts: seq<Token>, i: nat): Pen
    requires i <= |ts|
  {
    if i == 0 then Fresh else Pen(OpenBraces(ts[..i]), EndsLine(ts[i - 1].typ), ts[i - 1].typ)
  }

  lemma PenMoves(ts: seq<Token>, i: nat)
    requires i < |ts|
    ensures Next(ts[i].typ, PenAt(ts, i)) == PenAt(ts, i + 1)
  {
    assert ts[..i + 1][..i] == ts[..i];
  }

  lemma {:induction false} IndentationIsSpaces(n: nat)
    ensures Indentation(n) == Spaces(4 * n)
  {
    if n > 0 {
      IndentationIsSpaces(n - 1);
      assert "    " + Spaces(4 * (n - 1)) == Spaces(4 * n);
    }
  }

  lemma OuterIsDepth(ts: seq<Token>, i: nat)
    requires i < |ts|
    ensures Depth(ts, i) == if ts[i].typ == RBrace then Outer(PenAt(ts, i)) else PenAt(ts, i).indent
  {
    assert ts[..i + 1][..i] == ts[..i];
  }

  function AfterPrevious(ts: seq<Token>, i: nat): string
    requires i <= |ts|
  {
    if i == 0 then [] else After(ts[i - 1].typ)
  }

  lemma SmallSpaces()
    ensures Spaces(0) == [] && Spaces(1) == " " && Spaces(2) == " " + " "
  {
  }

  /** How deep `typ` stands if it comes next. */
  function PenDepth(typ: TokenType, pen: Pen): nat {
    if typ == RBrace then Outer(pen) else pen.indent
  }

  lemma LineBegins(typ: TokenType, pen: Pen)
    requires pen.newLine
    ensures Before(typ, pen) == Spaces(if typ == Comma || typ == Semicolon then 0 else if IsArrow(typ) then 1 else 4 * PenDepth(typ, pen))
  {
    hide Indentation, Spaces;
    IndentationIsSpaces(PenDepth(typ, pen));
    SmallSpaces();
  }

  lemma LineIsBroken(typ: TokenType, pen: Pen)
    requires !pen.newLine && BeginsLine(typ)
    ensures Before(typ, pen) == "\n" + Spaces(4 * PenDepth(typ, pen))
  {
    hide Indentation, Spaces;
    IndentationIsSpaces(PenDepth(typ, pen));
  }

  lemma LineGoesOn(typ: TokenType, pen: Pen)
    requires !pen.newLine && !BeginsLine(typ) && pen.prev != Eof
    ensures Before(typ, pen) == Spaces(if Tight(pen.prev, typ) then 0 else 1)
  {
    hide Indentation, Spaces, SpaceBetween, Tight;
    SmallSpaces();
    TightMarks(pen.prev, typ);
    if typ != Comma && typ != Semicolon && !IsArrow(typ) { TightIsWritten(pen.prev, typ); }
  }

  lemma TightMarks(prev: TokenType, typ: TokenType)
    ensures typ == Comma || typ == Semicolon ==> Tight(prev, typ)
    ensures typ == Arrow || typ == ArrowFn ==> !Tight(prev, typ)
  {
  }

  lemma TightIsWritten(prev: TokenType, typ: TokenType)
    requires prev != Eof && typ != Comma && typ != Semicolon && !IsArrow(typ)
    ensures Tight(prev, typ) <==> !SpaceBetween(prev, typ)
  {
    hide IsArrow;
  }

  lemma TrailIsWritten(typ: TokenType)
    ensures After(typ) == if EndsLine(typ) then "\n" else Spaces(Trailing(typ))
    ensures EndsLine(typ) ==> Spaces(Trailing(typ)) == []
  {
    hide Spaces;
    SmallSpaces();
  }

  lemma SpacesAdd(m: nat, n: nat)
    ensures Spaces(m) + Spaces(n) == Spaces(m + n)
  {
  }

  lemma BeginnersAreDeep(typ: TokenType)
    requires BeginsLine(typ)
    ensures typ != Comma && typ != Semicolon && !IsArrow(typ)
  {
  }

  /** A gap is what is written after one token and before the next. */
  lemma GapIsWritten(ts: seq<Token>, i: nat)
    requires i < |ts| && ts[i].typ != Eof && (i > 0 ==> ts[i - 1].typ != Eof)
    ensures Gap(ts, i) == AfterPrevious(ts, i) + Before(ts[i].typ, PenAt(ts, i))
  {
    hide OpenBraces, Depth, Spaces, Before, After, Outer, Trailing, Tight, EndsLine, BeginsLine, IsArrow;
    var typ, pen := ts[i].typ, PenAt(ts, i);
    assert Depth(ts, i) == PenDepth(typ, pen) by { OuterIsDepth(ts, i); }
    if i > 0 { TrailIsWritten(ts[i - 1].typ); }
    if pen.newLine {
      LineBegins(typ, pen);
    } else if BeginsLine(typ) {
      LineIsBroken(typ, pen);
      BeginnersAreDeep(typ);
    } else {
      LineGoesOn(typ, pen);
      SpacesAdd(Trailing(ts[i - 1].typ), if Tight(pen.prev, typ) then 0 else 1);
    }
  }

  lemma EndIsWritten(ts: seq<Token>)
    ensures Gap(ts, |ts|) == AfterPrevious(ts, |ts|) + Break(PenAt(ts, |ts|))
  {
    hide OpenBraces, Spaces;
    SmallSpaces();
  }

  lemma {:induction false} LaidIsFormatted(ts: seq<Token>, i: nat)
    requires i <= |ts| && NoEof(ts)
    ensures Laid(ts, i) == AfterPrevious(ts, i) + Format(ts[i..], PenAt(ts, i))
    decreases |ts| - i
  {
    hide Gap, Before, Written, After, PenAt, Next;
    if i == |ts| {
      EndIsWritten(ts);
    } else {
      assert ts[i..][1..] == ts[i + 1..];
      GapIsWritten(ts, i);
      PenMoves(ts, i);
      LaidIsFormatted(ts, i + 1);
      Rejoined(AfterPrevious(ts, i), Before(ts[i].typ, PenAt(ts, i)), Written(ts[i]),
               After(ts[i].typ) + Format(ts[i + 1..], PenAt(ts, i + 1)));
    }
  }

  lemma Rejoined(a: string, b: string, c: string, d: string)
    ensures (a + b) + (c + d) == a + (b + (c + d))
  {
  }

  /** The formatted text is laid out as described above, for every list of tokens. */
  lemma FormatIsLaidOut(ts: seq<Token>)
    ensures Format(ts, Fresh) == Laid(Body(ts), 0)
  {
    hide Format, Laid;
    BodyIsFormatted(ts, Fresh);
    LaidIsFormatted(Body(ts), 0);
    assert Body(ts)[0..] == Body(ts);
  }

  // ----- what one sees in the text -----

  /** The text in front of token `i`, its gap included. */
  function LaidBefore(ts: seq<Token>, i: nat): string
    requires i <= |ts|
  {
    if i == 0 then Gap(ts, 0) else LaidBefore(ts, i - 1) + Written(ts[i - 1]) + Gap(ts, i)
  }

  lemma {:induction false} LaidInTwo(ts: seq<Token>, i: nat)
    requires i < |ts|
    ensures Laid(ts, 0) == LaidBefore(ts, i) + Written(ts[i]) + Laid(ts, i + 1)
  {
    hide Gap, Written;
    if i > 0 {
      LaidInTwo(ts, i - 1);
      FourParts(LaidBefore(ts, i - 1), Written(ts[i - 1]), Gap(ts, i), Written(ts[i]), Laid(ts, i + 1));
    }
  }

  lemma FourParts(a: string, b: string, c: string, d: string, e: string)
    ensures a + b + (c + (d + e)) == (a + b + c) + d + e
  {
  }

  /** `before` ends in a line that holds `n` blanks and nothing else. */
  ghost predicate AtLineStart(before: string, n: nat) {
    exists front: string :: before == front + Spaces(n) && (front == [] || front[|front| - 1] == '\n')
  }

  ghost predicate EndsWith(before: string, end: string) {
    exists front: string :: before == front + end
  }

  /** Token `i` stands between `before` and `after`. */
  ghost predicate Stands(ts: seq<Token>, i: nat, before: string, after: string)
    requires i < |ts|
  {
    && (if Leads(ts, i) then AtLineStart(before, Margin(ts, i))
        else EndsWith(before, Written(ts[i - 1]) + Spaces(Blanks(ts[i - 1].typ, ts[i].typ))))
    && (i + 1 == |ts| || Leads(ts, i + 1) ==> Spaces(Trailing(ts[i].typ)) + "\n" <= after)
    && (i + 1 == |ts| ==> after == Spaces(Trailing(ts[i].typ)) + "\n")
  }

  /** Every token stands in the text where its line and its neighbours want it: the first of a line behind
      four blanks for each open brace, and the others behind their neighbour and the stated number of
      blanks; and lines end behind braces and semicolons and in front of braces and `else`. */
  lemma EveryTokenStands(ts: seq<Token>, i: nat)
    requires i < |Body(ts)|
    ensures exists before, after: string ::
      Format(ts, Fresh) == before + Written(Body(ts)[i]) + after && Stands(Body(ts), i, before, after)
  {
    hide Format, Margin, Blanks, Written, Spaces, Laid;
    var body := Body(ts);
    FormatIsLaidOut(ts);
    LaidInTwo(body, i);
    BeforeStands(body, i);
    AfterStands(body, i);
    assert Stands(body, i, LaidBefore(body, i), Laid(body, i + 1));
  }

  lemma BeforeStands(ts: seq<Token>, i: nat)
    requires i < |ts|
    ensures if Leads(ts, i) then AtLineStart(LaidBefore(ts, i), Margin(ts, i))
            else EndsWith(LaidBefore(ts, i), Written(ts[i - 1]) + Spaces(Blanks(ts[i - 1].typ, ts[i].typ)))
  {
    hide Margin, Blanks, Written, Spaces, Trailing, EndsLine, BeginsLine;
    if i == 0 {
      assert LaidBefore(ts, 0) == [] + Spaces(Margin(ts, 0));
    } else if Leads(ts, i) {
      var front := LaidBefore(ts, i - 1) + Written(ts[i - 1]) + (Spaces(Trailing(ts[i - 1].typ)) + "\n");
      assert LaidBefore(ts, i) == front + Spaces(Margin(ts, i));
    } else {
      assert LaidBefore(ts, i) == LaidBefore(ts, i - 1) + (Written(ts[i - 1]) + Spaces(Blanks(ts[i - 1].typ, ts[i].typ)));
    }
  }

  lemma AfterStands(ts: seq<Token>, i: nat)
    requires i < |ts|
    ensures i + 1 == |ts| || Leads(ts, i + 1) ==> Spaces(Trailing(ts[i].typ)) + "\n" <= Laid(ts, i + 1)
    ensures i + 1 == |ts| ==> Laid(ts, i + 1) == Spaces(Trailing(ts[i].typ)) + "\n"
  {
    hide Margin, Blanks, Written, Spaces, Trailing;
    var line := Spaces(Trailing(ts[i].typ)) + "\n";
    if i + 1 == |ts| {
      assert Laid(ts, i + 1) == line + [];
    } else if Leads(ts, i + 1) {
      var rest := Written(ts[i + 1]) + Laid(ts, i + 2);
      assert Laid(ts, i + 1) == line + (Spaces(Margin(ts, i + 1)) + rest);
    }
  }

  // ----- braces that match -----

  function Number(typ: TokenType, ts: seq<Token>): nat {
    if ts == [] then 0 else Number(typ, ts[..|ts| - 1]) + if ts[|ts| - 1].typ == typ then 1 else 0
  }

  /** Where no brace is closed that is not open, the depth is a difference of counts. */
  lemma {:induction false} OpenIsDifference(ts: seq<Token>)
    requires forall k :: 0 <= k <= |ts| ==> Number(RBrace, ts[..k]) <= Number(LBrace, ts[..k])
    ensures OpenBraces(ts) == Number(LBrace, ts) - Number(RBrace, ts)
  {
    if ts != [] {
      var front := ts[..|ts| - 1];
      forall k | 0 <= k <= |front| ensures Number(RBrace, front[..k]) <= Number(LBrace, front[..k]) {
        assert front[..k] == ts[..k];
      }
      OpenIsDifference(front);
      assert ts[..|ts|] == ts;
    }
  }
}
