/** NovaLexer (src/lexer.cpp:89-309): a cursor with its line and column, advanced one character at
    a time. Its tokens tile the source. */
module LexerRun {
  import opened Lexer

  // ----- places in a text -----

  function LineAt(s: string, i: nat): nat
    requires i <= |s|
  {
    1 + multiset(s[..i])['\n']
  }

  /** Position `i` is the `column`-th of its line: no newline since the line began. */
  ghost predicate IsColumn(s: string, i: nat, column: nat)
    requires i <= |s|
  {
    1 <= column <= i + 1
    && '\n' !in s[i - (column - 1)..i]
    && (column == i + 1 || s[i - column] == '\n')
  }

  lemma ColumnIsUnique(s: string, i: nat, a: nat, b: nat)
    requires i <= |s| && IsColumn(s, i, a) && IsColumn(s, i, b)
    ensures a == b
  {
    if a < b { NoLaterColumn(s, i, a, b); }
    if b < a { NoLaterColumn(s, i, b, a); }
  }

  lemma NoLaterColumn(s: string, i: nat, a: nat, b: nat)
    requires i <= |s| && IsColumn(s, i, a) && a < b <= i + 1
    ensures !IsColumn(s, i, b)
  {
    assert s[i - (b - 1)..i][b - 1 - a] == s[i - a];
  }

  lemma StepPlace(s: string, i: nat, column: nat)
    requires i < |s| && IsColumn(s, i, column)
    ensures LineAt(s, i + 1) == LineAt(s, i) + if s[i] == '\n' then 1 else 0
    ensures IsColumn(s, i + 1, if s[i] == '\n' then 1 else column + 1)
  {
    assert s[..i + 1] == s[..i] + [s[i]];
    if s[i] != '\n' {
      assert s[i - (column - 1)..i + 1] == s[i - (column - 1)..i] + [s[i]];
    }
  }

  // ----- what separates tokens -----

  /** Character `i` belongs to a comment that a `#` before it, on the same line, began. */
  ghost predicate InComment(s: string, i: nat)
    requires i < |s|
  {
    exists j :: 0 <= j <= i && s[j] == '#' && '\n' !in s[j..i]
  }

  ghost predicate Blank(s: string) {
    forall i :: 0 <= i < |s| ==> IsSpace(s[i]) || InComment(s, i)
  }

  lemma BlankConcatenation(a: string, b: string)
    requires Blank(a) && Blank(b)
    ensures Blank(a + b)
  {
    var s := a + b;
    forall i | 0 <= i < |s| && !IsSpace(s[i]) ensures InComment(s, i) {
      if i < |a| {
        assert IsSpace(a[i]) || InComment(a, i);
        var j :| 0 <= j <= i && a[j] == '#' && '\n' !in a[j..i];
        assert s[j] == '#' && s[j..i] == a[j..i];
      } else {
        assert IsSpace(b[i - |a|]) || InComment(b, i - |a|);
        var j :| 0 <= j <= i - |a| && b[j] == '#' && '\n' !in b[j..i - |a|];
        assert s[j + |a|] == '#' && s[j + |a|..i] == b[j..i - |a|];
      }
    }
  }

  /** Skipping goes over blank text and over all of it: what is left begins with a token. */
  lemma {:induction false} SkippedIsBlank(s: string)
    ensures var n := BlankLength(s);
            Blank(s[..n]) && (n < |s| ==> !IsSpace(s[n]) && s[n] != '#')
    decreases |s|
  {
    if s != [] && IsSpace(s[0]) {
      SkippedIsBlank(s[1..]);
      assert Blank([s[0]]);
      BlankConcatenation([s[0]], s[1..][..BlankLength(s[1..])]);
      assert s[..BlankLength(s)] == [s[0]] + s[1..][..BlankLength(s[1..])];
    } else if s != [] && s[0] == '#' {
      var k := CommentLength(s);
      SkippedIsBlank(s[k..]);
      CommentIsBlank(s[..k]);
      BlankConcatenation(s[..k], s[k..][..BlankLength(s[k..])]);
      assert s[..BlankLength(s)] == s[..k] + s[k..][..BlankLength(s[k..])];
    }
  }

  lemma CommentIsBlank(s: string)
    requires s != [] ==> s[0] == '#'
    requires '\n' !in s
    ensures Blank(s)
  {
    forall i | 0 <= i < |s| ensures InComment(s, i) {
      assert s[0] == '#' && '\n' !in s[0..i];
    }
  }

  // ----- tokens with their places -----

  datatype Placed = Placed(typ: TokenType, start: nat, length: nat, line: nat, column: nat)

  ghost predicate InSource(source: string, t: Placed) {
    t.start + t.length <= |source|
  }

  function TextOf(source: string, t: Placed): Token {
    Token(t.typ, if t.start + t.length <= |source| then source[t.start..t.start + t.length] else [])
  }

  function TextsOf(source: string, ts: seq<Placed>): seq<Token> {
    if ts == [] then [] else [TextOf(source, ts[0])] + TextsOf(source, ts[1..])
  }

  /** `t` is the token the lexer finds from `from` on, and `to` is where it stands afterwards. An
      error token is empty and lies behind what could not be read, but keeps its line and column. */
  ghost predicate Follows(source: string, from: nat, t: Placed, to: nat)
    requires from <= |source|
  {
    var at := from + BlankLength(source[from..]);
    && LineAt(source, at) == t.line && IsColumn(source, at, t.column)
    && (if at == |source| then t.typ == Eof && t.start == at == to && t.length == 0
        else
          var first := Scan(source[at..]);
          && to == at + first.length <= |source| && t.typ == first.typ
          && (if first.typ == ErrorToken then t.start == to && t.length == 0
              else t.start == at && t.length == first.length))
  }

  function EndOf(ts: seq<Placed>, i: nat): nat
    requires i <= |ts|
  {
    if i == 0 then 0 else ts[i - 1].start + ts[i - 1].length
  }

  /** Tokens are disjoint slices of the source in order, with nothing but blank text between them;
      each knows its line and column; and only the last one may be Eof, which lies at the end of
      the source, or an error. */
  ghost predicate Tiles(source: string, ts: seq<Placed>) {
    && ts != []
    && (forall i :: 0 <= i < |ts| ==> Tiled(source, ts, i))
    && (forall i :: 0 <= i < |ts| - 1 ==> ts[i].typ != Eof && ts[i].typ != ErrorToken && ts[i].length > 0)
    && (var last := ts[|ts| - 1]; last.typ == ErrorToken || (last.typ == Eof && last.start == |source|))
  }

  ghost predicate Tiled(source: string, ts: seq<Placed>, i: nat)
    requires i < |ts|
  {
    InSource(source, ts[i]) && EndOf(ts, i) <= ts[i].start
    && (ts[i].typ != ErrorToken ==>
          Blank(source[EndOf(ts, i)..ts[i].start])
          && ts[i].line == LineAt(source, ts[i].start) && IsColumn(source, ts[i].start, ts[i].column))
  }

  class NovaLexer {
    const source: string
    var position: nat
    var line: nat
    var column: nat

    ghost predicate Valid()
      reads this
    {
      NulFree(source) && position <= |source| && line == LineAt(source, position) && IsColumn(source, position, column)
    }

    constructor (source: string)
      requires NulFree(source)
      ensures Valid() && this.source == source && position == 0
    {
      this.source, position, line, column := source, 0, 1, 1;
    }

    function Peek(): char
      reads this
    {
      if position >= |source| then '\0' else source[position]
    }

    /** Peek returns NUL at the end of the source and nowhere else. */
    lemma PeekIsNulAtEnd()
      requires Valid()
      ensures Peek() == '\0' <==> position == |source|
    {
      assert position < |source| ==> source[position] in source;
    }

    method Advance()
      requires Valid()
      modifies this
      ensures Valid() && position == if old(position) < |source| then old(position) + 1 else old(position)
    {
      var c := Peek();
      PeekIsNulAtEnd();
      if c == '\0' { return; }
      StepPlace(source, position, column);
      position := position + 1;
      if c == '\n' {
        line := line + 1;
        column := 1;
      } else {
        column := column + 1;
      }
    }

    method SkipWhitespaceAndComments()
      requires Valid()
      modifies this
      ensures Valid() && position == old(position) + BlankLength(source[old(position)..])
    {
      hide LineAt, IsColumn;
      var skipping := true;
      while skipping
        invariant Valid()
        invariant position + BlankLength(source[position..]) == old(position) + BlankLength(source[old(position)..])
        invariant !skipping ==> BlankLength(source[position..]) == 0
        decreases |source| - position, skipping
      {
        skipping := false;
        var c := Peek();
        if IsSpace(c) {
          assert source[position..][1..] == source[position + 1..];
          Advance();
          skipping := true;
        } else if c == '#' {
          SkipComment();
          skipping := true;
        }
      }
    }

    method SkipComment()
      requires Valid() && Peek() == '#'
      modifies this
      ensures Valid() && position > old(position)
      ensures position + BlankLength(source[position..]) == old(position) + BlankLength(source[old(position)..])
    {
      hide LineAt, IsColumn;
      ghost var end := position + CommentLength(source[position..]);
      assert source[position..][CommentLength(source[position..])..] == source[end..];
      while Peek() != '\n' && Peek() != '\0'
        invariant Valid() && old(position) <= position
        invariant position + CommentLength(source[position..]) == end
        decreases |source| - position
      {
        assert source[position..][1..] == source[position + 1..];
        Advance();
      }
      PeekIsNulAtEnd();
    }

    /** lex_identifier; the caller has seen a letter or an underscore. */
    method LexIdentifier() returns (t: Placed)
      requires Valid() && position < |source| && (IsAlpha(source[position]) || source[position] == '_')
      modifies this
      ensures Valid() && position == old(position) + WordLength(source[old(position)..])
      ensures t == Placed(KeywordType(source[old(position)..position]), old(position), position - old(position), old(line), old(column))
    {
      hide LineAt, IsColumn;
      var start, line0, column0 := position, line, column;
      while IsWord(Peek())
        invariant Valid() && start <= position
        invariant position + WordLength(source[position..]) == start + WordLength(source[start..])
        decreases |source| - position
      {
        assert source[position..][1..] == source[position + 1..];
        Advance();
      }
      t := Placed(KeywordType(source[start..position]), start, position - start, line0, column0);
    }

    method SkipDigits()
      requires Valid()
      modifies this
      ensures Valid() && position == old(position) + DigitsLength(source[old(position)..])
    {
      hide LineAt, IsColumn;
      while IsDigit(Peek())
        invariant Valid() && old(position) <= position
        invariant position + DigitsLength(source[position..]) == old(position) + DigitsLength(source[old(position)..])
        decreases |source| - position
      {
        assert source[position..][1..] == source[position + 1..];
        Advance();
      }
    }

    method LexNumber() returns (t: Placed)
      requires Valid()
      modifies this
      ensures Valid() && position == old(position) + NumberLength(source[old(position)..])
      ensures t == Placed(NumberToken, old(position), position - old(position), old(line), old(column))
    {
      hide LineAt, IsColumn;
      var start, line0, column0 := position, line, column;
      SkipDigits();
      if Peek() == '.' {
        assert source[start..][position - start + 1..] == source[position + 1..];
        Advance();
        SkipDigits();
      }
      t := Placed(NumberToken, start, position - start, line0, column0);
    }

    /** The loop of lex_string: to the end of the closing quote, or to the end of the source. */
    method SkipToClosing(triple: bool) returns (closed: bool)
      requires Valid()
      modifies this
      ensures Valid()
      ensures var closing := ClosingLength(source[old(position)..], triple);
              closed == closing.Closed? && position == if closed then old(position) + closing.length else |source|
    {
      hide LineAt, IsColumn, ClosingLength;
      ghost var closing := ClosingLength(source[position..], triple);
      while true
        invariant Valid() && old(position) <= position
        invariant closing == Shifted(ClosingLength(source[position..], triple), position - old(position))
        decreases |source| - position
      {
        var c := Peek();
        PeekIsNulAtEnd();
        if c == '\0' {
          NothingCloses(triple);
          return false;
        }
        ClosingAt(source, position, triple);
        if !triple && c == '\"' {
          Advance();
          return true;
        }
        if triple && c == '\"' && position + 2 < |source| && source[position + 1] == '\"' && source[position + 2] == '\"' {
          PeekIsNulAtEnd();
          Advance();
          Advance();
          Advance();
          return true;
        }
        if c == '\\' {
          Advance();
          Advance();
        } else {
          Advance();
        }
      }
    }

    /** lex_string, from the opening quote on. */
    method LexString() returns (t: Placed)
      requires Valid() && Peek() == '\"'
      modifies this
      ensures Valid()
      ensures match StringLength(source[old(position)..])
              case Closed(n) => position == old(position) + n && t == Placed(StringToken, old(position), n, old(line), old(column))
              case Open => position == |source| && t == Placed(ErrorToken, position, 0, old(line), old(column))
    {
      hide ClosingLength, LineAt, IsColumn;
      var start, line0, column0 := position, line, column;
      ghost var s := source[start..];
      assert forall i :: 0 <= i < |s| ==> s[i] == source[start + i];
      Advance();
      var triple := false;
      if Peek() == '\"' && position + 1 < |source| && source[position + 1] == '\"' {
        triple := true;
        Advance();
        Advance();
      }
      assert triple <==> Quotes(s, 3);
      assert source[position..] == s[OpeningLength(s)..];
      var closed := SkipToClosing(triple);
      if closed {
        t := Placed(StringToken, start, position - start, line0, column0);
      } else {
        t := Placed(ErrorToken, position, 0, line0, column0);
      }
    }

    /** nova_lexer_next */
    method Next() returns (t: Placed)
      requires Valid()
      modifies this
      ensures Valid() && Follows(source, old(position), t, position)
    {
      hide WordLength, NumberLength, StringLength, BlankLength, LineAt, IsColumn;
      SkipWhitespaceAndComments();
      var start, line0, column0 := position, line, column;
      var c := Peek();
      PeekIsNulAtEnd();
      if c == '\0' { return Placed(Eof, start, 0, line0, column0); }
      ghost var rest := source[start..];
      assert rest[0] == c;
      if IsAlpha(c) || c == '_' {
        t := LexIdentifier();
        assert rest[..position - start] == source[start..position];
      } else if IsDigit(c) {
        t := LexNumber();
      } else if c == '\"' {
        t := LexString();
      } else {
        t := LexOperator();
      }
    }

    /** The rest of the switch in nova_lexer_next. */
    method LexOperator() returns (t: Placed)
      requires Valid() && position < |source|
      requires var c := source[position]; !IsWord(c) && c != '\"'
      modifies this
      ensures Valid()
      ensures var first := Scan(source[old(position)..]);
              && position == old(position) + first.length
              && (if first.typ == ErrorToken then t == Placed(ErrorToken, position, 0, old(line), old(column))
                  else t == Placed(first.typ, old(position), first.length, old(line), old(column)))
    {
      var start, line0, column0 := position, line, column;
      var c := Peek();
      ghost var rest := source[start..];
      assert rest[0] == c && (|rest| > 1 ==> rest[1] == source[start + 1]);
      Advance();
      var typ := ErrorToken;
      match c {
        case '(' => typ := LParen;
        case ')' => typ := RParen;
        case '{' => typ := LBrace;
        case '}' => typ := RBrace;
        case '[' => typ := LBracket;
        case ']' => typ := RBracket;
        case ',' => typ := Comma;
        case ';' => typ := Semicolon;
        case '.' => typ := Dot;
        case ':' => typ := Colon;
        case '!' => typ := Bang;
        case '=' => typ := EndsIn('>', ArrowFn, Equal);
        case '|' => typ := EndsIn('>', PipeOperator, Bar);
        case '-' =>
          typ := EndsIn('>', Arrow, ErrorToken);
          // the break leads to the advance behind the switch
          if typ == ErrorToken { Advance(); }
        case _ =>
      }
      if typ == ErrorToken { return Placed(ErrorToken, position, 0, line0, column0); }
      t := Placed(typ, start, position - start, line0, column0);
    }

    method EndsIn(next: char, both: TokenType, alone: TokenType) returns (typ: TokenType)
      requires Valid() && next != '\0'
      modifies this
      ensures Valid()
      ensures if old(position) < |source| && source[old(position)] == next then typ == both && position == old(position) + 1
              else typ == alone && position == old(position)
    {
      if Peek() != next { return alone; }
      Advance();
      return both;
    }

    /** nova_lexer_tokenize */
    method Tokenize() returns (ts: seq<Placed>)
      requires Valid() && position == 0
      modifies this
      ensures Tiles(source, ts) && TextsOf(source, ts) == Lex(source)
    {
      hide LineAt, IsColumn, BlankLength, Scan, Lex, Tiled, TextsOf, TextOf, Follows;
      ts := [];
      NoTexts(source);
      while true
        invariant Valid() && Tiling(source, ts) && position == EndOf(ts, |ts|)
        invariant TextsOf(source, ts) + Lex(source[position..]) == Lex(source)
        decreases |source| - position
      {
        ghost var before := position;
        var t := Next();
        TilesOneMore(source, ts, t, before, position);
        NextOfLex(source, before, t, position);
        TextsOfSnoc(source, ts, t);
        ts := ts + [t];
        if t.typ == Eof || t.typ == ErrorToken { return; }
      }
    }
  }

  function Shifted(closing: Closing, k: nat): Closing {
    match closing
    case Closed(n) => Closed(k + n)
    case Open => Open
  }

  lemma NothingCloses(triple: bool)
    ensures ClosingLength([], triple) == Open
  {
  }

  /** ClosingLength in terms of places in the source. */
  lemma ClosingAt(source: string, p: nat, triple: bool)
    requires p < |source|
    ensures ClosingLength(source[p..], triple)
            == if !triple && source[p] == '\"' then Closed(1)
               else if triple && p + 2 < |source| && source[p] == source[p + 1] == source[p + 2] == '\"' then Closed(3)
               else var step := if source[p] == '\\' && p + 1 < |source| then 2 else 1;
                    Shifted(ClosingLength(source[p + step..], triple), step)
  {
    var rest := source[p..];
    assert rest[0] == source[p];
    assert |rest| > 2 ==> rest[1] == source[p + 1] && rest[2] == source[p + 2];
    var step := if source[p] == '\\' && p + 1 < |source| then 2 else 1;
    assert rest[step..] == source[p + step..];
    assert Quotes(rest, 3) <==> p + 2 < |source| && source[p] == source[p + 1] == source[p + 2] == '\"' by {
      if Quotes(rest, 3) { assert rest[1] == '\"' && rest[2] == '\"'; }
    }
  }

  /** Tokens that tile the source so far. */
  ghost predicate Tiling(source: string, ts: seq<Placed>) {
    && (forall i :: 0 <= i < |ts| ==> Tiled(source, ts, i))
    && (forall i :: 0 <= i < |ts| ==> ts[i].typ != Eof && ts[i].typ != ErrorToken && ts[i].length > 0)
  }

  /** One more token: what Follows says about it is what tiling asks. */
  lemma TilesOneMore(source: string, ts: seq<Placed>, t: Placed, from: nat, to: nat)
    requires Tiling(source, ts) && from == EndOf(ts, |ts|) <= |source|
    requires Follows(source, from, t, to)
    ensures forall i :: 0 <= i <= |ts| ==> Tiled(source, ts + [t], i)
    ensures t.typ != Eof && t.typ != ErrorToken ==> t.length > 0 && to == EndOf(ts + [t], |ts| + 1)
    ensures t.typ == Eof ==> t.start == |source|
    ensures from <= to <= |source| && (t.typ != Eof && t.typ != ErrorToken ==> from < to)
  {
    hide LineAt, IsColumn, Blank, BlankLength, Scan;
    var rest := source[from..];
    SkippedIsBlank(rest);
    assert rest[..BlankLength(rest)] == source[from..from + BlankLength(rest)];
    forall i | 0 <= i < |ts| ensures Tiled(source, ts + [t], i) {
      assert Tiled(source, ts, i);
    }
  }

  lemma NextOfLex(source: string, from: nat, t: Placed, to: nat)
    requires from <= |source| && Follows(source, from, t, to)
    ensures Lex(source[from..]) ==
            [TextOf(source, t)] + if t.typ == Eof || t.typ == ErrorToken then [] else Lex(source[to..])
  {
    hide LineAt, IsColumn, Blank, BlankLength, Scan, Lex;
    var at := from + BlankLength(source[from..]);
    assert source[from..][BlankLength(source[from..])..] == source[at..];
    LexFrom(source[from..], source[at..]);
    assert source[t.start..t.start + t.length] == TextOf(source, t).lexeme;
    if at < |source| && t.typ != ErrorToken {
      assert source[at..][t.length..] == source[to..];
      assert source[at..][..t.length] == source[at..to];
    }
  }

  lemma NoTexts(source: string)
    ensures TextsOf(source, []) == [] && source[0..] == source
  {
  }

  lemma {:induction false} TextsOfSnoc(source: string, ts: seq<Placed>, t: Placed)
    ensures TextsOf(source, ts + [t]) == TextsOf(source, ts) + [TextOf(source, t)]
  {
    if ts != [] {
      TextsOfSnoc(source, ts[1..], t);
      assert (ts + [t])[1..] == ts[1..] + [t];
    }
  }
}
