/** How tokens are spelled: the lexer reads each keyword and each mark from the one spelling the
    grammar gives it, and every other word as a name. */
module LexerSpelling {
  import opened Lexer
  import opened Printer
  import opened FormatterRoundTrip
  import opened LexerStrings

  /** A word that is not the spelling of a keyword. */
  ghost predicate IsName(w: string) {
    IsWholeWord(w) && forall typ: TokenType :: Spelling(typ) != w
  }

  predicate IsWholeWord(w: string) {
    w != [] && (IsAlpha(w[0]) || w[0] == '_') && forall i :: 0 <= i < |w| ==> IsWord(w[i])
  }

  predicate AllDigits(w: string) {
    forall i :: 0 <= i < |w| ==> IsDigit(w[i])
  }

  /** Digits, and perhaps a point and more digits. */
  ghost predicate IsNumeral(w: string) {
    exists n :: 0 < n <= |w| && AllDigits(w[..n]) && (n == |w| || (w[n] == '.' && AllDigits(w[n + 1..])))
  }

  lemma {:induction false} WordLengthIff(w: string)
    ensures WordLength(w) == |w| <==> forall i :: 0 <= i < |w| ==> IsWord(w[i])
  {
    if w != [] {
      WordLengthIff(w[1..]);
      if forall i :: 0 <= i < |w| ==> IsWord(w[i]) {
        forall i | 0 <= i < |w[1..]| ensures IsWord(w[1..][i]) { assert w[1..][i] == w[i + 1]; }
      }
      if WordLength(w) == |w| {
        forall i | 0 <= i < |w| ensures IsWord(w[i]) { if i > 0 { assert w[i] == w[1..][i - 1]; } }
      }
    }
  }

  lemma {:induction false} DigitsLengthIff(w: string)
    ensures DigitsLength(w) == |w| <==> AllDigits(w)
  {
    if w != [] {
      DigitsLengthIff(w[1..]);
      if AllDigits(w) {
        forall i | 0 <= i < |w[1..]| ensures IsDigit(w[1..][i]) { assert w[1..][i] == w[i + 1]; }
      }
      if DigitsLength(w) == |w| {
        forall i | 0 <= i < |w| ensures IsDigit(w[i]) { if i > 0 { assert w[i] == w[1..][i - 1]; } }
      }
    }
  }

  /** What a whole word is read as. */
  lemma WordScans(w: string)
    requires IsWholeWord(w)
    ensures Scan(w) == Scanned(KeywordType(w), |w|)
  {
    hide KeywordType;
    WordLengthIff(w);
    assert w[..|w|] == w;
  }

  predicate IsKeyword(typ: TokenType) {
    match typ
    case ModuleKeyword => true
    case ImportKeyword => true
    case FunKeyword => true
    case LetKeyword => true
    case TypeKeyword => true
    case IfKeyword => true
    case WhileKeyword => true
    case ElseKeyword => true
    case MatchKeyword => true
    case AsyncKeyword => true
    case AwaitKeyword => true
    case TrueKeyword => true
    case FalseKeyword => true
    case _ => false
  }

  /** Each keyword and each mark is read from its spelling, and from nothing else. */
  lemma MarkIffSpelled(t: Token)
    requires Spelling(t.typ) != []
    ensures Lexable(t) <==> t.lexeme == Spelling(t.typ)
  {
    hide Spelling, Scan;
    if IsKeyword(t.typ) { KeywordIffSpelled(t); } else { PunctuationIffSpelled(t); }
  }

  lemma KeywordIffSpelled(t: Token)
    requires IsKeyword(t.typ)
    ensures Lexable(t) <==> t.lexeme == Spelling(t.typ)
  {
    hide KeywordType, Spelling, WordLength, NumberLength, StringLength;
    var w := t.lexeme;
    KeywordIsWord(t.typ);
    KeywordIsSpelled(w, t.typ);
    if w == Spelling(t.typ) {
      WordScans(w);
    } else if Lexable(t) {
      ScannedWord(w);
    }
  }

  lemma KeywordIsWord(typ: TokenType)
    requires IsKeyword(typ)
    ensures IsWholeWord(Spelling(typ))
  {
  }

  lemma OthersAreNoWords(typ: TokenType)
    requires !IsKeyword(typ)
    ensures !IsWholeWord(Spelling(typ))
  {
  }

  /** nova_match_keyword knows the spellings of the grammar. */
  lemma KeywordIsSpelled(w: string, typ: TokenType)
    requires IsKeyword(typ)
    ensures KeywordType(w) == typ <==> w == Spelling(typ)
  {
  }

  lemma KeywordOrName(w: string)
    ensures KeywordType(w) == Identifier || IsKeyword(KeywordType(w))
  {
  }

  /** Words are only read from words. */
  lemma ScannedWord(w: string)
    requires w != [] && Scan(w).length == |w| && (Scan(w).typ == Identifier || IsKeyword(Scan(w).typ))
    ensures IsWholeWord(w) && Scan(w).typ == KeywordType(w)
  {
    hide KeywordType, WordLength, NumberLength, StringLength;
    WordLengthIff(w);
    assert w[..|w|] == w;
  }

  lemma PunctuationIffSpelled(t: Token)
    requires Spelling(t.typ) != [] && !IsKeyword(t.typ)
    ensures Lexable(t) <==> t.lexeme == Spelling(t.typ)
  {
    hide WordLength, NumberLength, StringLength, KeywordType, IsWord;
    if t.lexeme != [] { KeywordOrName(t.lexeme[..WordLength(t.lexeme)]); }
  }

  /** A word is read as a name if and only if it is no keyword. */
  lemma NameIff(w: string)
    ensures Lexable(Token(Identifier, w)) <==> IsName(w)
  {
    hide KeywordType, Spelling, WordLength, NumberLength, StringLength;
    if IsWholeWord(w) {
      WordScans(w);
      forall typ: TokenType ensures Spelling(typ) == w <==> IsKeyword(typ) && KeywordType(w) == typ {
        if IsKeyword(typ) { KeywordIsSpelled(w, typ); } else { OthersAreNoWords(typ); }
      }
      KeywordOrName(w);
    } else if Lexable(Token(Identifier, w)) {
      ScannedWord(w);
    }
  }

  lemma DigitsPrefix(w: string, n: nat)
    requires n <= |w| && AllDigits(w[..n]) && (n == |w| || !IsDigit(w[n]))
    ensures DigitsLength(w) == n
  {
    DigitsLengthIff(w[..n]);
    DigitsStop(w[..n], w[n..]);
    assert w == w[..n] + w[n..];
  }

  lemma NumeralHasLength(w: string)
    ensures IsNumeral(w) <==> w != [] && IsDigit(w[0]) && NumberLength(w) == |w|
  {
    if IsNumeral(w) {
      var n :| 0 < n <= |w| && AllDigits(w[..n]) && (n == |w| || (w[n] == '.' && AllDigits(w[n + 1..])));
      assert w[..n][0] == w[0];
      DigitsPrefix(w, n);
      if n < |w| { DigitsLengthIff(w[n + 1..]); }
    }
    if w != [] && IsDigit(w[0]) && NumberLength(w) == |w| {
      var n := DigitsLength(w);
      DigitsOnly(w);
      assert AllDigits(w[..n]);
      if n < |w| { DigitsLengthIff(w[n + 1..]); }
    }
  }

  /** A number is digits, and perhaps a point and more digits. */
  lemma NumeralIff(w: string)
    ensures Lexable(Token(NumberToken, w)) <==> IsNumeral(w)
  {
    hide KeywordType, WordLength, StringLength, NumberLength, IsNumeral;
    NumeralHasLength(w);
    if w != [] { KeywordOrName(w[..WordLength(w)]); }
  }

  /** Text between quotes, or between three quotes if it begins with three, whose first closing quotes that
      no backslash escapes are its end. */
  ghost predicate IsText(w: string) {
    var triple := QuotesAt(w, true, 0);
    var n := ClosingSize(triple);
    && w != [] && w[0] == '\"' && 2 * n <= |w|
    && Closes(w[n..], triple, |w| - 2 * n)
    && forall m: nat :: m < |w| - 2 * n ==> !Closes(w[n..], triple, m)
  }

  lemma TextHasLength(w: string)
    ensures IsText(w) <==> w != [] && w[0] == '\"' && StringLength(w) == Closed(|w|)
  {
    if w != [] && w[0] == '\"' {
      ThreeQuotes(w);
      var triple := QuotesAt(w, true, 0);
      var n := ClosingSize(triple);
      assert OpeningLength(w) == n;
      ClosesAtFirstUnescapedQuote(w[n..], triple);
      hide ClosingLength, Escaped, QuotesAt;
      if IsText(w) {
        FirstIsUnique(w[n..], triple, |w| - 2 * n);
      }
    }
  }

  /** There is one first place that closes. */
  lemma FirstIsUnique(s: string, triple: bool, m: nat)
    requires Closes(s, triple, m) && forall k: nat :: k < m ==> !Closes(s, triple, k)
    ensures ClosingLength(s, triple) == Closed(m + ClosingSize(triple))
  {
    ClosesAtFirstUnescapedQuote(s, triple);
    hide ClosingLength, Closes;
  }

  lemma TextIff(w: string)
    ensures Lexable(Token(StringToken, w)) <==> IsText(w)
  {
    hide KeywordType, WordLength, StringLength, NumberLength, IsText;
    TextHasLength(w);
    if w != [] { KeywordOrName(w[..WordLength(w)]); }
  }
}
