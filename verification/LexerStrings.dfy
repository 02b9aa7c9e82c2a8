/** Where a string literal ends, without a scan: at the first closing quote that is not escaped. */
module LexerStrings {
  import opened Lexer

  /** A character is escaped if the one before it is a backslash that is not escaped itself. */
  predicate Escaped(s: string, m: nat)
    requires m <= |s|
    decreases m
  {
    m > 0 && s[m - 1] == '\\' && !Escaped(s, m - 1)
  }

  function ClosingSize(triple: bool): nat {
    if triple then 3 else 1
  }

  /** One quote, or three, begin at `m`. */
  predicate QuotesAt(s: string, triple: bool, m: nat) {
    m + ClosingSize(triple) <= |s| && s[m] == '\"' && (triple ==> s[m + 1] == '\"' && s[m + 2] == '\"')
  }

  predicate Closes(s: string, triple: bool, m: nat) {
    QuotesAt(s, triple, m) && !Escaped(s, m)
  }

  /** Escapes can be counted from any character that is not escaped. */
  lemma {:induction false} EscapedFrom(s: string, k: nat, m: nat)
    requires k <= m <= |s| && !Escaped(s, k)
    ensures Escaped(s[k..], m - k) <==> Escaped(s, m)
    decreases m
  {
    if m > k { EscapedFrom(s, k, m - 1); }
  }

  lemma ClosesFrom(s: string, triple: bool, k: nat, m: nat)
    requires k <= m <= |s| && !Escaped(s, k)
    ensures Closes(s[k..], triple, m - k) <==> Closes(s, triple, m)
  {
    hide Escaped;
    EscapedFrom(s, k, m);
    assert forall i :: k <= i < |s| ==> s[k..][i - k] == s[i];
  }

  lemma ThreeQuotes(s: string)
    ensures Quotes(s, 3) <==> QuotesAt(s, true, 0)
  {
    if Quotes(s, 3) { assert s[0] == '\"' && s[1] == '\"' && s[2] == '\"'; }
  }

  /** The literal whose opening quotes have been read ends at the first unescaped closing quotes, if
      there are any, and is open otherwise. */
  lemma {:induction false} ClosesAtFirstUnescapedQuote(s: string, triple: bool)
    ensures match ClosingLength(s, triple)
            case Open => forall m: nat :: !Closes(s, triple, m)
            case Closed(n) => n >= ClosingSize(triple) && Closes(s, triple, n - ClosingSize(triple))
                              && forall m: nat :: m < n - ClosingSize(triple) ==> !Closes(s, triple, m)
    decreases |s|
  {
    ThreeQuotes(s);
    if s == [] {
    } else if QuotesAt(s, triple, 0) {
      assert Closes(s, triple, 0);
    } else {
      var step := if s[0] == '\\' && |s| > 1 then 2 else 1;
      ClosesAtFirstUnescapedQuote(s[step..], triple);
      ClosesLater(s, triple, step);
    }
  }

  /** Nothing closes before the next character the scan looks at, and behind it everything closes
      as it does counted from there. */
  lemma ClosesLater(s: string, triple: bool, step: nat)
    requires s != [] && !QuotesAt(s, triple, 0) && step == if s[0] == '\\' && |s| > 1 then 2 else 1
    ensures forall m: nat :: m < step ==> !Closes(s, triple, m)
    ensures forall m: nat :: Closes(s, triple, m + step) <==> Closes(s[step..], triple, m)
    ensures forall m: nat :: m >= step ==> (Closes(s, triple, m) <==> Closes(s[step..], triple, m - step))
  {
    assert step == 1 && s[0] == '\\' ==> |s| == 1;
    if |s| > 1 || s[0] != '\\' {
      assert !Escaped(s, step);
      forall m: nat ensures m >= step ==> (Closes(s, triple, m) <==> Closes(s[step..], triple, m - step)) {
        if step <= m <= |s| { ClosesFrom(s, triple, step, m); }
      }
    }
    forall m: nat ensures Closes(s, triple, m + step) <==> Closes(s[step..], triple, m) {
      assert m + step - step == m;
      assert m + step >= step;
    }
  }
}
