/** Tokeniser of the Sigma condition language: lower-case the text, pad every parenthesis with
    blanks, split on white space. */
module SigmaLexer {
  import opened WhiteSpace

  predicate IsDelimiter(c: char) { IsSpace(c) || c == '(' || c == ')' }

  function LowerChar(c: char): char {
    if 'A' <= c <= 'Z' then (c as int + 32) as char else c
  }

  function Lower(s: string): string {
    seq(|s|, i requires 0 <= i < |s| => LowerChar(s[i]))
  }

  // s.replace(p, " p ")
  function Pad(s: string, p: char): string {
    if s == [] then [] else (if s[0] == p then [' ', p, ' '] else [s[0]]) + Pad(s[1..], p)
  }

  function Flush(word: string): seq<string> {
    if word == [] then [] else [word]
  }

  // s.split(), with the word read so far
  function Split(s: string, word: string): seq<string> {
    if s == [] then Flush(word)
    else if IsSpace(s[0]) then Flush(word) + Split(s[1..], [])
    else Split(s[1..], word + [s[0]])
  }

  function Tokens(condition: string): seq<string> {
    Split(Pad(Pad(Lower(condition), '('), ')'), [])
  }

  // One pass that cuts at white space and makes each parenthesis a token of its own.
  function Lex(s: string, word: string): seq<string> {
    if s == [] then Flush(word)
    else if IsSpace(s[0]) then Flush(word) + Lex(s[1..], [])
    else if s[0] == '(' || s[0] == ')' then Flush(word) + [[s[0]]] + Lex(s[1..], [])
    else Lex(s[1..], word + [s[0]])
  }

  lemma PadConcat(a: string, b: string, p: char)
    ensures Pad(a + b, p) == Pad(a, p) + Pad(b, p)
  {
    if a == [] {
      assert a + b == b;
    } else {
      assert (a + b)[1..] == a[1..] + b;
      PadConcat(a[1..], b, p);
    }
  }

  lemma SplitPadded(p: char, s: string, word: string)
    requires p == '(' || p == ')'
    ensures Split([' ', p, ' '] + s, word) == Flush(word) + [[p]] + Split(s, [])
  {
    var t := [' ', p, ' '] + s;
    assert t[1..] == [p, ' '] + s;
    assert ([p, ' '] + s)[1..] == [' '] + s;
    assert ([' '] + s)[1..] == s;
    assert Split([p, ' '] + s, []) == Split([' '] + s, [p]) by { assert [] + [p] == [p]; }
    assert Split([' '] + s, [p]) == [[p]] + Split(s, []);
  }

  // Padding both parentheses and then splitting is the one-pass lexer.
  lemma {:induction false} SplitIsLex(s: string, word: string)
    ensures Split(Pad(Pad(s, '('), ')'), word) == Lex(s, word)
  {
    if s == [] {
    } else {
      var head := if s[0] == '(' then [' ', '(', ' '] else [s[0]];
      PadConcat(head, Pad(s[1..], '('), ')');
      var rest := Pad(Pad(s[1..], '('), ')');
      if s[0] == '(' || s[0] == ')' {
        assert Pad(head, ')') == [' ', s[0], ' '] by {
          assert Pad([' '], ')') == [' '] by { assert [' '][1..] == []; }
          if s[0] == '(' {
            assert head[1..] == ['(', ' '] && head[1..][1..] == [' '];
            assert Pad(['(', ' '], ')') == ['(', ' '];
          } else {
            assert head[1..] == [];
          }
        }
        SplitPadded(s[0], rest, word);
        SplitIsLex(s[1..], []);
      } else {
        assert Pad(head, ')') == [s[0]] by { assert head[1..] == []; }
        assert ([s[0]] + rest)[1..] == rest;
        SplitIsLex(s[1..], if IsSpace(s[0]) then [] else word + [s[0]]);
      }
    }
  }

  lemma TokensAreLex(condition: string)
    ensures Tokens(condition) == Lex(Lower(condition), [])
  {
    SplitIsLex(Lower(condition), []);
  }

  // A text may be cut in front of any delimiter.
  lemma {:induction false} LexCut(a: string, b: string, word: string)
    requires b == [] || IsDelimiter(b[0])
    ensures Lex(a + b, word) == Lex(a, word) + Lex(b, [])
  {
    if a == [] {
      assert a + b == b;
    } else {
      assert (a + b)[1..] == a[1..] + b;
      LexCut(a[1..], b, if IsDelimiter(a[0]) then [] else word + [a[0]]);
    }
  }

  predicate Word(w: string) {
    w != [] && forall i | 0 <= i < |w| :: !IsDelimiter(w[i])
  }

  lemma {:induction false} LexWord(w: string, word: string)
    requires forall i | 0 <= i < |w| :: !IsDelimiter(w[i])
    ensures Lex(w, word) == Flush(word + w)
  {
    if w == [] {
      assert word + w == word;
    } else {
      LexWord(w[1..], word + [w[0]]);
      assert word + [w[0]] + w[1..] == word + w;
    }
  }

  // A word followed by a delimiter is one token.
  lemma LexWordThen(w: string, b: string)
    requires Word(w) && (b == [] || IsDelimiter(b[0]))
    ensures Lex(w + b, []) == [w] + Lex(b, [])
  {
    LexCut(w, b, []);
    LexWord(w, []);
    assert [] + w == w;
  }

  lemma LowerConcat(a: string, b: string)
    ensures Lower(a + b) == Lower(a) + Lower(b)
  {}

  // Every token is a parenthesis or a word, and is already in lower case.
  lemma {:induction false} LexTokens(s: string, word: string)
    requires Lower(s) == s && Lower(word) == word && (word == [] || Word(word))
    ensures forall t | t in Lex(s, word) :: (t == "(" || t == ")" || Word(t)) && Lower(t) == t
  {
    if s == [] {
    } else {
      assert LowerChar(s[0]) == s[0] by { assert Lower(s)[0] == s[0]; }
      assert Lower(s[1..]) == s[1..] by {
        forall i | 0 <= i < |s| - 1 ensures LowerChar(s[1..][i]) == s[1..][i] { assert Lower(s)[i + 1] == s[i + 1]; }
      }
      if IsDelimiter(s[0]) {
        LexTokens(s[1..], []);
      } else {
        LowerConcat(word, [s[0]]);
        LexTokens(s[1..], word + [s[0]]);
      }
    }
  }

  lemma LowerIdempotent(s: string)
    ensures Lower(Lower(s)) == Lower(s)
  {}

  // Lower-casing leaves no upper-case letter, and changes a letter to the same one in lower case, and nothing else.
  lemma LowerIsLowerCase(s: string)
    ensures |Lower(s)| == |s| && forall i | 0 <= i < |s| :: !('A' <= Lower(s)[i] <= 'Z')
    ensures forall i | 0 <= i < |s| ::
              if 'A' <= s[i] <= 'Z' then 'a' <= Lower(s)[i] <= 'z' && Lower(s)[i] - 'a' == s[i] - 'A'
              else Lower(s)[i] == s[i]
  {}

  lemma TokensShape(condition: string)
    ensures forall t | t in Tokens(condition) :: (t == "(" || t == ")" || Word(t)) && Lower(t) == t
    ensures forall t, i | t in Tokens(condition) && 0 <= i < |t| :: !('A' <= t[i] <= 'Z')
  {
    TokensAreLex(condition);
    LowerIdempotent(condition);
    LexTokens(Lower(condition), []);
    forall t, i | t in Tokens(condition) && 0 <= i < |t| ensures !('A' <= t[i] <= 'Z') { LowerIsLowerCase(t); }
  }
}
