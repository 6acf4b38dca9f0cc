/** The rule language's scanner: number, percentage and duration are told apart here. */
module RuleLexer {
  import opened RuleText
  import opened RuleErrors

  datatype TokenKind = EOF | Ident | Number | Duration | Str | LParen | RParen | GT | GE | LT | LE | EQ | NE

  datatype Token = Token(kind: TokenKind, text: string, pos: nat)

  /** One lexeme and the position after it, or the failure met. */
  datatype Step = Step(tok: Token, next: nat) | Stuck(error: RuleError)

  const NUL: char := '\0'

  function PeekAt(src: string, i: nat): char {
    if i < |src| then src[i] else NUL
  }

  predicate IsDurationUnit(s: string) {
    |s| == 1 && LowerChar(s[0]) in {'s', 'm', 'h', 'd', 'w'}
  }

  /** Position of the first quote at or after i, or the end. */
  function QuoteEnd(src: string, i: nat, quote: char): (j: nat)
    requires i <= |src|
    ensures i <= j <= |src|
    ensures forall k :: i <= k < j ==> src[k] != quote
    ensures j < |src| ==> src[j] == quote
    decreases |src| - i
  {
    if i < |src| && src[i] != quote then QuoteEnd(src, i + 1, quote) else i
  }

  function LexStringAt(src: string, i: nat): Step
    requires i < |src|
  {
    var j := QuoteEnd(src, i + 1, src[i]);
    if j < |src| then Step(Token(Str, src[i + 1..j], i), j + 1)
    else Stuck(RuleError(i, UnterminatedString))
  }

  /** Whether an exponent starts at j: the mark, perhaps a sign, and a digit. */
  predicate ExponentAt(src: string, j: nat) {
    j < |src| && IsExponentMark(src[j]) &&
    (IsDigit(PeekAt(src, j + 1)) || (IsSign(PeekAt(src, j + 1)) && IsDigit(PeekAt(src, j + 2))))
  }

  function NumberEnd(src: string, i: nat): (j: nat)
    requires i <= |src|
    ensures i <= j <= |src|
  {
    var j := RunEnd(src, i, IsNumberPart);
    if !ExponentAt(src, j) then j
    else RunEnd(src, if IsSign(src[j + 1]) then j + 2 else j + 1, IsDigit)
  }

  function LexNumberAt(src: string, i: nat): Step
    requires i < |src|
  {
    var j := NumberEnd(src, i);
    if j < |src| && src[j] == '%' then Step(Token(Number, src[i..j] + "%", i), j + 1)
    else if j < |src| && IsLetter(src[j]) then
      var k := RunEnd(src, j, IsLetter);
      if IsDurationUnit(src[j..k]) then Step(Token(Duration, src[i..j] + src[j..k], i), k)
      else Stuck(RuleError(i, UnknownDurationUnit))
    else Step(Token(Number, src[i..j], i), j)
  }

  function LexIdentAt(src: string, i: nat): Step
    requires i < |src|
  {
    var j := RunEnd(src, i, IsIdentPart);
    Step(Token(Ident, src[i..j], i), j)
  }

  function Emitted(kind: TokenKind, text: string, i: nat): Step {
    Step(Token(kind, text, i), i + |text|)
  }

  /** The lexeme that starts at a character that is not white space. */
  function LexOne(src: string, i: nat): Step
    requires i < |src| && !IsSpace(src[i])
  {
    var c, eq := src[i], PeekAt(src, i + 1) == '=';
    if c == '(' then Emitted(LParen, "(", i)
    else if c == ')' then Emitted(RParen, ")", i)
    else if c == '>' then if eq then Emitted(GE, ">=", i) else Emitted(GT, ">", i)
    else if c == '<' then if eq then Emitted(LE, "<=", i) else Emitted(LT, "<", i)
    else if c == '=' then if eq then Emitted(EQ, "==", i) else Emitted(EQ, "=", i)
    else if c == '!' then if eq then Emitted(NE, "!=", i) else Stuck(RuleError(i, UnexpectedCharacter))
    else if c == '"' || c == '\'' then LexStringAt(src, i)
    else if IsDigit(c) || c == '.' then LexNumberAt(src, i)
    else if IsIdentStart(c) then LexIdentAt(src, i)
    else Stuck(RuleError(i, UnexpectedCharacter))
  }

  /** Every lexeme consumes at least one character and stays inside the source. */
  lemma LexOneProgress(src: string, i: nat)
    requires i < |src| && !IsSpace(src[i])
    ensures var s := LexOne(src, i);
      if s.Step? then s.tok.pos == i < s.next <= |src| && s.tok.kind != EOF
      else s.error.pos == i
  {
    if IsDigit(src[i]) || src[i] == '.' {
      assert RunEnd(src, i, IsNumberPart) > i;
    }
  }

  /** The tokens from position i to the end of the source, closed by EOF. */
  function LexFrom(src: string, i: nat): Result<seq<Token>>
    requires i <= |src|
    decreases |src| - i
  {
    if i == |src| then Ok([Token(EOF, "", |src|)])
    else if IsSpace(src[i]) then LexFrom(src, i + 1)
    else
      LexOneProgress(src, i);
      var s := LexOne(src, i);
      if s.Stuck? then Err(s.error)
      else
        var rest :- LexFrom(src, s.next);
        Ok([s.tok] + rest)
  }

  function Tokens(src: string): Result<seq<Token>> {
    LexFrom(src, 0)
  }

  /** EOF stands last, and only last. */
  predicate EndsInEOF(toks: seq<Token>) {
    toks != [] && forall k :: 0 <= k < |toks| ==> (toks[k].kind == EOF <==> k == |toks| - 1)
  }

  lemma {:induction false} TokensEndInEOF(src: string, i: nat)
    requires i <= |src| && LexFrom(src, i).Ok?
    ensures EndsInEOF(LexFrom(src, i).value)
    decreases |src| - i
  {
    if i < |src| {
      if IsSpace(src[i]) {
        TokensEndInEOF(src, i + 1);
      } else {
        LexOneProgress(src, i);
        TokensEndInEOF(src, LexOne(src, i).next);
      }
    }
  }

  // ----- the scanner object -----

  function Prepend(toks: seq<Token>, r: Result<seq<Token>>): Result<seq<Token>> {
    if r.Ok? then Ok(toks + r.value) else r
  }

  class Lexer {
    const src: string
    var pos: nat
    var toks: seq<Token>

    constructor (src: string)
      ensures this.src == src && pos == 0 && toks == []
    {
      this.src := src;
      pos, toks := 0, [];
    }

    method Emit(kind: TokenKind, text: string, width: nat)
      modifies this
      ensures toks == old(toks) + [Token(kind, text, old(pos))] && pos == old(pos) + width
    {
      toks := toks + [Token(kind, text, pos)];
      pos := pos + width;
    }

    function Peek(n: nat): char
      reads this
    {
      if pos + n < |src| then src[pos + n] else NUL
    }

    /** Reads the string whose opening quote is at pos; on failure the text has been used up. */
    method LexString(quote: char) returns (r: Result<Token>)
      requires pos < |src| && src[pos] == quote
      modifies this`pos
      ensures match LexStringAt(src, old(pos))
              case Step(tok, next) => r == Ok(tok) && pos == next
              case Stuck(error) => r == Err(error) && pos == |src|
    {
      var start := pos;
      pos := pos + 1;
      var b := "";
      while pos < |src|
        invariant start < pos <= |src|
        invariant b == src[start + 1..pos]
        invariant QuoteEnd(src, start + 1, quote) == QuoteEnd(src, pos, quote)
      {
        var c := src[pos];
        if c == quote {
          pos := pos + 1;
          return Ok(Token(Str, b, start));
        }
        b := b + [c];
        pos := pos + 1;
      }
      return Err(RuleError(start, UnterminatedString));
    }

    method SkipRun(p: char -> bool)
      requires pos <= |src|
      modifies this`pos
      ensures pos == RunEnd(src, old(pos), p)
    {
      while pos < |src| && p(src[pos])
        invariant pos <= |src|
        invariant RunEnd(src, pos, p) == RunEnd(src, old(pos), p)
      {
        pos := pos + 1;
      }
    }

    method SkipNumber()
      requires pos < |src|
      modifies this`pos
      ensures pos == NumberEnd(src, old(pos))
    {
      SkipRun(IsNumberPart);
      if pos < |src| && IsExponentMark(src[pos]) {
        var next := Peek(1);
        if IsDigit(next) || (IsSign(next) && IsDigit(Peek(2))) {
          pos := pos + 1;
          if IsSign(src[pos]) {
            pos := pos + 1;
          }
          SkipRun(IsDigit);
        }
      }
    }

    method LexNumber() returns (r: Result<Token>)
      requires pos < |src|
      modifies this`pos
      ensures match LexNumberAt(src, old(pos))
              case Step(tok, next) => r == Ok(tok) && pos == next
              case Stuck(error) => r == Err(error)
    {
      var start := pos;
      SkipNumber();
      var num := src[start..pos];
      if pos < |src| && src[pos] == '%' {
        pos := pos + 1;
        return Ok(Token(Number, num + "%", start));
      }
      if pos < |src| && IsLetter(src[pos]) {
        var sufStart := pos;
        SkipRun(IsLetter);
        var suffix := src[sufStart..pos];
        if IsDurationUnit(suffix) {
          return Ok(Token(Duration, num + suffix, start));
        }
        return Err(RuleError(start, UnknownDurationUnit));
      }
      return Ok(Token(Number, num, start));
    }

    method LexIdent()
      requires pos < |src|
      modifies this
      ensures old(pos) <= pos <= |src|
      ensures LexIdentAt(src, old(pos)) == Step(Token(Ident, src[old(pos)..pos], old(pos)), pos)
      ensures toks == old(toks) + [Token(Ident, src[old(pos)..pos], old(pos))]
    {
      var start := pos;
      SkipRun(IsIdentPart);
      toks := toks + [Token(Ident, src[start..pos], start)];
    }

    /** One turn of the scanning loop at a character that is not white space. */
    method ScanOne() returns (r: Result<()>)
      requires pos < |src| && !IsSpace(src[pos])
      modifies this
      ensures match LexOne(src, old(pos))
              case Step(tok, next) => r == Ok(()) && pos == next && toks == old(toks) + [tok]
              case Stuck(error) => r == Err(error)
    {
      var c := src[pos];
      r := Ok(());
      if c == '(' {
        Emit(LParen, "(", 1);
      } else if c == ')' {
        Emit(RParen, ")", 1);
      } else if c == '>' {
        if Peek(1) == '=' { Emit(GE, ">=", 2); } else { Emit(GT, ">", 1); }
      } else if c == '<' {
        if Peek(1) == '=' { Emit(LE, "<=", 2); } else { Emit(LT, "<", 1); }
      } else if c == '=' {
        if Peek(1) == '=' { Emit(EQ, "==", 2); } else { Emit(EQ, "=", 1); }
      } else if c == '!' {
        if Peek(1) == '=' { Emit(NE, "!=", 2); } else { return Err(RuleError(pos, UnexpectedCharacter)); }
      } else if c == '"' || c == '\'' {
        var t :- LexString(c);
        toks := toks + [t];
      } else if IsDigit(c) || c == '.' {
        var t :- LexNumber();
        toks := toks + [t];
      } else if IsIdentStart(c) {
        LexIdent();
      } else {
        return Err(RuleError(pos, UnexpectedCharacter));
      }
    }
  }

  method Lex(src: string) returns (r: Result<seq<Token>>)
    ensures r == Tokens(src)
  {
    var l := new Lexer(src);
    assert Tokens(src).Ok? ==> [] + Tokens(src).value == Tokens(src).value;
    while l.pos < |l.src|
      invariant l.src == src && l.pos <= |src|
      invariant Prepend(l.toks, LexFrom(src, l.pos)) == Tokens(src)
      decreases |src| - l.pos
    {
      if IsSpace(l.src[l.pos]) {
        l.pos := l.pos + 1;
      } else {
        ghost var before, i := l.toks, l.pos;
        LexOneProgress(src, i);
        var scanned := l.ScanOne();
        if scanned.Err? {
          return Err(scanned.error);
        }
        PrependOne(before, LexOne(src, i).tok, LexFrom(src, l.pos));
      }
    }
    return Ok(l.toks + [Token(EOF, "", |src|)]);
  }

  lemma PrependOne(toks: seq<Token>, tok: Token, rest: Result<seq<Token>>)
    ensures Prepend(toks + [tok], rest) == Prepend(toks, if rest.Ok? then Ok([tok] + rest.value) else rest)
  {
    if rest.Ok? {
      assert toks + [tok] + rest.value == toks + ([tok] + rest.value);
    }
  }
}
