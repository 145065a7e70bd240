/** Token recognition and quoting of the shell command language: sections 2.2.1 to 2.2.3, 2.3 and 2.10.1 of
    POSIX.1-2017, one character at a time.

    Every character of a word remembers whether it was quoted. Command substitution and braced parameter
    expansion start a lexer of their own and are rejected here. */
module ShellLexer {
  import opened Prelude

  datatype QChar = QChar(c: char, quoted: bool)

  type Word = seq<QChar>

  datatype Token = WordToken(word: Word) | IoNumber(digits: Word) | Operator(op: string) | NewlineToken

  datatype Mode =
    | Between
    | InWord(word: Word)
    | Dollar(word: Word)
    | Escaped(word: Word, started: bool)
    | Single(word: Word)
    | Double(word: Word)
    | DoubleEscaped(word: Word)
    | InOperator(op: string)
    | Comment
    | Unsupported

  datatype Lexer = Lexer(tokens: seq<Token>, mode: Mode)

  predicate Blank(c: char) {
    c == ' ' || c == '\t'
  }

  predicate OperatorStart(c: char) {
    c == '&' || c == '|' || c == ';' || c == '<' || c == '>' || c == '(' || c == ')'
  }

  /** `op` followed by `c` is an operator. */
  predicate Extends(op: string, c: char) {
    || (op == "&" && c == '&')
    || (op == "|" && c == '|')
    || (op == ";" && c == ';')
    || (op == "<" && (c == '<' || c == '&' || c == '>'))
    || (op == ">" && (c == '>' || c == '&' || c == '|'))
    || (op == "<<" && c == '-')
  }

  predicate AllDigits(w: Word) {
    w != [] && forall i :: 0 <= i < |w| ==> !w[i].quoted && '0' <= w[i].c <= '9'
  }

  /** The token a finished word is: digits right before a redirection are a file descriptor. */
  function Delimited(w: Word, next: char): Token {
    if (next == '<' || next == '>') && AllDigits(w) then IoNumber(w) else WordToken(w)
  }

  /** A character that belongs to a word. */
  function WordChar(tokens: seq<Token>, w: Word, started: bool, c: char): Lexer {
    if c == '\'' then Lexer(tokens, Single(w))
    else if c == '"' then Lexer(tokens, Double(w))
    else if c == '\\' then Lexer(tokens, Escaped(w, started))
    else if c == '`' then Lexer(tokens, Unsupported)
    else if c == '$' then Lexer(tokens, Dollar(w + [QChar(c, false)]))
    else Lexer(tokens, InWord(w + [QChar(c, false)]))
  }

  /** A character between tokens. */
  function Begin(tokens: seq<Token>, c: char): Lexer {
    if c == '\n' then Lexer(tokens + [NewlineToken], Between)
    else if Blank(c) then Lexer(tokens, Between)
    else if c == '#' then Lexer(tokens, Comment)
    else if OperatorStart(c) then Lexer(tokens, InOperator([c]))
    else WordChar(tokens, [], false, c)
  }

  function Continue(tokens: seq<Token>, w: Word, c: char): Lexer {
    if c == '\n' then Lexer(tokens + [WordToken(w), NewlineToken], Between)
    else if Blank(c) then Lexer(tokens + [WordToken(w)], Between)
    else if OperatorStart(c) then Lexer(tokens + [Delimited(w, c)], InOperator([c]))
    else WordChar(tokens, w, true, c)
  }

  function Step(l: Lexer, c: char): Lexer {
    match l.mode
    case Between => Begin(l.tokens, c)
    case InWord(w) => Continue(l.tokens, w, c)
    case Dollar(w) => if c == '(' || c == '{' then l.(mode := Unsupported) else Continue(l.tokens, w, c)
    case Escaped(w, started) =>
      if c != '\n' then l.(mode := InWord(w + [QChar(c, true)]))
      else if started then l.(mode := InWord(w)) else l.(mode := Between)
    case Single(w) => if c == '\'' then l.(mode := InWord(w)) else l.(mode := Single(w + [QChar(c, true)]))
    case Double(w) =>
      if c == '"' then l.(mode := InWord(w))
      else if c == '\\' then l.(mode := DoubleEscaped(w))
      else if c == '$' || c == '`' then l.(mode := Unsupported)
      else l.(mode := Double(w + [QChar(c, true)]))
    case DoubleEscaped(w) =>
      if c == '\n' then l.(mode := Double(w))
      else if c == '$' || c == '`' || c == '"' || c == '\\' then l.(mode := Double(w + [QChar(c, true)]))
      else l.(mode := Double(w + [QChar('\\', true), QChar(c, true)]))
    case InOperator(op) =>
      if Extends(op, c) then l.(mode := InOperator(op + [c])) else Begin(l.tokens + [Operator(op)], c)
    case Comment => if c == '\n' then Lexer(l.tokens + [NewlineToken], Between) else l
    case Unsupported => l
  }

  function Run(l: Lexer, s: string): Lexer
    decreases |s|
  {
    if s == "" then l else Run(Step(l, s[0]), s[1..])
  }

  /** At the end of the input; `None` when a quotation is open or the input was rejected. */
  function Finish(l: Lexer): Option<seq<Token>> {
    match l.mode
    case Between => Some(l.tokens)
    case Comment => Some(l.tokens)
    case InWord(w) => Some(l.tokens + [WordToken(w)])
    case Dollar(w) => Some(l.tokens + [WordToken(w)])
    case InOperator(op) => Some(l.tokens + [Operator(op)])
    case _ => None
  }

  function Lex(s: string): Option<seq<Token>> {
    Finish(Run(Lexer([], Between), s))
  }

  // ----- Words -----

  function Bare(s: string): Word {
    seq(|s|, i requires 0 <= i < |s| => QChar(s[i], false))
  }

  function Quoted(s: string): Word {
    seq(|s|, i requires 0 <= i < |s| => QChar(s[i], true))
  }

  /** Quote removal. */
  function Text(w: Word): string {
    seq(|w|, i requires 0 <= i < |w| => w[i].c)
  }

  /** Characters without any meaning of their own to the shell, wherever they stand in a word. */
  predicate Plain(c: char) {
    || 'A' <= c <= 'Z' || 'a' <= c <= 'z' || '0' <= c <= '9'
    || c == '_' || c == '.' || c == '/' || c == ':' || c == '-' || c == '='
  }

  predicate AllPlain(s: string) {
    forall i :: 0 <= i < |s| ==> Plain(s[i])
  }

  // ----- How the lexer moves -----

  lemma RunCons(l: Lexer, c: char, s: string)
    ensures Run(l, [c] + s) == Run(Step(l, c), s)
  {
    assert ([c] + s)[1..] == s;
  }

  lemma {:induction false} RunConcat(l: Lexer, a: string, b: string)
    ensures Run(l, a + b) == Run(Run(l, a), b)
    decreases |a|
  {
    if a == "" {
      assert a + b == b;
    } else {
      assert (a + b)[1..] == a[1..] + b;
      RunConcat(Step(l, a[0]), a[1..], b);
    }
  }

  lemma {:induction false} RunPlain(tokens: seq<Token>, w: Word, s: string)
    requires AllPlain(s)
    ensures Run(Lexer(tokens, InWord(w)), s) == Lexer(tokens, InWord(w + Bare(s)))
    decreases |s|
  {
    if s == "" {
      assert w + Bare(s) == w;
    } else {
      RunPlain(tokens, w + [QChar(s[0], false)], s[1..]);
      assert w + Bare(s) == w + [QChar(s[0], false)] + Bare(s[1..]);
    }
  }

  /** A plain word starts a word wherever a token may start. */
  lemma RunPlainFromBetween(tokens: seq<Token>, s: string)
    requires AllPlain(s) && s != ""
    ensures Run(Lexer(tokens, Between), s) == Lexer(tokens, InWord(Bare(s)))
  {
    RunPlain(tokens, [QChar(s[0], false)], s[1..]);
    assert Bare(s) == [QChar(s[0], false)] + Bare(s[1..]);
    assert [] + [QChar(s[0], false)] == [QChar(s[0], false)];
  }

  /** ... and also right after an operator that it does not extend. */
  lemma RunPlainFromOperator(tokens: seq<Token>, op: string, s: string)
    requires AllPlain(s) && s != "" && op != "<<"
    ensures Run(Lexer(tokens, InOperator(op)), s) == Lexer(tokens + [Operator(op)], InWord(Bare(s)))
  {
    RunPlainFromBetween(tokens + [Operator(op)], s);
    RunCons(Lexer(tokens, InOperator(op)), s[0], s[1..]);
    RunCons(Lexer(tokens + [Operator(op)], Between), s[0], s[1..]);
    assert [s[0]] + s[1..] == s;
  }

  // ----- Lines -----

  /** The lexer has seen exactly `tokens` once its last token is ended. */
  ghost predicate Closed(l: Lexer, tokens: seq<Token>) {
    match l.mode
    case InWord(w) => tokens == l.tokens + [WordToken(w)]
    case InOperator(op) => tokens == l.tokens + [Operator(op)]
    case _ => false
  }

  /** Wherever a token may start, this line gives exactly these tokens. */
  ghost predicate Completes(line: string, tokens: seq<Token>) {
    forall before :: Closed(Run(Lexer(before, Between), line), before + tokens)
  }

  function JoinLines(lines: seq<string>): string
    requires lines != []
  {
    if |lines| == 1 then lines[0] else lines[0] + "\n" + JoinLines(lines[1..])
  }

  function JoinTokens(lines: seq<seq<Token>>): seq<Token>
    requires lines != []
  {
    if |lines| == 1 then lines[0] else lines[0] + [NewlineToken] + JoinTokens(lines[1..])
  }

  lemma NewlineCloses(l: Lexer, tokens: seq<Token>)
    requires Closed(l, tokens)
    ensures Step(l, '\n') == Lexer(tokens + [NewlineToken], Between)
    ensures Finish(l) == Some(tokens)
  {
    if l.mode.InWord? {
      assert l.tokens + [WordToken(l.mode.word), NewlineToken] == tokens + [NewlineToken];
    }
  }

  lemma LineThenRest(before: seq<Token>, line: string, tokens: seq<Token>, rest: string)
    requires Completes(line, tokens)
    ensures Run(Lexer(before, Between), line + "\n" + rest)
        == Run(Lexer(before + tokens + [NewlineToken], Between), rest)
  {
    var start := Lexer(before, Between);
    var first := Run(start, line);
    assert Closed(first, before + tokens);
    NewlineCloses(first, before + tokens);
    RunConcat(start, line, "\n" + rest);
    RunCons(first, '\n', rest);
    assert ['\n'] + rest == "\n" + rest;
    assert line + ("\n" + rest) == line + "\n" + rest;
  }

  function LexFrom(before: seq<Token>, s: string): Option<seq<Token>> {
    Finish(Run(Lexer(before, Between), s))
  }

  /** `lex` ends `tokens` with the line or with the newline after it. */
  ghost predicate EndsWithLine(lex: (seq<Token>, string) -> Option<seq<Token>>, line: string, tokens: seq<Token>) {
    && (forall before :: lex(before, line) == Some(before + tokens))
    && (forall before, rest :: lex(before, line + "\n" + rest) == lex(before + tokens + [NewlineToken], rest))
  }

  lemma CompleteLinesEnd(line: string, tokens: seq<Token>)
    requires Completes(line, tokens)
    ensures EndsWithLine(LexFrom, line, tokens)
  {
    forall before ensures LexFrom(before, line) == Some(before + tokens) {
      NewlineCloses(Run(Lexer(before, Between), line), before + tokens);
    }
    forall before, rest ensures LexFrom(before, line + "\n" + rest) == LexFrom(before + tokens + [NewlineToken], rest) {
      LineThenRest(before, line, tokens, rest);
    }
  }

  /** Lines joined by newlines lex line by line. */
  lemma {:induction false} LinesEnd(lex: (seq<Token>, string) -> Option<seq<Token>>, before: seq<Token>,
                                    lines: seq<string>, tokens: seq<seq<Token>>)
    requires |lines| == |tokens| > 0 && forall i :: 0 <= i < |lines| ==> EndsWithLine(lex, lines[i], tokens[i])
    ensures lex(before, JoinLines(lines)) == Some(before + JoinTokens(tokens))
    decreases |lines|
  {
    assert EndsWithLine(lex, lines[0], tokens[0]);
    if |lines| > 1 {
      LinesEnd(lex, before + tokens[0] + [NewlineToken], lines[1..], tokens[1..]);
      assert before + tokens[0] + [NewlineToken] + JoinTokens(tokens[1..])
          == before + (tokens[0] + [NewlineToken] + JoinTokens(tokens[1..]));
    }
  }

  lemma LinesLex(lines: seq<string>, tokens: seq<seq<Token>>)
    requires |lines| == |tokens| > 0 && forall i :: 0 <= i < |lines| ==> Completes(lines[i], tokens[i])
    ensures Lex(JoinLines(lines)) == Some(JoinTokens(tokens))
  {
    forall i | 0 <= i < |lines| ensures EndsWithLine(LexFrom, lines[i], tokens[i]) {
      CompleteLinesEnd(lines[i], tokens[i]);
    }
    LinesEnd(LexFrom, [], lines, tokens);
    assert [] + JoinTokens(tokens) == JoinTokens(tokens);
  }
}
