/** The launch script of a runtime, and what a shell makes of it. */
module LaunchScript {
  import opened Prelude
  import Strings = Text
  import opened ShellLexer

  // ----- The printer -----

  predicate SafeChar(c: char) {
    || 'A' <= c <= 'Z' || 'a' <= c <= 'z' || '0' <= c <= '9'
    || c == '_' || c == '.' || c == '/' || c == ':' || c == '-'
  }

  /** `/^[A-Za-z0-9_./:-]+$/` */
  predicate Safe(value: string) {
    value != "" && forall i :: 0 <= i < |value| ==> SafeChar(value[i])
  }

  /** Every single quote becomes: close, a double-quoted single quote, reopen. */
  function ReplaceQuotes(value: string): string {
    if value == "" then "" else (if value[0] == '\'' then "'\"'\"'" else [value[0]]) + ReplaceQuotes(value[1..])
  }

  function ShellEscape(value: string): string {
    if Safe(value) then value else "'" + ReplaceQuotes(value) + "'"
  }

  function JoinWords(words: seq<string>): string
    requires words != []
  {
    if |words| == 1 then words[0] else words[0] + " " + JoinWords(words[1..])
  }

  function EscapedWords(command: seq<string>): seq<string> {
    seq(|command|, i requires 0 <= i < |command| => ShellEscape(command[i]))
  }

  function ToShellCommand(command: seq<string>): string
    requires command != []
  {
    JoinWords(EscapedWords(command))
  }

  // Long constants are written in pieces: the verifier looks at the characters of a short literal one by one, and
  // `AllPlainConcat` puts the pieces together.
  const DEV_NULL := "/dev/null"
  const SSHD_LOG := "/tmp/inject-" + "sshd.log"
  const APP_LOG := "/tmp/microsand" + "box-app.log"
  const SSHD_WORDS := [
    "SSHD_PORT=22",
    "SSHD_HOST_KEY=" + "/etc/ssh/" + "host_key",
    "SSHD_AUTHORIZED_" + "KEYS=/root/.ssh/" + "authorized_keys",
    "/usr/local/sbin/" + "inject-sshd"]

  /** In the background, output to a log, no input. */
  function Background(log: string): string {
    " >" + log + (" 2" + ">&" + "1") + (" <" + DEV_NULL + " &")
  }

  function CdLine(dir: string): string {
    "cd" + " " + ShellEscape(dir)
  }

  function SshdLine(): string {
    JoinWords(SSHD_WORDS) + Background(SSHD_LOG)
  }

  const PID_LINE := "ssh_pid=" + "$!"

  function CommandLine(command: seq<string>): string {
    if command == [] then "" else ToShellCommand(command) + Background(APP_LOG)
  }

  // ----- What each piece means to the shell -----

  /** The word a value should be: all of it literal, one way or the other. */
  function ShellWord(value: string): Word {
    if Safe(value) then Bare(value) else Quoted(value)
  }

  function ShellWords(values: seq<string>): seq<Word> {
    seq(|values|, i requires 0 <= i < |values| => ShellWord(values[i]))
  }

  function BareWords(values: seq<string>): seq<Word> {
    seq(|values|, i requires 0 <= i < |values| => Bare(values[i]))
  }

  function WordTokens(words: seq<Word>): seq<Token> {
    seq(|words|, i requires 0 <= i < |words| => WordToken(words[i]))
  }

  function BackgroundTokens(log: string): seq<Token> {
    [Operator(">"), WordToken(Bare(log)), IoNumber(Bare("2")), Operator(">&"), WordToken(Bare("1")),
     Operator("<"), WordToken(Bare(DEV_NULL)), Operator("&")]
  }

  /** The value survives quote removal, and no character of it that could mean anything is left unquoted. */
  lemma ShellWordIsVerbatim(value: string)
    ensures Text(ShellWord(value)) == value
    ensures forall i :: 0 <= i < |value| ==> ShellWord(value)[i].quoted || Plain(value[i])
  {
  }

  // ----- Lexing the pieces -----

  lemma {:induction false} QuotedLexes(tokens: seq<Token>, w: Word, value: string)
    ensures Run(Lexer(tokens, Single(w)), ReplaceQuotes(value)) == Lexer(tokens, Single(w + Quoted(value)))
    decreases |value|
  {
    if value == "" {
      assert w + Quoted(value) == w;
    } else {
      var c := value[0];
      var first := if c == '\'' then "'\"'\"'" else [c];
      RunConcat(Lexer(tokens, Single(w)), first, ReplaceQuotes(value[1..]));
      assert Run(Lexer(tokens, Single(w)), first) == Lexer(tokens, Single(w + [QChar(c, true)])) by {
        if c == '\'' {
          RunQuoteQuote(tokens, w);
        } else {
          RunCons(Lexer(tokens, Single(w)), c, "");
          assert [c] + "" == [c];
        }
      }
      QuotedLexes(tokens, w + [QChar(c, true)], value[1..]);
      assert w + Quoted(value) == w + [QChar(c, true)] + Quoted(value[1..]);
    }
  }

  lemma RunQuoteQuote(tokens: seq<Token>, w: Word)
    ensures Run(Lexer(tokens, Single(w)), "'\"'\"'") == Lexer(tokens, Single(w + [QChar('\'', true)]))
  {
    var q := w + [QChar('\'', true)];
    assert "'\"'\"'" == ['\''] + "\"'\"'" && "\"'\"'" == ['"'] + "'\"'" && "'\"'" == ['\''] + "\"'"
        && "\"'" == ['"'] + "'";
    RunCons(Lexer(tokens, Single(w)), '\'', "\"'\"'");
    RunCons(Lexer(tokens, InWord(w)), '"', "'\"'");
    RunCons(Lexer(tokens, Double(w)), '\'', "\"'");
    RunCons(Lexer(tokens, Double(q)), '"', "'");
    RunCons(Lexer(tokens, InWord(q)), '\'', "");
    assert ['\''] + "" == "'";
  }

  /** An escaped value is one word, begun where a token may begin and still open at its end. */
  lemma EscapeLexes(tokens: seq<Token>, value: string)
    ensures Run(Lexer(tokens, Between), ShellEscape(value)) == Lexer(tokens, InWord(ShellWord(value)))
  {
    if Safe(value) {
      RunPlainFromBetween(tokens, value);
    } else {
      var inner := ReplaceQuotes(value);
      RunCons(Lexer(tokens, Between), '\'', inner + "'");
      assert ['\''] + (inner + "'") == "'" + inner + "'";
      RunConcat(Lexer(tokens, Single([])), inner, "'");
      QuotedLexes(tokens, [], value);
      assert [] + Quoted(value) == Quoted(value);
      RunCons(Lexer(tokens, Single(Quoted(value))), '\'', "");
      assert ['\''] + "" == "'";
    }
  }

  lemma BlankEndsWord(tokens: seq<Token>, w: Word, rest: string)
    ensures Run(Lexer(tokens, InWord(w)), " " + rest) == Run(Lexer(tokens + [WordToken(w)], Between), rest)
  {
    RunCons(Lexer(tokens, InWord(w)), ' ', rest);
    assert [' '] + rest == " " + rest;
  }

  /** Wherever a token may start, the text is this one word, still open at its end. */
  ghost predicate LexesAs(text: string, w: Word) {
    forall tokens :: Run(Lexer(tokens, Between), text) == Lexer(tokens, InWord(w))
  }

  ghost predicate AllLexAs(texts: seq<string>, words: seq<Word>) {
    |texts| == |words| > 0 && forall i :: 0 <= i < |texts| ==> LexesAs(texts[i], words[i])
  }

  /** One word, a blank, and more. */
  lemma WordThenRest(tokens: seq<Token>, text: string, w: Word, rest: string)
    requires LexesAs(text, w)
    ensures Run(Lexer(tokens, Between), text + " " + rest) == Run(Lexer(tokens + [WordToken(w)], Between), rest)
  {
    RunConcat(Lexer(tokens, Between), text, " " + rest);
    assert text + (" " + rest) == text + " " + rest;
    BlankEndsWord(tokens, w, rest);
  }

  function RunFrom(tokens: seq<Token>, s: string): Lexer {
    Run(Lexer(tokens, Between), s)
  }

  /** `run` reads the text as the word, at the end or before a blank. */
  ghost predicate ReadsWord(run: (seq<Token>, string) -> Lexer, text: string, w: Word) {
    && (forall tokens :: run(tokens, text) == Lexer(tokens, InWord(w)))
    && (forall tokens, rest :: run(tokens, text + " " + rest) == run(tokens + [WordToken(w)], rest))
  }

  lemma {:induction false} JoinedWordsRead(run: (seq<Token>, string) -> Lexer, tokens: seq<Token>, texts: seq<string>,
                                           words: seq<Word>)
    requires |texts| == |words| > 0 && forall i :: 0 <= i < |texts| ==> ReadsWord(run, texts[i], words[i])
    ensures var n := |words| - 1;
            run(tokens, JoinWords(texts)) == Lexer(tokens + WordTokens(words[..n]), InWord(words[n]))
    decreases |texts|
  {
    assert ReadsWord(run, texts[0], words[0]);
    var n := |words| - 1;
    if n == 0 {
      assert tokens + WordTokens(words[..0]) == tokens;
    } else {
      JoinedWordsRead(run, tokens + [WordToken(words[0])], texts[1..], words[1..]);
      assert words[1..][..n - 1] == words[1..n];
      assert tokens + [WordToken(words[0])] + WordTokens(words[1..n]) == tokens + WordTokens(words[..n]);
    }
  }

  /** Words joined by blanks lex word by word. */
  lemma WordsLex(tokens: seq<Token>, texts: seq<string>, words: seq<Word>)
    requires AllLexAs(texts, words)
    ensures var n := |words| - 1;
            Run(Lexer(tokens, Between), JoinWords(texts)) == Lexer(tokens + WordTokens(words[..n]), InWord(words[n]))
  {
    forall i | 0 <= i < |texts| ensures ReadsWord(RunFrom, texts[i], words[i]) {
      assert LexesAs(texts[i], words[i]);
      forall before, rest
          ensures RunFrom(before, texts[i] + " " + rest) == RunFrom(before + [WordToken(words[i])], rest) {
        WordThenRest(before, texts[i], words[i], rest);
      }
    }
    JoinedWordsRead(RunFrom, tokens, texts, words);
  }

  lemma EscapedWordsLex(command: seq<string>)
    requires command != []
    ensures AllLexAs(EscapedWords(command), ShellWords(command))
  {
    forall i | 0 <= i < |command| ensures LexesAs(ShellEscape(command[i]), ShellWord(command[i])) {
      forall tokens
          ensures Run(Lexer(tokens, Between), ShellEscape(command[i])) == Lexer(tokens, InWord(ShellWord(command[i]))) {
        EscapeLexes(tokens, command[i]);
      }
    }
  }

  predicate AllPlainWords(words: seq<string>) {
    words != [] && forall i :: 0 <= i < |words| ==> AllPlain(words[i]) && words[i] != ""
  }

  lemma PlainWordsLex(words: seq<string>)
    requires AllPlainWords(words)
    ensures AllLexAs(words, BareWords(words))
  {
    forall i | 0 <= i < |words| ensures LexesAs(words[i], Bare(words[i])) {
      forall tokens ensures Run(Lexer(tokens, Between), words[i]) == Lexer(tokens, InWord(Bare(words[i]))) {
        RunPlainFromBetween(tokens, words[i]);
      }
    }
  }

  /** Reading `a` and then `b`, when the state in between is known. */
  lemma Then(l: Lexer, a: string, middle: Lexer, b: string, last: Lexer)
    requires Run(l, a) == middle && Run(middle, b) == last
    ensures Run(l, a + b) == last
  {
    RunConcat(l, a, b);
  }

  lemma BlankWord(tokens: seq<Token>, w: Word, s: string)
    requires AllPlain(s) && s != ""
    ensures Run(Lexer(tokens, InWord(w)), " " + s) == Lexer(tokens + [WordToken(w)], InWord(Bare(s)))
  {
    BlankEndsWord(tokens, w, s);
    RunPlainFromBetween(tokens + [WordToken(w)], s);
  }

  lemma BlankOperator(tokens: seq<Token>, w: Word, op: char)
    requires OperatorStart(op)
    ensures Run(Lexer(tokens, InWord(w)), " " + [op]) == Lexer(tokens + [WordToken(w)], InOperator([op]))
  {
    BlankEndsWord(tokens, w, [op]);
    RunCons(Lexer(tokens + [WordToken(w)], Between), op, "");
    assert [op] + "" == [op];
  }

  /** A redirection of the file descriptor just read. */
  lemma DescriptorOperator(tokens: seq<Token>)
    ensures Run(Lexer(tokens, InWord(Bare("2"))), ">&") == Lexer(tokens + [IoNumber(Bare("2"))], InOperator(">&"))
  {
    RunCons(Lexer(tokens, InWord(Bare("2"))), '>', "&");
    assert AllDigits(Bare("2"));
    RunCons(Lexer(tokens + [IoNumber(Bare("2"))], InOperator(">")), '&', "");
    assert ">" + ['&'] == ">&" && ['&'] + "" == "&" && ['>'] + "&" == ">&";
  }

  /** After an open word: the word ends, and a redirection to or from a file follows. */
  lemma RedirectLexes(tokens: seq<Token>, w: Word, op: char, file: string)
    requires (op == '>' || op == '<') && AllPlain(file) && file != ""
    ensures Run(Lexer(tokens, InWord(w)), " " + [op] + file)
         == Lexer(tokens + [WordToken(w), Operator([op])], InWord(Bare(file)))
  {
    var t := tokens + [WordToken(w)];
    BlankOperator(tokens, w, op);
    RunPlainFromOperator(t, [op], file);
    assert t + [Operator([op])] == tokens + [WordToken(w), Operator([op])];
    Then(Lexer(tokens, InWord(w)), " " + [op], Lexer(t, InOperator([op])), file,
        Lexer(t + [Operator([op])], InWord(Bare(file))));
  }

  lemma MergeLexes(tokens: seq<Token>, w: Word)
    ensures Run(Lexer(tokens, InWord(w)), " 2" + ">&" + "1")
         == Lexer(tokens + [WordToken(w), IoNumber(Bare("2")), Operator(">&")], InWord(Bare("1")))
  {
    var l := Lexer(tokens, InWord(w));
    var t1 := tokens + [WordToken(w)];
    var t2 := t1 + [IoNumber(Bare("2"))];
    var t3 := t2 + [Operator(">&")];
    BlankWord(tokens, w, "2");
    assert " " + "2" == " 2";
    DescriptorOperator(t1);
    Then(l, " 2", Lexer(t1, InWord(Bare("2"))), ">&", Lexer(t2, InOperator(">&")));
    RunPlainFromOperator(t2, ">&", "1");
    Then(l, " 2" + ">&", Lexer(t2, InOperator(">&")), "1", Lexer(t3, InWord(Bare("1"))));
    assert t3 == tokens + [WordToken(w), IoNumber(Bare("2")), Operator(">&")];
  }

  lemma InputLexes(tokens: seq<Token>, w: Word, file: string)
    requires AllPlain(file) && file != ""
    ensures Run(Lexer(tokens, InWord(w)), " <" + file + " &")
         == Lexer(tokens + [WordToken(w), Operator("<"), WordToken(Bare(file))], InOperator("&"))
  {
    var t := tokens + [WordToken(w), Operator("<")];
    RedirectLexes(tokens, w, '<', file);
    BlankOperator(t, Bare(file), '&');
    assert " " + ['<'] == " <" && " " + ['&'] == " &";
    assert t + [WordToken(Bare(file))] == tokens + [WordToken(w), Operator("<"), WordToken(Bare(file))];
    Then(Lexer(tokens, InWord(w)), " <" + file, Lexer(t, InWord(Bare(file))), " &",
         Lexer(t + [WordToken(Bare(file))], InOperator("&")));
  }

  /** After an open word: the word ends, and the redirections follow. */
  lemma BackgroundLexes(tokens: seq<Token>, w: Word, log: string)
    requires AllPlain(log) && log != ""
    ensures Closed(Run(Lexer(tokens, InWord(w)), Background(log)), tokens + [WordToken(w)] + BackgroundTokens(log))
  {
    var l := Lexer(tokens, InWord(w));
    var t1 := tokens + [WordToken(w), Operator(">")];
    var t2 := t1 + [WordToken(Bare(log)), IoNumber(Bare("2")), Operator(">&")];
    var t3 := t2 + [WordToken(Bare("1")), Operator("<"), WordToken(Bare(DEV_NULL))];
    RedirectLexes(tokens, w, '>', log);
    assert " " + ['>'] == " >";
    assert AllPlain(DEV_NULL);
    MergeLexes(t1, Bare(log));
    Then(l, " >" + log, Lexer(t1, InWord(Bare(log))), " 2" + ">&" + "1", Lexer(t2, InWord(Bare("1"))));
    InputLexes(t2, Bare("1"), DEV_NULL);
    Then(l, " >" + log + (" 2" + ">&" + "1"), Lexer(t2, InWord(Bare("1"))), " <" + DEV_NULL + " &",
        Lexer(t3, InOperator("&")));
    assert Background(log) == " >" + log + (" 2" + ">&" + "1") + (" <" + DEV_NULL + " &");
    assert t3 + [Operator("&")] == tokens + [WordToken(w)] + BackgroundTokens(log);
  }

  // ----- Lexing the lines -----

  lemma WordTokensLast(words: seq<Word>)
    requires words != []
    ensures WordTokens(words) == WordTokens(words[..|words| - 1]) + [WordToken(words[|words| - 1])]
  {
  }

  /** A line of words. */
  lemma LineCloses(before: seq<Token>, texts: seq<string>, words: seq<Word>)
    requires AllLexAs(texts, words)
    ensures Closed(Run(Lexer(before, Between), JoinWords(texts)), before + WordTokens(words))
  {
    var n := |words| - 1;
    var first, last := WordTokens(words[..n]), WordToken(words[n]);
    WordsLex(before, texts, words);
    WordTokensLast(words);
    assert before + first + [last] == before + (first + [last]);
  }

  /** A line of words, run in the background. */
  lemma BackgroundLineCloses(before: seq<Token>, texts: seq<string>, words: seq<Word>, log: string)
    requires AllLexAs(texts, words) && AllPlain(log) && log != ""
    ensures Closed(Run(Lexer(before, Between), JoinWords(texts) + Background(log)),
                   before + (WordTokens(words) + BackgroundTokens(log)))
  {
    var n := |words| - 1;
    var first, last := WordTokens(words[..n]), WordToken(words[n]);
    WordsLex(before, texts, words);
    WordTokensLast(words);
    RunConcat(Lexer(before, Between), JoinWords(texts), Background(log));
    BackgroundLexes(before + first, words[n], log);
    assert before + first + [last] + BackgroundTokens(log) == before + (first + [last] + BackgroundTokens(log));
  }

  lemma LineCompletes(texts: seq<string>, words: seq<Word>)
    requires AllLexAs(texts, words)
    ensures Completes(JoinWords(texts), WordTokens(words))
  {
    forall before ensures Closed(Run(Lexer(before, Between), JoinWords(texts)), before + WordTokens(words)) {
      LineCloses(before, texts, words);
    }
  }

  lemma BackgroundLineCompletes(texts: seq<string>, words: seq<Word>, log: string)
    requires AllLexAs(texts, words) && AllPlain(log) && log != ""
    ensures Completes(JoinWords(texts) + Background(log), WordTokens(words) + BackgroundTokens(log))
  {
    forall before ensures Closed(Run(Lexer(before, Between), JoinWords(texts) + Background(log)),
                                 before + (WordTokens(words) + BackgroundTokens(log))) {
      BackgroundLineCloses(before, texts, words, log);
    }
  }

  lemma CdLineCompletes(dir: string)
    ensures Completes(CdLine(dir), CdTokens(dir))
  {
    forall before ensures Closed(Run(Lexer(before, Between), "cd" + " " + ShellEscape(dir)), before + CdTokens(dir)) {
      var l := Lexer(before, Between);
      RunPlainFromBetween(before, "cd");
      RunConcat(l, "cd", " " + ShellEscape(dir));
      BlankEndsWord(before, Bare("cd"), ShellEscape(dir));
      EscapeLexes(before + [WordToken(Bare("cd"))], dir);
      assert "cd" + (" " + ShellEscape(dir)) == "cd" + " " + ShellEscape(dir);
      assert before + [WordToken(Bare("cd"))] + [WordToken(ShellWord(dir))] == before + CdTokens(dir);
    }
  }

  lemma AllPlainConcat(a: string, b: string)
    requires AllPlain(a) && AllPlain(b)
    ensures AllPlain(a + b)
  {
  }

  lemma SshdWordsArePlain()
    ensures AllPlainWords(SSHD_WORDS)
  {
    assert AllPlain(SSHD_WORDS[0]);
    assert AllPlain(SSHD_WORDS[1]) by {
      AllPlainConcat("SSHD_HOST_KEY=", "/etc/ssh/");
      AllPlainConcat("SSHD_HOST_KEY=" + "/etc/ssh/", "host_key");
    }
    assert AllPlain(SSHD_WORDS[2]) by {
      AllPlainConcat("SSHD_AUTHORIZED_", "KEYS=/root/.ssh/");
      AllPlainConcat("SSHD_AUTHORIZED_" + "KEYS=/root/.ssh/", "authorized_keys");
    }
    assert AllPlain(SSHD_WORDS[3]) by {
      AllPlainConcat("/usr/local/sbin/", "inject-sshd");
    }
  }

  lemma LogNamesArePlain()
    ensures AllPlain(SSHD_LOG) && AllPlain(APP_LOG)
  {
    AllPlainConcat("/tmp/inject-", "sshd.log");
    AllPlainConcat("/tmp/microsand", "box-app.log");
  }

  lemma SshdLineCompletes()
    ensures Completes(SshdLine(), SshdTokens())
  {
    SshdWordsArePlain();
    LogNamesArePlain();
    PlainWordsLex(SSHD_WORDS);
    BackgroundLineCompletes(SSHD_WORDS, BareWords(SSHD_WORDS), SSHD_LOG);
  }

  lemma CommandLineCompletes(command: seq<string>)
    requires command != []
    ensures Completes(CommandLine(command), CommandTokens(command))
  {
    LogNamesArePlain();
    EscapedWordsLex(command);
    BackgroundLineCompletes(EscapedWords(command), ShellWords(command), APP_LOG);
  }

  lemma PidLineCloses(before: seq<Token>)
    ensures Closed(Run(Lexer(before, Between), PID_LINE), before + [WordToken(Bare(PID_LINE))])
  {
    var w := Bare("ssh_pid=");
    var d := w + [QChar('$', false)];
    RunPlainFromBetween(before, "ssh_pid=");
    RunConcat(Lexer(before, Between), "ssh_pid=", "$!");
    DollarBang(before, w);
    assert w + [QChar('$', false), QChar('!', false)] == Bare(PID_LINE);
  }

  /** A dollar sign that starts no substitution is part of the word. */
  lemma DollarBang(tokens: seq<Token>, w: Word)
    ensures Run(Lexer(tokens, InWord(w)), "$!") == Lexer(tokens, InWord(w + [QChar('$', false), QChar('!', false)]))
  {
    var d := w + [QChar('$', false)];
    RunCons(Lexer(tokens, InWord(w)), '$', "!");
    RunCons(Lexer(tokens, Dollar(d)), '!', "");
    assert ['$'] + "!" == "$!" && ['!'] + "" == "!";
    assert d + [QChar('!', false)] == w + [QChar('$', false), QChar('!', false)];
  }

  lemma PidLineCompletes()
    ensures Completes(PID_LINE, [WordToken(Bare(PID_LINE))])
  {
    forall before ensures Closed(Run(Lexer(before, Between), PID_LINE), before + [WordToken(Bare(PID_LINE))]) {
      PidLineCloses(before);
    }
  }

  // ----- The script -----

  function CdTokens(dir: string): seq<Token> {
    [WordToken(Bare("cd")), WordToken(ShellWord(dir))]
  }

  function SshdTokens(): seq<Token> {
    WordTokens(BareWords(SSHD_WORDS)) + BackgroundTokens(SSHD_LOG)
  }

  function CommandTokens(command: seq<string>): seq<Token> {
    WordTokens(ShellWords(command)) + BackgroundTokens(APP_LOG)
  }

  const SET := ["set", "-eu"]
  const SLEEP := ["sleep", "0.5"]

  /** A script, whatever stands for its lines. */
  function Assemble<T>(first: T, cd: T, sshd: T, pid: T, sleep: T, app: T, hasDir: bool, ssh: bool,
                       hasCommand: bool): (r: seq<T>)
    ensures r != []
  {
    [first] + (if hasDir then [cd] else []) + (if ssh then [sshd, pid, sleep] else []) +
        (if hasCommand then [app, sleep] else [])
  }

  /** The directory to change to; empty when there is none. */
  function Directory(workingDir: Option<string>): string {
    if workingDir.Some? then Strings.Trim(workingDir.value) else ""
  }

  /** What the shell should read, line by line. */
  function ScriptTokens(command: seq<string>, dir: string, ssh: bool): (r: seq<seq<Token>>)
    ensures r != []
  {
    Assemble(WordTokens(BareWords(SET)), CdTokens(dir), SshdTokens(), [WordToken(Bare(PID_LINE))],
             WordTokens(BareWords(SLEEP)), CommandTokens(command), dir != "", ssh, command != [])
  }

  /** The lines, as they are printed. */
  function ScriptLines(command: seq<string>, dir: string, ssh: bool): (r: seq<string>)
    ensures r != []
  {
    Assemble(JoinWords(SET), CdLine(dir), SshdLine(), PID_LINE,
             JoinWords(SLEEP), CommandLine(command), dir != "", ssh, command != [])
  }

  lemma FixedLinesComplete()
    ensures Completes(JoinWords(SET), WordTokens(BareWords(SET)))
    ensures Completes(JoinWords(SLEEP), WordTokens(BareWords(SLEEP)))
  {
    PlainWordsLex(SET);
    LineCompletes(SET, BareWords(SET));
    PlainWordsLex(SLEEP);
    LineCompletes(SLEEP, BareWords(SLEEP));
  }

  /** A shell reads the script as exactly the fixed commands, the working directory as one word and each argument
      as one word, whatever characters they hold. */
  lemma ScriptLexes(command: seq<string>, dir: string, ssh: bool)
    ensures Lex(JoinLines(ScriptLines(command, dir, ssh))) == Some(JoinTokens(ScriptTokens(command, dir, ssh)))
  {
    FixedLinesComplete();
    SshdLineCompletes();
    PidLineCompletes();
    CdLineCompletes(dir);
    if command != [] {
      CommandLineCompletes(command);
    }
    LinesMatchTokens(Completes, command, dir, ssh);
    LinesLex(ScriptLines(command, dir, ssh), ScriptTokens(command, dir, ssh));
  }

  /** Whatever relates each printed line to its tokens relates the whole script to them. */
  lemma LinesMatchTokens(ok: (string, seq<Token>) -> bool, command: seq<string>, dir: string, ssh: bool)
    requires ok(JoinWords(SET), WordTokens(BareWords(SET)))
    requires ok(JoinWords(SLEEP), WordTokens(BareWords(SLEEP)))
    requires ok(CdLine(dir), CdTokens(dir))
    requires ok(SshdLine(), SshdTokens())
    requires ok(PID_LINE, [WordToken(Bare(PID_LINE))])
    requires command != [] ==> ok(CommandLine(command), CommandTokens(command))
    ensures var lines, tokens := ScriptLines(command, dir, ssh), ScriptTokens(command, dir, ssh);
            |lines| == |tokens| && forall i :: 0 <= i < |lines| ==> ok(lines[i], tokens[i])
  {
  }

  /** The source's way of putting the lines together. */
  lemma AssembleByPushing<T>(first: T, cd: T, sshd: T, pid: T, sleep: T, app: T, hasDir: bool, ssh: bool,
                             hasCommand: bool)
    ensures var a := if hasDir then [first] + [cd] else [first];
            var b := if ssh then a + [sshd] + [pid] + [sleep] else a;
            var c := if hasCommand then b + [app] + [sleep] else b;
            c == Assemble(first, cd, sshd, pid, sleep, app, hasDir, ssh, hasCommand)
  {
  }

  // ----- The script, spelled out -----

  /** A value of letters, digits and the characters `_./:-` is printed as it is, any other one in single quotes. */
  lemma EscapeIs(value: string)
    ensures var safe := value != "" && forall i :: 0 <= i < |value| ==>
              'a' <= value[i] <= 'z' || 'A' <= value[i] <= 'Z' || '0' <= value[i] <= '9' || value[i] in "_./:-";
            && (safe ==> ShellEscape(value) == value)
            && (!safe ==> |ShellEscape(value)| >= 2 && ShellEscape(value)[0] == '\''
                          && ShellEscape(value)[|ShellEscape(value)| - 1] == '\'')
            && (!safe && (forall i :: 0 <= i < |value| ==> value[i] != '\'') ==>
                ShellEscape(value) == "'" + value + "'")
  {
    if forall i :: 0 <= i < |value| ==> value[i] != '\'' {
      NothingToReplace(value);
    }
  }

  lemma {:induction false} NothingToReplace(value: string)
    requires forall i :: 0 <= i < |value| ==> value[i] != '\''
    ensures ReplaceQuotes(value) == value
    decreases |value|
  {
    if value != "" {
      NothingToReplace(value[1..]);
      assert [value[0]] + value[1..] == value;
    }
  }

  lemma FixedLinesAre()
    ensures JoinWords(SET) == "set -eu" && JoinWords(SLEEP) == "sleep 0.5" && PID_LINE == "ssh_pid=$!"
  {
  }

  lemma JoinFour(a: string, b: string, c: string, d: string)
    ensures JoinWords([a, b, c, d]) == a + " " + (b + " " + (c + " " + d))
  {
    assert [a, b, c, d][1..] == [b, c, d] && [b, c, d][1..] == [c, d] && [c, d][1..] == [d];
    assert JoinWords([c, d]) == c + " " + d;
    assert JoinWords([b, c, d]) == b + " " + (c + " " + d);
  }

  lemma SshdWordsAre()
    ensures SSHD_WORDS == ["SSHD_PORT=22", "SSHD_HOST_KEY=/etc/ssh/host_key",
                           "SSHD_AUTHORIZED_KEYS=/root/.ssh/authorized_keys", "/usr/local/sbin/inject-sshd"]
  {
    assert SSHD_WORDS[1] == "SSHD_HOST_KEY=/etc/ssh/host_key";
    assert SSHD_WORDS[2] == "SSHD_AUTHORIZED_KEYS=/root/.ssh/authorized_keys";
    assert SSHD_WORDS[3] == "/usr/local/sbin/inject-sshd";
  }

  lemma BackgroundIs(log: string)
    ensures Background(log) == " >" + log + " 2>&1 </dev/null &"
  {
    assert (" 2" + ">&" + "1") + (" <" + DEV_NULL + " &") == " 2>&1 </dev/null &";
    assert Background(log) == " >" + log + ((" 2" + ">&" + "1") + (" <" + DEV_NULL + " &"));
  }

  lemma SshdSuffixIs()
    ensures Background(SSHD_LOG) == " >/tmp/inject-sshd.log 2>&1 </dev/null &"
  {
    BackgroundIs(SSHD_LOG);
    assert " >" + SSHD_LOG == " >/tmp/inject-sshd.log";
    assert " >/tmp/inject-sshd.log" + " 2>&1 </dev/null &" == " >/tmp/inject-sshd.log 2>&1 </dev/null &";
  }

  lemma AppSuffixIs()
    ensures Background(APP_LOG) == " >/tmp/microsandbox-app.log" + " 2>&1 </dev/null &"
  {
    BackgroundIs(APP_LOG);
    assert " >" + APP_LOG == " >/tmp/microsandbox-app.log";
  }

  lemma SshdLineIs()
    ensures SshdLine() == "SSHD_PORT=22" + " " + ("SSHD_HOST_KEY=/etc/ssh/host_key" + " "
                          + ("SSHD_AUTHORIZED_KEYS=/root/.ssh/authorized_keys" + " " + "/usr/local/sbin/inject-sshd"))
                          + " >/tmp/inject-sshd.log 2>&1 </dev/null &"
  {
    SshdWordsAre();
    SshdSuffixIs();
    JoinFour(SSHD_WORDS[0], SSHD_WORDS[1], SSHD_WORDS[2], SSHD_WORDS[3]);
    assert SSHD_WORDS == [SSHD_WORDS[0], SSHD_WORDS[1], SSHD_WORDS[2], SSHD_WORDS[3]];
  }

  function PlainTokens(words: seq<string>): seq<Token> {
    WordTokens(BareWords(words))
  }

  /** The printed text, line by line. */
  lemma ScriptTextIs(command: seq<string>, dir: string, ssh: bool)
    ensures ScriptLines(command, dir, ssh)
         == ["set -eu"]
            + (if dir != "" then ["cd " + ShellEscape(dir)] else [])
            + (if ssh then
                 ["SSHD_PORT=22" + " " + ("SSHD_HOST_KEY=/etc/ssh/host_key" + " "
                    + ("SSHD_AUTHORIZED_KEYS=/root/.ssh/authorized_keys" + " " + "/usr/local/sbin/inject-sshd"))
                    + " >/tmp/inject-sshd.log 2>&1 </dev/null &",
                  "ssh_pid=$!", "sleep 0.5"] else [])
            + (if command != [] then
                 [ToShellCommand(command) + (" >/tmp/microsandbox-app.log" + " 2>&1 </dev/null &"), "sleep 0.5"]
                     else [])
  {
    FixedLinesAre();
    SshdLineIs();
    assert CdLine(dir) == "cd " + ShellEscape(dir);
    AppSuffixIs();
  }

  /** What a shell reads, line by line: each value is one word with exactly its characters. */
  lemma ScriptTokensAre(command: seq<string>, dir: string, ssh: bool)
    ensures ScriptTokens(command, dir, ssh)
         == [PlainTokens(["set", "-eu"])]
            + (if dir != "" then [[WordToken(Bare("cd")), WordToken(ShellWord(dir))]] else [])
            + (if ssh then
                 [PlainTokens(["SSHD_PORT=22", "SSHD_HOST_KEY=/etc/ssh/host_key",
                               "SSHD_AUTHORIZED_KEYS=/root/.ssh/authorized_keys", "/usr/local/sbin/inject-sshd"])
                  + BackgroundTokens("/tmp/inject-sshd.log"),
                  PlainTokens(["ssh_pid=$!"]), PlainTokens(["sleep", "0.5"])] else [])
            + (if command != [] then
                 [WordTokens(ShellWords(command)) + BackgroundTokens("/tmp/microsandbox-app.log"),
                  PlainTokens(["sleep", "0.5"])] else [])
  {
    SshdWordsAre();
    assert SSHD_LOG == "/tmp/inject-sshd.log" && APP_LOG == "/tmp/microsandbox-app.log";
    assert PID_LINE == "ssh_pid=$!";
    assert PlainTokens(["ssh_pid=$!"]) == [WordToken(Bare(PID_LINE))];
  }

  /** The printer. A command that is absent and an empty one are alike. */
  method BuildLaunchScript(command: Option<seq<string>>, workingDir: Option<string>, ssh: bool) returns (script: string)
    ensures var words := if command.Some? then command.value else [];
            var dir := if workingDir.Some? then Strings.Trim(workingDir.value) else "";
            && script == JoinLines(ScriptLines(words, dir, ssh))
            && Lex(script) == Some(JoinTokens(ScriptTokens(words, dir, ssh)))
  {
    var lines := [JoinWords(SET)];
    if workingDir.Some? && Strings.Trim(workingDir.value) != "" {
      lines := lines + [CdLine(Strings.Trim(workingDir.value))];
    }
    if ssh {
      lines := lines + [SshdLine()];
      lines := lines + [PID_LINE];
      lines := lines + [JoinWords(SLEEP)];
    }
    if command.Some? && command.value != [] {
      lines := lines + [CommandLine(command.value)];
      lines := lines + [JoinWords(SLEEP)];
    }
    ghost var words, dir := command.GetOr([]), Directory(workingDir);
    AssembleByPushing(JoinWords(SET), CdLine(dir), SshdLine(), PID_LINE, JoinWords(SLEEP), CommandLine(words),
                      dir != "", ssh, words != []);
    assert lines == ScriptLines(words, dir, ssh);
    ScriptLexes(words, dir, ssh);
    script := JoinLines(lines);
  }
}
