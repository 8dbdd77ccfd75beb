/** The command lines sent over SSH, and the words a POSIX shell reads from them: quoting by
    sections 2.2.2 and 2.2.3 of the Shell Command Language of POSIX.1-2017, the operator `&&`,
    and blanks.  Every other construct of the shell breaks the lexer. */
module ShellQuote {
  import opened Prelude

  datatype Token = Word(text: string) | And

  datatype Mode = Bare | Single | Double | Ampersand

  /** `word` is the word being read, if one has begun. */
  datatype Lexer = Broken | Lexer(tokens: seq<Token>, word: Option<string>, mode: Mode)

  const START := Lexer([], None, Bare)

  /** Characters that mean themselves outside quotes anywhere in a word. */
  predicate Ordinary(c: char) {
    'a' <= c <= 'z' || 'A' <= c <= 'Z' || '0' <= c <= '9' || c in "-_./=:,+@%"
  }

  function Flush(l: Lexer): (r: seq<Token>)
    requires l.Lexer?
  {
    if l.word.Some? then l.tokens + [Word(l.word.value)] else l.tokens
  }

  function Begun(l: Lexer): string
    requires l.Lexer?
  {
    if l.word.Some? then l.word.value else ""
  }

  function Grow(l: Lexer, s: string): Lexer
    requires l.Lexer?
  {
    Lexer(l.tokens, Some(Begun(l) + s), l.mode)
  }

  function Feed(l: Lexer, c: char): Lexer {
    if l.Broken? || c == '\0' then Broken
    else match l.mode
      case Bare =>
        if c == ' ' || c == '\t' then Lexer(Flush(l), None, Bare)
        else if c == '\'' then Lexer(l.tokens, Some(Begun(l)), Single)
        else if c == '"' then Lexer(l.tokens, Some(Begun(l)), Double)
        else if c == '&' then Lexer(Flush(l), None, Ampersand)
        else if Ordinary(c) then Grow(l, [c])
        else Broken
      case Single => if c == '\'' then l.(mode := Bare) else Grow(l, [c])
      case Double =>
        if c == '"' then l.(mode := Bare)
        else if c in "$`\\" then Broken
        else Grow(l, [c])
      case Ampersand => if c == '&' then Lexer(l.tokens + [And], None, Bare) else Broken
  }

  function Run(l: Lexer, s: string): Lexer
    decreases |s|
  {
    if s == "" then l else Run(Feed(l, s[0]), s[1..])
  }

  /** The tokens of a whole command line, or None if it is not understood. */
  function Tokens(command: string): Option<seq<Token>> {
    var l := Run(START, command);
    if l.Lexer? && l.mode == Bare then Some(Flush(l)) else None
  }

  // ----- the commands -----

  /** `strings.ReplaceAll(value, "'", "'\"'\"'")`. */
  function Escape(s: string): string {
    if s == "" then "" else (if s[0] == '\'' then "'\"'\"'" else [s[0]]) + Escape(s[1..])
  }

  function Quote(s: string): string {
    "'" + Escape(s) + "'"
  }

  function BuildExtractCommand(remotePackage: string, installDir: string, stripRoot: bool): string {
    var command := "tar -xzf " + Quote(remotePackage) + " -C " + Quote(installDir);
    if stripRoot then command + " --strip-components=1" else command
  }

  function Digits(n: nat): string {
    if n < 10 then ["0123456789"[n]] else Digits(n / 10) + ["0123456789"[n % 10]]
  }

  function Decimal(n: int): string {
    if n < 0 then "-" + Digits(-n) else Digits(n)
  }

  /** The number a text of decimal digits stands for. */
  function Value(s: string): nat
    requires forall i | 0 <= i < |s| :: '0' <= s[i] <= '9'
  {
    if s == "" then 0 else 10 * Value(s[..|s| - 1]) + (s[|s| - 1] as int - '0' as int)
  }

  /** A number is written in decimal digits, and they stand for it. */
  lemma {:induction false} DigitsStandFor(n: nat)
    ensures Digits(n) != "" && (forall i | 0 <= i < |Digits(n)| :: '0' <= Digits(n)[i] <= '9') && Value(Digits(n)) == n
    decreases n
  {
    var digits := "0123456789";
    assert digits[n % 10] as int == '0' as int + n % 10;
    if n < 10 {
      assert [digits[n]][..0] == "";
    } else {
      DigitsStandFor(n / 10);
      assert Digits(n)[..|Digits(n)| - 1] == Digits(n / 10);
    }
  }

  function BuildComposeLogCommand(installDir: string, tail: int): string {
    "cd " + Quote(installDir) + " &&" + " exec docker" + " compose --ansi" + " always logs" + " --follow --tail" +
    " " + Decimal(tail) + " --timestamps"
  }

  function BuildScriptCommand(installDir: string, script: string): string {
    "cd " + Quote(installDir) + " && ./" + script
  }

  // ----- what the shell reads -----

  lemma {:induction false} RunAppend(l: Lexer, a: string, b: string)
    ensures Run(l, a + b) == Run(Run(l, a), b)
    decreases |a|
  {
    if a == "" {
      assert a + b == b;
    } else {
      assert (a + b)[1..] == a[1..] + b;
      RunAppend(Feed(l, a[0]), a[1..], b);
    }
  }

  lemma {:induction false} BrokenStays(s: string)
    ensures Run(Broken, s) == Broken
  {
    if s != "" {
      BrokenStays(s[1..]);
    }
  }

  predicate NulFree(s: string) {
    forall i | 0 <= i < |s| :: s[i] != '\0'
  }

  /** Inside single quotes the escaped text adds exactly the text itself. */
  lemma {:induction false} EscapedIsRead(tokens: seq<Token>, word: string, s: string)
    requires NulFree(s)
    ensures Run(Lexer(tokens, Some(word), Single), Escape(s)) == Lexer(tokens, Some(word + s), Single)
    decreases |s|
  {
    var l := Lexer(tokens, Some(word), Single);
    if s == "" {
      assert word + s == word;
    } else {
      var first := if s[0] == '\'' then "'\"'\"'" else [s[0]];
      RunAppend(l, first, Escape(s[1..]));
      var next := Lexer(tokens, Some(word + [s[0]]), Single);
      assert Run(l, first) == next by {
        if s[0] == '\'' {
          QuoteCharacterIsRead(tokens, word);
        } else {
          assert first[1..] == "";
        }
      }
      EscapedIsRead(tokens, word + [s[0]], s[1..]);
      assert word + [s[0]] + s[1..] == word + s;
    }
  }

  lemma QuoteCharacterIsRead(tokens: seq<Token>, word: string)
    ensures Run(Lexer(tokens, Some(word), Single), "'\"'\"'") == Lexer(tokens, Some(word + "'"), Single)
  {
    var a := Lexer(tokens, Some(word), Single);
    var b := Feed(a, '\'');
    var c := Feed(b, '"');
    var d := Feed(c, '\'');
    var e := Feed(d, '"');
    var f := Feed(e, '\'');
    assert word + "" == word && (word + "'") + "" == word + "'";
    assert "'\"'\"'"[1..] == "\"'\"'" && "\"'\"'"[1..] == "'\"'" && "'\"'"[1..] == "\"'" && "\"'"[1..] == "'" && "'"[1..] == "";
    assert Run(f, "") == f && Run(e, "'") == f && Run(d, "\"'") == f && Run(c, "'\"'") == f && Run(b, "\"'\"'") == f;
  }

  /** A quoted string is read as itself, continuing whatever word has begun. */
  lemma QuoteIsRead(l: Lexer, s: string)
    requires l.Lexer? && l.mode == Bare && NulFree(s)
    ensures Run(l, Quote(s)) == Grow(l, s)
  {
    var word := Begun(l);
    RunAppend(l, "'" + Escape(s), "'");
    RunAppend(l, "'", Escape(s));
    assert word + "" == word;
    assert Run(l, "'") == Lexer(l.tokens, Some(word), Single);
    EscapedIsRead(l.tokens, word, s);
  }

  lemma {:induction false} NulBreaks(l: Lexer, s: string)
    requires !NulFree(s)
    ensures Run(l, Escape(s)) == Broken
    decreases |s|
  {
    var first := if s[0] == '\'' then "'\"'\"'" else [s[0]];
    RunAppend(l, first, Escape(s[1..]));
    if s[0] == '\0' {
      assert Feed(l, first[0]) == Broken;
      BrokenStays(first[1..]);
      BrokenStays(Escape(s[1..]));
    } else {
      NulBreaks(Run(l, first), s[1..]);
    }
  }

  /** Quoting is undone by the shell: the quoted string is one word, the string itself,
      exactly when it has no NUL. */
  lemma QuoteRoundTrip(s: string)
    ensures Tokens(Quote(s)) == Some([Word(s)]) <==> NulFree(s)
  {
    if NulFree(s) {
      QuoteIsRead(START, s);
      assert "" + s == s;
      assert [] + [Word(s)] == [Word(s)];
    } else {
      RunAppend(START, "'" + Escape(s), "'");
      RunAppend(START, "'", Escape(s));
      NulBreaks(Run(START, "'"), s);
      BrokenStays("'");
    }
  }

  lemma QuoteIsInjective(s: string, t: string)
    requires NulFree(s) && NulFree(t) && Quote(s) == Quote(t)
    ensures s == t
  {
    QuoteRoundTrip(s);
    QuoteRoundTrip(t);
  }

  predicate OrdinaryWord(w: string) {
    w != "" && forall i | 0 <= i < |w| :: Ordinary(w[i])
  }

  lemma OrdinaryFeeds(l: Lexer, c: char)
    requires l.Lexer? && l.mode == Bare && Ordinary(c)
    ensures Feed(l, c) == Grow(l, [c])
  {
  }

  lemma GrowTwice(l: Lexer, a: string, b: string)
    requires l.Lexer?
    ensures Grow(Grow(l, a), b) == Grow(l, a + b)
  {
    assert Begun(l) + a + b == Begun(l) + (a + b);
  }

  lemma {:induction false} OrdinaryIsRead(l: Lexer, w: string)
    requires l.Lexer? && l.mode == Bare && OrdinaryWord(w)
    ensures Run(l, w) == Grow(l, w)
    decreases |w|
  {
    OrdinaryFeeds(l, w[0]);
    if |w| == 1 {
      assert w == [w[0]] && w[1..] == "";
    } else {
      OrdinaryIsRead(Grow(l, [w[0]]), w[1..]);
      GrowTwice(l, [w[0]], w[1..]);
      assert [w[0]] + w[1..] == w;
    }
  }

  lemma BlankFlushes(l: Lexer)
    requires l.Lexer? && l.mode == Bare
    ensures Run(l, " ") == Lexer(Flush(l), None, Bare)
  {
    assert " "[1..] == "";
  }

  lemma AndIsRead(tokens: seq<Token>)
    ensures Run(Lexer(tokens, None, Bare), "&&") == Lexer(tokens + [And], None, Bare)
  {
    var b := Feed(Lexer(tokens, None, Bare), '&');
    var c := Feed(b, '&');
    assert "&&"[1..] == "&" && "&"[1..] == "";
    assert Run(c, "") == c && Run(b, "&") == c;
  }

  // ----- whole command lines -----

  /** What a command line is made of: quoted values, words written out, and `&&`. */
  datatype Piece = Quoted(value: string) | Bareword(value: string) | AndIf

  function Text(p: Piece): string {
    match p
    case Quoted(value) => Quote(value)
    case Bareword(value) => value
    case AndIf => "&&"
  }

  function Meaning(p: Piece): Token {
    if p.AndIf? then And else Word(p.value)
  }

  /** The pieces with one blank between them. */
  function Render(ps: seq<Piece>): string {
    if ps == [] then ""
    else if |ps| == 1 then Text(ps[0])
    else Render(ps[..|ps| - 1]) + " " + Text(ps[|ps| - 1])
  }

  function Meanings(ps: seq<Piece>): seq<Token> {
    seq(|ps|, i requires 0 <= i < |ps| => Meaning(ps[i]))
  }

  predicate Readable(p: Piece) {
    match p
    case Quoted(value) => NulFree(value)
    case Bareword(value) => OrdinaryWord(value)
    case AndIf => true
  }

  ghost predicate AllReadable(ps: seq<Piece>) {
    ps != [] && forall p | p in ps :: Readable(p)
  }

  /** After a blank a piece is read as one token. */
  lemma PieceIsRead(tokens: seq<Token>, p: Piece)
    requires Readable(p)
    ensures var l := Run(Lexer(tokens, None, Bare), Text(p));
      l.Lexer? && l.mode == Bare && Flush(l) == tokens + [Meaning(p)]
  {
    var l := Lexer(tokens, None, Bare);
    match p
    case Quoted(value) =>
      QuoteIsRead(l, value);
      assert "" + value == value;
    case Bareword(value) =>
      OrdinaryIsRead(l, value);
      assert "" + value == value;
    case AndIf => AndIsRead(tokens);
  }

  /** A command line is read as exactly the tokens it was made of. */
  lemma {:induction false} RenderIsRead(ps: seq<Piece>)
    requires AllReadable(ps)
    ensures var l := Run(START, Render(ps)); l.Lexer? && l.mode == Bare && Flush(l) == Meanings(ps)
    ensures Tokens(Render(ps)) == Some(Meanings(ps))
    decreases |ps|
  {
    if |ps| == 1 {
      PieceIsRead([], ps[0]);
      assert [] + [Meaning(ps[0])] == Meanings(ps);
    } else {
      var front, last := ps[..|ps| - 1], ps[|ps| - 1];
      RenderIsRead(front);
      RunAppend(START, Render(front) + " ", Text(last));
      RunAppend(START, Render(front), " ");
      BlankFlushes(Run(START, Render(front)));
      PieceIsRead(Meanings(front), last);
      assert Meanings(front) + [Meaning(last)] == Meanings(ps);
    }
  }

  lemma RenderOneMore(ps: seq<Piece>, p: Piece)
    requires ps != []
    ensures Render(ps + [p]) == Render(ps) + " " + Text(p)
  {
    assert (ps + [p])[..|ps|] == ps;
  }

  lemma {:induction false} DigitsAreOrdinary(n: nat)
    ensures OrdinaryWord(Digits(n))
  {
    assert forall d | 0 <= d < 10 :: Ordinary("0123456789"[d]);
    if n >= 10 {
      DigitsAreOrdinary(n / 10);
    }
  }

  lemma DecimalIsOrdinary(n: int)
    ensures OrdinaryWord(Decimal(n))
  {
    DigitsAreOrdinary(if n < 0 then -n else n);
  }

  function ExtractPieces(remotePackage: string, installDir: string): seq<Piece> {
    [Bareword("tar")] + [Bareword("-xzf")] + [Quoted(remotePackage)] + [Bareword("-C")] + [Quoted(installDir)]
  }

  lemma Regroup(x: string, a: string, b: string, c: string)
    ensures x + (a + b + c) == x + a + b + c
  {
  }

  lemma Append(x: string, a: string, b: string)
    ensures x + (a + b) == x + a + b
  {
  }

  lemma ExtractLiterals()
    ensures "tar -xzf " == "tar" + " " + "-xzf" + " " && " -C " == " " + "-C" + " "
    ensures " --strip-components=1" == " " + "--strip-components=1"
  {
  }

  lemma ExtractCommandIs(remotePackage: string, installDir: string)
    ensures BuildExtractCommand(remotePackage, installDir, false) == Render(ExtractPieces(remotePackage, installDir))
  {
    var a := [Bareword("tar")];
    var b := a + [Bareword("-xzf")];
    var c := b + [Quoted(remotePackage)];
    var d := c + [Bareword("-C")];
    RenderOneMore(a, Bareword("-xzf"));
    RenderOneMore(b, Quoted(remotePackage));
    RenderOneMore(c, Bareword("-C"));
    RenderOneMore(d, Quoted(installDir));
    ExtractLiterals();
    Regroup("tar -xzf " + Quote(remotePackage), " ", "-C", " ");
  }

  lemma {:induction false} MeaningsOneMore(ps: seq<Piece>, p: Piece)
    ensures Meanings(ps + [p]) == Meanings(ps) + [Meaning(p)]
  {
  }

  function ExtractTokens(remotePackage: string, installDir: string): seq<Token> {
    [Word("tar"), Word("-xzf"), Word(remotePackage), Word("-C"), Word(installDir)]
  }

  lemma StripCommandIs(remotePackage: string, installDir: string)
    ensures BuildExtractCommand(remotePackage, installDir, true) ==
      Render(ExtractPieces(remotePackage, installDir) + [Bareword("--strip-components=1")])
  {
    ExtractCommandIs(remotePackage, installDir);
    RenderOneMore(ExtractPieces(remotePackage, installDir), Bareword("--strip-components=1"));
    ExtractLiterals();
    Append(BuildExtractCommand(remotePackage, installDir, false), " ", "--strip-components=1");
  }

  /** A command with these pieces is read as their meanings. */
  lemma PiecesAreRead(command: string, ps: seq<Piece>, tokens: seq<Token>)
    requires command == Render(ps) && AllReadable(ps) && Meanings(ps) == tokens
    ensures Tokens(command) == Some(tokens)
  {
    RenderIsRead(ps);
  }

  lemma StripPieces(remotePackage: string, installDir: string) returns (ps: seq<Piece>)
    requires NulFree(remotePackage) && NulFree(installDir)
    ensures BuildExtractCommand(remotePackage, installDir, true) == Render(ps) && AllReadable(ps)
    ensures Meanings(ps) == ExtractTokens(remotePackage, installDir) + [Word("--strip-components=1")]
  {
    StripCommandIs(remotePackage, installDir);
    ExtractMeanings(remotePackage, installDir);
    MeaningsOneMore(ExtractPieces(remotePackage, installDir), Bareword("--strip-components=1"));
    ps := ExtractPieces(remotePackage, installDir) + [Bareword("--strip-components=1")];
  }

  /** `tar` is called with exactly these words, whatever characters the two paths hold. */
  lemma ExtractCommandIsRead(remotePackage: string, installDir: string, stripRoot: bool)
    requires NulFree(remotePackage) && NulFree(installDir)
    ensures Tokens(BuildExtractCommand(remotePackage, installDir, stripRoot)) ==
      Some(ExtractTokens(remotePackage, installDir) + if stripRoot then [Word("--strip-components=1")] else [])
  {
    var tokens := ExtractTokens(remotePackage, installDir);
    if stripRoot {
      var ps := StripPieces(remotePackage, installDir);
      PiecesAreRead(BuildExtractCommand(remotePackage, installDir, true), ps, tokens + [Word("--strip-components=1")]);
    } else {
      ExtractCommandIs(remotePackage, installDir);
      ExtractMeanings(remotePackage, installDir);
      assert tokens + [] == tokens;
      PiecesAreRead(BuildExtractCommand(remotePackage, installDir, false), ExtractPieces(remotePackage, installDir), tokens);
    }
  }

  lemma ExtractMeanings(remotePackage: string, installDir: string)
    ensures Meanings(ExtractPieces(remotePackage, installDir)) == ExtractTokens(remotePackage, installDir)
    ensures NulFree(remotePackage) && NulFree(installDir) ==> AllReadable(ExtractPieces(remotePackage, installDir))
  {
  }

  lemma DirectoryPieces(installDir: string) returns (ps: seq<Piece>)
    ensures ps == [Bareword("cd"), Quoted(installDir), AndIf]
    ensures Render(ps) == "cd " + Quote(installDir) + " &&" && Meanings(ps) == [Word("cd"), Word(installDir), And]
    ensures NulFree(installDir) ==> AllReadable(ps)
  {
    var a := [Bareword("cd")];
    var b := a + [Quoted(installDir)];
    RenderOneMore(a, Quoted(installDir));
    RenderOneMore(b, AndIf);
    assert "cd" + " " == "cd " && " " + "&&" == " &&";
    ps := b + [AndIf];
  }

  lemma ScriptText(x: string, script: string)
    ensures x + " && ./" + script == x + " &&" + " " + ("./" + script)
  {
    assert " && ./" == " &&" + " " + "./";
    Regroup(x, " &&", " ", "./");
  }

  /** A lifecycle script is run in the install directory, and nothing else is. */
  lemma ScriptCommandIsRead(installDir: string, script: string)
    requires NulFree(installDir) && OrdinaryWord(script)
    ensures Tokens(BuildScriptCommand(installDir, script)) ==
      Some([Word("cd"), Word(installDir), And, Word("./" + script)])
  {
    var ps := DirectoryPieces(installDir);
    var last := Bareword("./" + script);
    RenderOneMore(ps, last);
    MeaningsOneMore(ps, last);
    ScriptText("cd " + Quote(installDir), script);
    RenderIsRead(ps + [last]);
    assert [Word("cd"), Word(installDir), And] + [Meaning(last)] == [Word("cd"), Word(installDir), And, Word("./" + script)];
  }

  lemma RegroupPair(x: string, v: string, w: string)
    ensures x + " " + v + " " + w == x + (" " + v + " " + w)
  {
  }

  lemma RenderPair(ps: seq<Piece>, v: string, w: string)
    requires ps != []
    ensures Render(ps + [Bareword(v)] + [Bareword(w)]) == Render(ps) + (" " + v + " " + w)
  {
    RenderOneMore(ps, Bareword(v));
    RenderOneMore(ps + [Bareword(v)], Bareword(w));
    RegroupPair(Render(ps), v, w);
  }

  lemma MeaningPair(ps: seq<Piece>, v: string, w: string)
    ensures Meanings(ps + [Bareword(v)] + [Bareword(w)]) == Meanings(ps) + [Word(v), Word(w)]
  {
    MeaningsOneMore(ps, Bareword(v));
    MeaningsOneMore(ps + [Bareword(v)], Bareword(w));
  }

  /** Two more ordinary words. */
  lemma Pair(ps: seq<Piece>, v: string, w: string) returns (r: seq<Piece>)
    requires AllReadable(ps) && OrdinaryWord(v) && OrdinaryWord(w)
    ensures AllReadable(r) && Meanings(r) == Meanings(ps) + [Word(v), Word(w)]
    ensures Render(r) == Render(ps) + (" " + v + " " + w)
  {
    r := ps + [Bareword(v)] + [Bareword(w)];
    RenderPair(ps, v, w);
    MeaningPair(ps, v, w);
  }

  lemma FollowLiterals()
    ensures " exec docker" == " " + "exec" + " " + "docker" && " compose --ansi" == " " + "compose" + " " + "--ansi"
    ensures " always logs" == " " + "always" + " " + "logs" && " --follow --tail" == " " + "--follow" + " " + "--tail"
  {
  }

  lemma FollowWords()
    ensures OrdinaryWord("exec") && OrdinaryWord("docker") && OrdinaryWord("compose") && OrdinaryWord("--ansi")
    ensures OrdinaryWord("always") && OrdinaryWord("logs") && OrdinaryWord("--follow") && OrdinaryWord("--tail")
    ensures OrdinaryWord("--timestamps")
  {
  }

  function FollowTokens(installDir: string, tail: int): seq<Token> {
    [Word("cd"), Word(installDir), And] + [Word("exec"), Word("docker")] + [Word("compose"), Word("--ansi")]
    + [Word("always"), Word("logs")] + [Word("--follow"), Word("--tail")] + [Word(Decimal(tail)), Word("--timestamps")]
  }

  lemma FollowPieces(installDir: string, tail: int) returns (ps: seq<Piece>)
    requires NulFree(installDir)
    ensures AllReadable(ps) && Meanings(ps) == FollowTokens(installDir, tail)
    ensures Render(ps) == "cd " + Quote(installDir) + " &&" + " exec docker" + " compose --ansi" + " always logs"
                          + " --follow --tail" + (" " + Decimal(tail) + " " + "--timestamps")
  {
    DecimalIsOrdinary(tail);
    FollowLiterals();
    FollowWords();
    ps := DirectoryPieces(installDir);
    ps := Pair(ps, "exec", "docker");
    ps := Pair(ps, "compose", "--ansi");
    ps := Pair(ps, "always", "logs");
    ps := Pair(ps, "--follow", "--tail");
    ps := Pair(ps, Decimal(tail), "--timestamps");
  }

  lemma TailText(x: string, n: string)
    ensures x + " " + n + " --timestamps" == x + (" " + n + " " + "--timestamps")
  {
    assert " --timestamps" == " " + "--timestamps";
    RegroupPair(x, n, "--timestamps");
  }

  /** The log command follows the project in the install directory with the given tail. */
  lemma ComposeLogCommandIsRead(installDir: string, tail: int)
    requires NulFree(installDir)
    ensures Tokens(BuildComposeLogCommand(installDir, tail)) == Some(FollowTokens(installDir, tail))
  {
    var ps := FollowPieces(installDir, tail);
    TailText("cd " + Quote(installDir) + " &&" + " exec docker" + " compose --ansi" + " always logs" + " --follow --tail",
             Decimal(tail));
    RenderIsRead(ps);
  }
}
