/** shell_quote and the command line it builds, read back by the quoting rules of the shell. */
module ShellQuote {

  /** What stands for a character between single quotes. */
  function QuoteChar(c: char): string
  {
    if c == '\'' then "'\\''" else [c]
  }

  function QuoteChars(arg: string): string
  {
    if arg == "" then "" else QuoteChar(arg[0]) + QuoteChars(arg[1..])
  }

  function Quote(arg: string): string
  {
    "'" + QuoteChars(arg) + "'"
  }

  lemma {:induction false} QuoteCharsAppend(s: string, c: char)
    ensures QuoteChars(s + [c]) == QuoteChars(s) + QuoteChar(c)
  {
    if s == "" {
      assert s + [c] == [c] && QuoteChars([c][1..]) == "";
    } else {
      assert (s + [c])[1..] == s[1..] + [c];
      QuoteCharsAppend(s[1..], c);
    }
  }

  /** shell_quote */
  method ShellQuote(arg: string) returns (ret: string)
    ensures ret == Quote(arg)
  {
    ret := "'";
    for i := 0 to |arg|
      invariant ret == "'" + QuoteChars(arg[..i])
    {
      assert arg[..i + 1] == arg[..i] + [arg[i]];
      QuoteCharsAppend(arg[..i], arg[i]);
      if arg[i] != '\'' {
        ret := ret + [arg[i]];
      } else {
        ret := ret + "'\\''";
      }
    }
    assert arg[..|arg|] == arg;
    ret := ret + "'";
  }

  function JoinQuoted(argv: seq<string>): string
    requires argv != []
  {
    if |argv| == 1 then Quote(argv[0]) else JoinQuoted(argv[..|argv| - 1]) + (" " + Quote(argv[|argv| - 1]))
  }

  /** The command line kept for the log file. */
  method CommandLine(argv: seq<string>) returns (commandLine: string)
    requires argv != []
    ensures commandLine == JoinQuoted(argv)
  {
    commandLine := ShellQuote(argv[0]);
    for i := 1 to |argv|
      invariant commandLine == JoinQuoted(argv[..i])
    {
      assert argv[..i + 1][..i] == argv[..i];
      var word := ShellQuote(argv[i]);
      commandLine := commandLine + (" " + word);
    }
    assert argv[..|argv|] == argv;
  }

  /** ---- Reading a command line, sections 2.2.1 to 2.2.3 of the POSIX Shell Command Language ---- */

  datatype Mode = Unquoted | Escaped | SingleQuoted | DoubleQuoted | DoubleEscaped

  /** The words read so far and the one begun, if any. Beyond is anything but a simple list of
      words: expansions, operators, comments. */
  datatype Reader = Reader(mode: Mode, begun: bool, word: string, words: seq<string>) | Beyond

  const START := Reader(Unquoted, false, "", [])

  function Add(r: Reader, c: char, mode: Mode): Reader
    requires r.Reader?
  {
    r.(mode := mode, begun := true, word := r.word + [c])
  }

  function EndWord(r: Reader): Reader
    requires r.Reader?
  {
    if r.begun then Reader(Unquoted, false, "", r.words + [r.word]) else r
  }

  function Read(r: Reader, c: char): Reader
  {
    if r.Beyond? then Beyond
    else match r.mode
      case Unquoted =>
        if c == '\'' then r.(mode := SingleQuoted, begun := true)
        else if c == '"' then r.(mode := DoubleQuoted, begun := true)
        else if c == '\\' then r.(mode := Escaped)
        else if c == ' ' || c == '\t' then EndWord(r)
        else if c in "\n|&;<>()$`*?[#~" then Beyond
        else Add(r, c, Unquoted)
      case Escaped =>
        // a backslash keeps the next character, and removes a newline with itself
        if c == '\n' then r.(mode := Unquoted) else Add(r, c, Unquoted)
      case SingleQuoted =>
        if c == '\'' then r.(mode := Unquoted) else Add(r, c, SingleQuoted)
      case DoubleQuoted =>
        if c == '"' then r.(mode := Unquoted)
        else if c == '\\' then r.(mode := DoubleEscaped)
        else if c == '$' || c == '`' then Beyond
        else Add(r, c, DoubleQuoted)
      case DoubleEscaped =>
        if c in "$`\"\\" then Add(r, c, DoubleQuoted)
        else if c == '\n' then r.(mode := DoubleQuoted)
        else Add(Add(r, '\\', DoubleQuoted), c, DoubleQuoted)
  }

  function ReadAll(r: Reader, s: string): Reader
    decreases |s|
  {
    if s == "" then r else ReadAll(Read(r, s[0]), s[1..])
  }

  datatype Words = Words(words: seq<string>) | NotWords

  /** The words of a command line; none when a quotation is left open. */
  function SplitWords(s: string): Words
  {
    match ReadAll(START, s)
    case Beyond => NotWords
    case Reader(mode, begun, word, words) =>
      if mode != Unquoted then NotWords
      else Words(if begun then words + [word] else words)
  }

  lemma {:induction false} ReadAppend(r: Reader, s: string, t: string)
    ensures ReadAll(r, s + t) == ReadAll(ReadAll(r, s), t)
    decreases |s|
  {
    if s == "" {
      assert s + t == t;
    } else {
      assert (s + t)[1..] == s[1..] + t;
      ReadAppend(Read(r, s[0]), s[1..], t);
    }
  }

  lemma ReadQuoteChar(r: Reader, c: char)
    requires r.Reader? && r.mode == SingleQuoted && r.begun
    ensures ReadAll(r, QuoteChar(c)) == Add(r, c, SingleQuoted)
  {
    if c == '\'' {
      var s := "'\\''";
      assert s[1..] == "\\''" && s[1..][1..] == "''" && "''"[1..] == "'" && "'"[1..] == "";
      var r1 := Read(r, '\'');
      var r2 := Read(r1, '\\');
      var r3 := Read(r2, '\'');
      assert Read(r3, '\'') == Add(r, c, SingleQuoted);
      assert ReadAll(r3, "'") == ReadAll(Read(r3, '\''), "") == Read(r3, '\'');
      assert ReadAll(r2, "''") == ReadAll(r3, "'");
      assert ReadAll(r1, "\\''") == ReadAll(r2, "''");
    } else {
      assert [c][1..] == "";
    }
  }

  lemma {:induction false} ReadQuoteChars(r: Reader, arg: string)
    requires r.Reader? && r.mode == SingleQuoted && r.begun
    ensures ReadAll(r, QuoteChars(arg)) == r.(word := r.word + arg)
    decreases |arg|
  {
    if arg == "" {
      assert r.word + arg == r.word;
    } else {
      var next := Add(r, arg[0], SingleQuoted);
      ReadAppend(r, QuoteChar(arg[0]), QuoteChars(arg[1..]));
      ReadQuoteChar(r, arg[0]);
      ReadQuoteChars(next, arg[1..]);
      assert r.word + [arg[0]] + arg[1..] == r.word + arg;
    }
  }

  /** A quoted argument reads as exactly that argument, empty or not. */
  lemma ReadQuote(words: seq<string>, arg: string)
    ensures ReadAll(Reader(Unquoted, false, "", words), Quote(arg)) == Reader(Unquoted, true, arg, words)
  {
    var r := Reader(Unquoted, false, "", words);
    var open := Reader(SingleQuoted, true, "", words);
    var body := QuoteChars(arg);
    assert Quote(arg) == "'" + (body + "'");
    ReadAppend(r, "'", body + "'");
    assert ReadAll(r, "'") == open by { assert "'"[1..] == ""; }
    ReadAppend(open, body, "'");
    ReadQuoteChars(open, arg);
    assert "" + arg == arg;
    var closed := Reader(SingleQuoted, true, arg, words);
    assert ReadAll(closed, "'") == Reader(Unquoted, true, arg, words) by { assert "'"[1..] == ""; }
  }

  lemma {:induction false} ReadJoined(argv: seq<string>)
    requires argv != []
    ensures ReadAll(START, JoinQuoted(argv))
         == Reader(Unquoted, true, argv[|argv| - 1], argv[..|argv| - 1])
    decreases |argv|
  {
    var n := |argv| - 1;
    if n == 0 {
      ReadQuote([], argv[0]);
    } else {
      var init := argv[..n];
      ReadJoined(init);
      ReadAppend(START, JoinQuoted(init), " " + Quote(argv[n]));
      var r := Reader(Unquoted, true, init[n - 1], init[..n - 1]);
      ReadAppend(r, " ", Quote(argv[n]));
      assert init[..n - 1] + [init[n - 1]] == init;
      assert ReadAll(r, " ") == Reader(Unquoted, false, "", init) by { assert " "[1..] == ""; }
      ReadQuote(init, argv[n]);
    }
  }

  /** Reading the command line back gives exactly the arguments it was built from. */
  lemma QuotingRoundTrip(argv: seq<string>)
    requires argv != []
    ensures SplitWords(JoinQuoted(argv)) == Words(argv)
  {
    ReadJoined(argv);
    assert argv[..|argv| - 1] + [argv[|argv| - 1]] == argv;
  }
}
