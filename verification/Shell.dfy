/**
 * src/sync/paths.ts: values interpolated into command lines, against the shell
 * that reads them. The reader follows IEEE Std 1003.1-2017, volume Shell and
 * Utilities, sections 2.2.1 to 2.2.3 and 2.3.
 */
module Shell {
  import opened Prelude

  const QUOTE := '\''
  const BACKSLASH := '\\'

  // ---------------------------------------------------------------------
  // The shell's side: one word, its quoting removed.

  datatype Lexed =
    | Word(text: string, rest: string)  // `rest` starts at the delimiter
    | Unclosed                          // the text ends inside quoting
    | Expands                           // an unquoted character means more than itself

  predicate IsBlank(c: char) {
    c == ' ' || c == '\t'
  }

  predicate IsDelimiter(c: char) {
    IsBlank(c) || c == '\n' || c in {'|', '&', ';', '<', '>', '(', ')'}
  }

  predicate IsSpecial(c: char) {
    c in {'$', '`', '"', '*', '?', '[', '#', '~', '=', '%', '!', '{', '}'}
  }

  function Prepend(c: char, lexed: Lexed): (r: Lexed) {
    if lexed.Word? then Word([c] + lexed.text, lexed.rest) else lexed
  }

  function LexWord(s: string): (r: Lexed)
    ensures r.Word? ==> |r.rest| <= |s| && (s != "" && !IsDelimiter(s[0]) ==> |r.rest| < |s|)
    decreases |s|, 0
  {
    if s == "" || IsDelimiter(s[0]) then Word("", s)
    else if s[0] == QUOTE then LexQuoted(s[1..])
    else if s[0] == BACKSLASH then
      if |s| == 1 then Unclosed
      else if s[1] == '\n' then LexWord(s[2..])
      else Prepend(s[1], LexWord(s[2..]))
    else if IsSpecial(s[0]) then Expands
    else Prepend(s[0], LexWord(s[1..]))
  }

  /** Between single quotes every character is itself and only a single quote ends them. */
  function LexQuoted(s: string): (r: Lexed)
    ensures r.Word? ==> |r.rest| < |s|
    decreases |s|, 1
  {
    if s == "" then Unclosed
    else if s[0] == QUOTE then LexWord(s[1..])
    else Prepend(s[0], LexQuoted(s[1..]))
  }

  /** The words of a simple command; none when the text is anything else. */
  function Words(s: string): Option<seq<string>>
    decreases |s|
  {
    if s == "" then Some([])
    else if IsBlank(s[0]) then Words(s[1..])
    else if IsDelimiter(s[0]) then None
    else
      var lexed := LexWord(s);
      if !lexed.Word? then None
      else
        var others := Words(lexed.rest);
        if others.Some? then Some([lexed.text] + others.value) else None
  }

  // ---------------------------------------------------------------------
  // The program's side.

  /** Every single quote closes the quoting, stands escaped, and opens it again. */
  function Escaped(value: string): string {
    if value == "" then ""
    else (if value[0] == QUOTE then [QUOTE, BACKSLASH, QUOTE, QUOTE] else [value[0]]) + Escaped(value[1..])
  }

  function QuoteShellArg(value: string): string {
    [QUOTE] + Escaped(value) + [QUOTE]
  }

  predicate StartsAtDelimiter(rest: string) {
    rest == "" || IsDelimiter(rest[0])
  }

  lemma {:induction false} EscapedReadsBack(value: string, rest: string)
    requires StartsAtDelimiter(rest)
    ensures LexQuoted(Escaped(value) + [QUOTE] + rest) == Word(value, rest)
  {
    var s := Escaped(value) + [QUOTE] + rest;
    if value == "" {
      assert s == [QUOTE] + rest;
      assert s[1..] == rest;
    } else {
      var tail := Escaped(value[1..]) + [QUOTE] + rest;
      EscapedReadsBack(value[1..], rest);
      assert value == [value[0]] + value[1..];
      if value[0] == QUOTE {
        assert s == [QUOTE, BACKSLASH, QUOTE, QUOTE] + tail;
        QuoteReopens(tail);
      } else {
        assert s == [value[0]] + tail;
        assert s[1..] == tail;
      }
    }
  }

  lemma QuoteCloses(s: string)
    ensures LexQuoted([QUOTE] + s) == LexWord(s) && LexWord([QUOTE] + s) == LexQuoted(s)
  {
    assert ([QUOTE] + s)[1..] == s && !IsDelimiter(QUOTE);
  }

  lemma QuoteEscapes(s: string)
    ensures LexWord([BACKSLASH, QUOTE] + s) == Prepend(QUOTE, LexWord(s))
  {
    var t := [BACKSLASH, QUOTE] + s;
    assert t[0] == BACKSLASH && t[1] == QUOTE && t[2..] == s && !IsDelimiter(BACKSLASH);
  }

  lemma QuoteReopens(tail: string)
    ensures LexQuoted([QUOTE, BACKSLASH, QUOTE, QUOTE] + tail) == Prepend(QUOTE, LexQuoted(tail))
  {
    hide LexWord, LexQuoted;
    var reopened := [QUOTE] + tail;
    var escaped := [BACKSLASH, QUOTE] + reopened;
    assert [QUOTE, BACKSLASH, QUOTE, QUOTE] + tail == [QUOTE] + escaped;
    QuoteCloses(escaped);
    QuoteEscapes(reopened);
    QuoteCloses(tail);
  }

  /** Whatever the value and whatever delimiter follows it, the shell reads one word: the value. */
  lemma QuotedIsOneWord(value: string, rest: string)
    requires StartsAtDelimiter(rest)
    ensures LexWord(QuoteShellArg(value) + rest) == Word(value, rest)
  {
    var s := QuoteShellArg(value) + rest;
    EscapedReadsBack(value, rest);
    assert s[0] == QUOTE && s[1..] == Escaped(value) + [QUOTE] + rest;
    assert !IsDelimiter(QUOTE);
  }

  /** The arguments of a command line, each quoted, separated by blanks. */
  function Line(args: seq<string>): string {
    if args == [] then "" else QuoteShellArg(args[0]) + (if |args| == 1 then "" else " " + Line(args[1..]))
  }

  lemma WordsOfOneMore(value: string, rest: string)
    requires StartsAtDelimiter(rest) && Words(rest).Some?
    ensures Words(QuoteShellArg(value) + rest) == Some([value] + Words(rest).value)
  {
    var s := QuoteShellArg(value) + rest;
    assert s[0] == QUOTE;
    QuotedIsOneWord(value, rest);
    hide LexWord, QuoteShellArg;
  }

  lemma WordsSkipBlank(s: string)
    ensures Words(" " + s) == Words(s)
  {
    assert (" " + s)[0] == ' ' && (" " + s)[1..] == s;
  }

  /** A line of quoted values reads back as exactly those values: none ends the command or splits. */
  lemma {:induction false} LineReadsBack(args: seq<string>)
    ensures Words(Line(args)) == Some(args)
  {
    if args != [] {
      var rest := if |args| == 1 then "" else " " + Line(args[1..]);
      assert Line(args) == QuoteShellArg(args[0]) + rest;
      assert args == [args[0]] + args[1..];
      assert Words("") == Some([]);
      hide Words, QuoteShellArg, Line;
      if |args| > 1 {
        LineReadsBack(args[1..]);
        WordsSkipBlank(Line(args[1..]));
      }
      WordsOfOneMore(args[0], rest);
    }
  }

  function Nested(depth: nat, value: string): string {
    if depth == 0 then value else QuoteShellArg(Nested(depth - 1, value))
  }

  /** What a shell that runs its own argument as a command, `depth` shells deep, finally reads. */
  function Unnested(depth: nat, s: string): Option<string> {
    if depth == 0 then Some(s)
    else
      var lexed := LexWord(s);
      if lexed.Word? && lexed.rest == "" then Unnested(depth - 1, lexed.text) else None
  }

  lemma {:induction false} NestedReadsBack(depth: nat, value: string)
    ensures Unnested(depth, Nested(depth, value)) == Some(value)
  {
    if depth > 0 {
      NestedReadsBack(depth - 1, value);
      var inner := Nested(depth - 1, value);
      QuotedIsOneWord(inner, "");
      assert QuoteShellArg(inner) + "" == QuoteShellArg(inner);
    }
  }
}
