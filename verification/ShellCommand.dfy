/** The command line that cmd/mcpproxy-tray/main.go hands to the user's shell,
    against the shell's own quoting rules: Shell Command Language of IEEE Std
    1003.1-2017, sections 2.2.1 (backslash), 2.2.2 (single quotes), 2.2.3
    (double quotes) and 2.3 (token recognition). Strings are byte strings. */
module ShellCommand {
  import opened Strings

  const NUL: char := '\0'

  // ----- the shell -----

  predicate IsBlank(c: char) {
    c == ' ' || c == '\t'
  }

  /** Characters that mean something to the shell when they are not quoted. */
  predicate IsSpecial(c: char) {
    c in "|&;<>()$`*?[#~=%{}!\n\r"
  }

  /** The words of a command line that is nothing but words: None if an
      unquoted special character, an expansion, a NUL or an open quote makes it
      anything else. `word` is the word being read, if one has begun. */
  function Words(s: string, word: Option<string>): Option<seq<string>>
    decreases |s|
  {
    if s == [] then Some(if word.None? then [] else [word.value])
    else
      var c, w := s[0], if word.None? then "" else word.value;
      if IsBlank(c) then
        var rest := Words(s[1..], None);
        if word.None? || rest.None? then rest else Some([w] + rest.value)
      else if c == '\'' then SingleQuoted(s[1..], w)
      else if c == '"' then DoubleQuoted(s[1..], w)
      else if c == '\\' then
        if |s| == 1 || s[1] == NUL then None
        else Words(s[2..], if s[1] == '\n' then word else Some(w + [s[1]]))
      else if c == NUL || IsSpecial(c) then None
      else Words(s[1..], Some(w + [c]))
  }

  /** After an opening single quote: everything is literal up to the next one. */
  function SingleQuoted(s: string, word: string): Option<seq<string>>
    decreases |s|
  {
    if s == [] || s[0] == NUL then None
    else if s[0] == '\'' then Words(s[1..], Some(word))
    else SingleQuoted(s[1..], word + [s[0]])
  }

  /** After an opening double quote: a backslash escapes $ ` " \ and newline only. */
  function DoubleQuoted(s: string, word: string): Option<seq<string>>
    decreases |s|
  {
    if s == [] || s[0] == NUL || s[0] == '$' || s[0] == '`' then None
    else if s[0] == '"' then Words(s[1..], Some(word))
    else if s[0] == '\\' && |s| > 1 && s[1] in "$`\"\\\n" then
      DoubleQuoted(s[2..], if s[1] == '\n' then word else word + [s[1]])
    else DoubleQuoted(s[1..], word + [s[0]])
  }

  // ----- quoting -----

  /** The text between the outer quotes: every ' becomes '\''. */
  function Escaped(arg: string): string {
    if arg == "" then ""
    else Escaped(arg[..|arg| - 1]) + if arg[|arg| - 1] == '\'' then "'\\''" else [arg[|arg| - 1]]
  }

  function Quote(arg: string): string {
    "'" + Escaped(arg) + "'"
  }

  /** `shellQuote` */
  method ShellQuote(arg: string) returns (quoted: string)
    ensures quoted == Quote(arg)
  {
    if arg == "" {
      return "''";
    }
    var builder := "'";
    for i := 0 to |arg|
      invariant builder == "'" + Escaped(arg[..i])
    {
      assert arg[..i + 1][..i] == arg[..i];
      if arg[i] == '\'' {
        builder := builder + "'\\''";
      } else {
        builder := builder + [arg[i]];
      }
    }
    assert arg[..|arg|] == arg;
    quoted := builder + "'";
  }

  lemma {:induction false} EscapedAppend(a: string, b: string)
    ensures Escaped(a + b) == Escaped(a) + Escaped(b)
  {
    if b == "" {
      assert a + b == a;
    } else {
      EscapedAppend(a, b[..|b| - 1]);
      assert (a + b)[..|a + b| - 1] == a + b[..|b| - 1];
    }
  }

  lemma {:induction false} NothingToEscape(s: string)
    requires '\'' !in s
    ensures Escaped(s) == s
  {
    if s != "" {
      NothingToEscape(s[..|s| - 1]);
      assert s == s[..|s| - 1] + [s[|s| - 1]];
    }
  }

  /** Quoting replaces each single quote by '\'' and changes nothing else. */
  lemma {:induction false} QuotingReplacesQuotes(parts: seq<string>)
    requires forall p <- parts :: '\'' !in p
    ensures Quote(Join(parts, "'")) == "'" + Join(parts, "'\\''") + "'"
  {
    EscapedParts(parts);
  }

  lemma {:induction false} EscapedParts(parts: seq<string>)
    requires forall p <- parts :: '\'' !in p
    ensures Escaped(Join(parts, "'")) == Join(parts, "'\\''")
  {
    if parts != [] {
      NothingToEscape(parts[0]);
      if |parts| > 1 {
        EscapedParts(parts[1..]);
        OneQuote();
        EscapedAppend(parts[0] + "'", Join(parts[1..], "'"));
        EscapedAppend(parts[0], "'");
        hide Escaped;
      }
    }
  }

  lemma {:induction false} OneQuote()
    ensures Escaped("'") == "'\\''"
  {
    assert "'"[..0] == "";
  }

  function Quoted(args: seq<string>): (r: seq<string>)
    ensures |r| == |args|
  {
    if args == [] then [] else [Quote(args[0])] + Quoted(args[1..])
  }

  function Command(binary: string, args: seq<string>): string {
    "exec " + Join(Quoted([binary] + args), " ")
  }

  lemma {:induction false} QuotedAppend(args: seq<string>, arg: string)
    ensures Quoted(args + [arg]) == Quoted(args) + [Quote(arg)]
  {
    if args == [] {
      assert args + [arg] == [arg];
    } else {
      QuotedAppend(args[1..], arg);
      assert (args + [arg])[1..] == args[1..] + [arg];
    }
  }

  /** `buildShellExecCommand` */
  method BuildShellExecCommand(binary: string, args: seq<string>) returns (command: string)
    ensures command == Command(binary, args)
  {
    var first := ShellQuote(binary);
    var quoted := [first];
    assert [binary] + args[..0] == [binary] && Quoted([binary]) == [first];
    for i := 0 to |args|
      invariant quoted == Quoted([binary] + args[..i])
    {
      QuotedAppend([binary] + args[..i], args[i]);
      assert [binary] + args[..i + 1] == [binary] + args[..i] + [args[i]];
      var q := ShellQuote(args[i]);
      quoted := quoted + [q];
    }
    assert args[..|args|] == args;
    command := "exec " + Join(quoted, " ");
  }

  // ----- splitting undoes quoting -----

  lemma {:induction false} EscapedCons(c: char, arg: string)
    ensures Escaped([c] + arg) == (if c == '\'' then "'\\''" else [c]) + Escaped(arg)
  {
    if arg == "" {
      assert [c] + arg == [c] && [c][..0] == "";
    } else {
      EscapedCons(c, arg[..|arg| - 1]);
      assert ([c] + arg)[..|arg|] == [c] + arg[..|arg| - 1];
    }
  }

  lemma {:induction false} StepOverQuote(rest: string, word: string)
    ensures SingleQuoted("'\\''" + rest, word) == SingleQuoted(rest, word + "'")
  {
    var s := "'\\''" + rest;
    assert s[1..] == "\\''" + rest;
    assert s[1..][2..] == "'" + rest;
    assert ("'" + rest)[1..] == rest;
    assert Words("'" + rest, Some(word + "'")) == SingleQuoted(rest, word + "'");
    assert Words("\\''" + rest, Some(word)) == Words("'" + rest, Some(word + ['\'']));
  }

  /** Inside single quotes the escaped text reads as the argument itself, unless
      the argument holds a NUL. */
  lemma {:induction false} EscapedReadsBack(arg: string, rest: string, word: string)
    ensures SingleQuoted(Escaped(arg) + "'" + rest, word)
         == if NUL in arg then None else Words(rest, Some(word + arg))
  {
    if arg == "" {
      var s := Escaped(arg) + "'" + rest;
      assert s[0] == '\'' && s[1..] == rest;
      assert word + arg == word;
    } else {
      var c, tail := arg[0], arg[1..];
      assert arg == [c] + tail;
      EscapedCons(c, tail);
      var after := Escaped(tail) + "'" + rest;
      EscapedReadsBack(tail, rest, word + [c]);
      assert word + arg == word + [c] + tail;
      if c == '\'' {
        assert Escaped(arg) + "'" + rest == "'\\''" + after;
        StepOverQuote(after, word);
      } else {
        var s := Escaped(arg) + "'" + rest;
        assert s == [c] + after && s[1..] == after;
      }
    }
  }

  lemma {:induction false} QuoteReadsBack(arg: string, rest: string, word: Option<string>)
    requires word.None? || word.value == ""
    ensures Words(Quote(arg) + rest, word) == if NUL in arg then None else Words(rest, Some(arg))
  {
    var s := Quote(arg) + rest;
    assert s[0] == '\'' && s[1..] == Escaped(arg) + "'" + rest;
    EscapedReadsBack(arg, rest, "");
    assert "" + arg == arg;
  }

  ghost predicate NulFree(args: seq<string>) {
    forall a <- args :: NUL !in a
  }

  lemma {:induction false} QuotedArgsReadBack(args: seq<string>)
    requires args != []
    ensures Words(Join(Quoted(args), " "), None) == if NulFree(args) then Some(args) else None
  {
    var first, rest := args[0], args[1..];
    assert args == [first] + rest;
    if rest == [] {
      QuoteReadsBack(first, "", None);
      assert args == [first] && Quoted([first])[1..] == [];
      assert Join(Quoted(args), " ") == Quote(first) + "";
      assert Words("", Some(first)) == Some([first]);
    } else {
      var tail := " " + Join(Quoted(rest), " ");
      QuotedArgsReadBack(rest);
      QuoteReadsBack(first, tail, None);
      assert Join(Quoted(args), " ") == Quote(first) + tail;
      assert tail[1..] == Join(Quoted(rest), " ");
    }
  }

  lemma {:induction false} PlainReads(c: char, rest: string, word: Option<string>)
    requires !IsBlank(c) && !IsSpecial(c) && c != '\'' && c != '"' && c != '\\' && c != NUL
    ensures Words([c] + rest, word) == Words(rest, Some((if word.None? then "" else word.value) + [c]))
  {
    var s := [c] + rest;
    assert s[0] == c && s[1..] == rest;
    hide SingleQuoted, DoubleQuoted;
  }

  lemma {:induction false} BlankEndsWord(rest: string, word: string)
    ensures Words(" " + rest, Some(word)) ==
      var more := Words(rest, None); if more.None? then None else Some([word] + more.value)
  {
    var s := " " + rest;
    assert s[0] == ' ' && s[1..] == rest;
    hide SingleQuoted, DoubleQuoted;
  }

  lemma {:induction false} ExecReadsAsWord(rest: string)
    ensures Words("exec " + rest, None) ==
      var more := Words(rest, None); if more.None? then None else Some(["exec"] + more.value)
  {
    hide Words;
    assert "exec " + rest == ['e'] + (['x'] + (['e'] + (['c'] + (" " + rest))));
    PlainReads('e', ['x'] + (['e'] + (['c'] + (" " + rest))), None);
    PlainReads('x', ['e'] + (['c'] + (" " + rest)), Some("" + ['e']));
    PlainReads('e', ['c'] + (" " + rest), Some("" + ['e'] + ['x']));
    PlainReads('c', " " + rest, Some("" + ['e'] + ['x'] + ['e']));
    assert "" + ['e'] + ['x'] + ['e'] + ['c'] == "exec";
    BlankEndsWord(rest, "exec");
  }

  /** The shell reads the command as the words exec, the binary and the
      arguments, unexpanded, exactly when none of them holds a NUL. */
  lemma {:induction false} ShellReadsBackExactWords(binary: string, args: seq<string>)
    ensures Words(Command(binary, args), None)
         == if NulFree([binary] + args) then Some(["exec", binary] + args) else None
  {
    QuotedArgsReadBack([binary] + args);
    ExecReadsAsWord(Join(Quoted([binary] + args), " "));
    assert ["exec"] + ([binary] + args) == ["exec", binary] + args;
  }

  /** So different invocations never share a command line. */
  lemma {:induction false} CommandIsInjective(b: string, args: seq<string>, b': string, args': seq<string>)
    requires NulFree([b] + args) && NulFree([b'] + args') && Command(b, args) == Command(b', args')
    ensures b == b' && args == args'
  {
    ShellReadsBackExactWords(b, args);
    ShellReadsBackExactWords(b', args');
    var w, w' := ["exec", b] + args, ["exec", b'] + args';
    assert w[1] == b && w'[1] == b' && w[2..] == args && w'[2..] == args';
  }
}
