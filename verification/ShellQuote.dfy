/** Quoting a step's arguments for a printed command line, against a tokenizer
    that follows the shell: sections 2.2.1 (escape character), 2.2.2 (single
    quotes) and 2.3 (token recognition) of the POSIX.1-2017 Shell Command
    Language. */
module ShellQuote {
  import opened Wrappers
  import opened Sequences

  predicate IsPlain(c: char) {
    || 'a' <= c <= 'z' || 'A' <= c <= 'Z' || '0' <= c <= '9'
    || c in "-_=/.:,+@"
  }

  /** Every embedded single quote closes the quotes, stands escaped, and opens
      them again. */
  function Escaped(arg: string): string {
    if arg == "" then ""
    else (if arg[0] == '\'' then "'\\''" else [arg[0]]) + Escaped(arg[1..])
  }

  function Quote(arg: string): string {
    if arg != "" && forall c | c in arg :: IsPlain(c) then arg
    else "'" + Escaped(arg) + "'"
  }

  /** The argument part of a printed line: each argument after one space. */
  function Line(args: seq<string>): string {
    if args == [] then "" else Line(args[..|args| - 1]) + " " + Quote(args[|args| - 1])
  }

  method DisplayArgs(args: seq<string>) returns (s: string)
    ensures s == Line(args)
  {
    s := "";
    for i := 0 to |args|
      invariant s == Line(args[..i])
    {
      assert args[..i + 1][..i] == args[..i];
      s := s + " ";
      s := s + Quote(args[i]);
    }
    assert args[..|args|] == args;
  }

  // ---- the shell's side ----

  /** Where the tokenizer stands: between words, inside a word unquoted, inside
      single quotes, or just after a backslash. */
  datatype Mode = Blank | Word | Quoted | Escape

  /** Characters section 2.2 says to quote for them to stand for themselves. The
      equals sign is left out: it only makes an assignment before the command
      name, and arguments come after it. */
  predicate IsSpecial(c: char) {
    c in "|&;<>()$`\\\"' \t\n*?[#~%"
  }

  /** The words of `s` read from `mode` with `word` begun. A character the shell
      would expand, or read as an operator, makes the line something other than
      a list of words. */
  function Tokens(s: string, mode: Mode, word: string): Option<seq<string>> {
    if s == "" then
      match mode
      case Blank => Some([])
      case Word => Some([word])
      case _ => None
    else
      var c, rest := s[0], s[1..];
      match mode
      case Quoted => if c == '\'' then Tokens(rest, Word, word) else Tokens(rest, Quoted, word + [c])
      case Escape => if c == '\n' then None else Tokens(rest, Word, word + [c])
      case _ =>
        if c == ' ' then
          if mode == Blank then Tokens(rest, Blank, "") else Cons(word, Tokens(rest, Blank, ""))
        else if c == '\'' then Tokens(rest, Quoted, word)
        else if c == '\\' then Tokens(rest, Escape, word)
        else if IsSpecial(c) then None
        else Tokens(rest, Word, word + [c])
  }

  function Cons(word: string, rest: Option<seq<string>>): Option<seq<string>> {
    if rest.None? then None else Some([word] + rest.value)
  }

  function Tokenize(s: string): Option<seq<string>> {
    Tokens(s, Blank, "")
  }

  // ---- the round trip ----

  lemma {:induction false} PlainReadsBack(arg: string, rest: string, mode: Mode, word: string)
    requires arg != "" && (forall c | c in arg :: IsPlain(c))
    requires mode == Word || (mode == Blank && word == "")
    ensures Tokens(arg + rest, mode, word) == Tokens(rest, Word, word + arg)
  {
    var c := arg[0];
    assert c in arg;
    assert (arg + rest)[1..] == arg[1..] + rest;
    assert !IsSpecial(c);
    if |arg| > 1 {
      PlainReadsBack(arg[1..], rest, Word, word + [c]);
      assert word + [c] + arg[1..] == word + arg;
    } else {
      assert arg == [c];
    }
  }

  lemma {:induction false} EscapedReadsBack(arg: string, rest: string, word: string)
    ensures Tokens(Escaped(arg) + "'" + rest, Quoted, word) == Tokens(rest, Word, word + arg)
  {
    if arg == "" {
      assert Escaped(arg) + "'" + rest == ['\''] + rest;
      assert word + arg == word;
    } else {
      var c, more := arg[0], Escaped(arg[1..]) + "'" + rest;
      if c == '\'' {
        EscapedQuoteReadsBack(more, word);
        assert Escaped(arg) + "'" + rest == "'\\''" + more;
      } else {
        assert Escaped(arg) + "'" + rest == [c] + more;
      }
      EscapedReadsBack(arg[1..], rest, word + [c]);
      assert word + [c] + arg[1..] == word + arg;
    }
  }

  lemma EscapedQuoteReadsBack(more: string, word: string)
    ensures Tokens("'\\''" + more, Quoted, word) == Tokens(more, Quoted, word + ['\''])
  {
    var s := "'\\''" + more;
    calc {
      Tokens(s, Quoted, word);
      { assert s[1..] == "\\''" + more; }
      Tokens("\\''" + more, Word, word);
      { assert ("\\''" + more)[1..] == "''" + more; }
      Tokens("''" + more, Escape, word);
      { assert ("''" + more)[1..] == "'" + more; }
      Tokens("'" + more, Word, word + ['\'']);
      { assert ("'" + more)[1..] == more; }
      Tokens(more, Quoted, word + ['\'']);
    }
  }

  /** One quoted argument is one word, with whatever follows read after it. */
  lemma QuoteReadsBack(arg: string, rest: string)
    ensures Tokens(Quote(arg) + rest, Blank, "") == Tokens(rest, Word, arg)
  {
    if arg != "" && forall c | c in arg :: IsPlain(c) {
      PlainReadsBack(arg, rest, Blank, "");
      assert "" + arg == arg;
    } else {
      var body := Escaped(arg) + "'" + rest;
      assert Quote(arg) + rest == "'" + body;
      EscapedReadsBack(arg, rest, "");
      assert "" + arg == arg;
    }
  }

  /** The line built from the front, for reading word by word. */
  function LineFrom(args: seq<string>): string {
    if args == [] then "" else " " + Quote(args[0]) + LineFrom(args[1..])
  }

  lemma {:induction false} LineFromGrows(args: seq<string>, arg: string)
    ensures LineFrom(args + [arg]) == LineFrom(args) + (" " + Quote(arg))
  {
    if args == [] {
      assert (args + [arg])[1..] == [];
    } else {
      LineFromGrows(args[1..], arg);
      assert (args + [arg])[1..] == args[1..] + [arg];
      Regroup(" " + Quote(args[0]), LineFrom(args[1..]), " " + Quote(arg));
    }
  }

  lemma {:induction false} LineIsLineFrom(args: seq<string>)
    ensures Line(args) == LineFrom(args)
  {
    if args != [] {
      var n := |args| - 1;
      LineIsLineFrom(args[..n]);
      LineFromGrows(args[..n], args[n]);
      assert args[..n] + [args[n]] == args;
      Regroup(LineFrom(args[..n]), " ", Quote(args[n]));
    }
  }

  lemma {:induction false} LineFromReadsBack(args: seq<string>, word: string)
    ensures Tokens(LineFrom(args), Blank, "") == Some(args)
    ensures Tokens(LineFrom(args), Word, word) == Some([word] + args)
  {
    if args == [] {
      assert [word] + args == [word];
    } else {
      var rest := Quote(args[0]) + LineFrom(args[1..]);
      assert LineFrom(args) == [' '] + rest;
      QuoteReadsBack(args[0], LineFrom(args[1..]));
      LineFromReadsBack(args[1..], args[0]);
      assert [args[0]] + args[1..] == args;
    }
  }

  /** Pasting the printed arguments into a shell gives the arguments back, for
      every list of strings. */
  lemma DisplayedArgumentsReadBack(args: seq<string>)
    ensures Tokenize(Line(args)) == Some(args)
  {
    LineIsLineFrom(args);
    LineFromReadsBack(args, "");
  }

  /** So two argument lists print alike only when they are equal. */
  lemma DisplayIsInjective(xs: seq<string>, ys: seq<string>)
    ensures Line(xs) == Line(ys) <==> xs == ys
  {
    DisplayedArgumentsReadBack(xs);
    DisplayedArgumentsReadBack(ys);
  }

  /** Arguments that need no quotes, of letters, digits and nine other characters,
      are printed as they are, and only those. */
  lemma QuotesOnlyWhenNeeded(arg: string)
    ensures Quote(arg) == arg <==>
      && arg != ""
      && forall c | c in arg :: 'a' <= c <= 'z' || 'A' <= c <= 'Z' || '0' <= c <= '9' || c in "-_=/.:,+@"
  {
    if Quote(arg) == arg && !(arg != "" && forall c | c in arg :: IsPlain(c)) {
      EscapedIsNoShorter(arg);
    }
  }

  lemma {:induction false} EscapedIsNoShorter(arg: string)
    ensures |Escaped(arg)| >= |arg|
  {
    if arg != "" {
      EscapedIsNoShorter(arg[1..]);
    }
  }
}
