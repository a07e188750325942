/** Passing an argument list through a shell: the printer that quotes every argument, and a reader
    for the quoting rules of the shell that has to undo it. */
module ShellQuoting {
  import opened Prelude

  // ----- The printer

  /** `strings.ReplaceAll(arg, "'", "'\\''")`. */
  function Escaped(arg: string): string {
    if arg == "" then ""
    else (if arg[0] == '\'' then "'\\''" else [arg[0]]) + Escaped(arg[1..])
  }

  function Quoted(arg: string): string { "'" + Escaped(arg) + "'" }

  method EscapeForBash(args: seq<string>) returns (escaped: array<string>)
    ensures fresh(escaped) && escaped.Length == |args|
    ensures forall i | 0 <= i < |args| :: escaped[i] == Quoted(args[i])
  {
    escaped := new string[|args|];
    for i := 0 to |args|
      invariant forall k | 0 <= k < i :: escaped[k] == Quoted(args[k])
    {
      escaped[i] := "'" + Escaped(args[i]) + "'";
    }
  }

  /** The quoted arguments joined by single blanks. */
  function Line(args: seq<string>): string {
    if args == [] then ""
    else if |args| == 1 then Quoted(args[0])
    else Quoted(args[0]) + " " + Line(args[1..])
  }

  /** The text that `makeScript` encodes and the remote shell evaluates. */
  function BashArray(command: seq<string>): string { "args=(" + Line(command) + ")" }

  lemma {:induction false} JoinedQuotesAreLine(args: seq<string>, escaped: seq<string>)
    requires |escaped| == |args|
    requires forall i | 0 <= i < |args| :: escaped[i] == Quoted(args[i])
    ensures Join(escaped, ' ') == Line(args)
  {
    if |args| > 1 {
      JoinedQuotesAreLine(args[1..], escaped[1..]);
    }
  }

  /** The array part of `makeScript`; the base64 transport around it is left out. */
  method MakeArray(command: seq<string>) returns (text: string)
    ensures text == BashArray(command)
    ensures ReadArray(StripTrailingNewlines(text)) == if AllNulFree(command) then Words(command, "") else Malformed
  {
    var escaped := EscapeForBash(command);
    JoinedQuotesAreLine(command, escaped[..]);
    text := "args=(" + Join(escaped[..], ' ') + ")";
    ScriptArrayRoundTrip(command);
  }

  // ----- The reader

  /** Between words, inside an unquoted stretch of a word, or between single quotes. */
  datatype Mode = Between | InWord(word: string) | InQuotes(word: string)
  {
    function SoFar(): string { if Between? then "" else word }
  }

  datatype Words = Malformed | Words(words: seq<string>, rest: string)

  /** Characters that stand for themselves outside quotes. */
  predicate Plain(c: char) {
    'a' <= c <= 'z' || 'A' <= c <= 'Z' || '0' <= c <= '9' || c in "_-./,:+@%^"
  }

  /** Token recognition by sections 2.2.1 (backslash), 2.2.2 (single quotes) and 2.3 (tokens) of the
      POSIX.1-2017 Shell Command Language, up to the end of the text or an unquoted `)`. Unquoted
      characters that the shell would give any other meaning, and NUL, are refused. */
  function Read(s: string, words: seq<string>, mode: Mode): Words
    decreases |s|
  {
    if s == "" then
      match mode
      case Between => Words(words, "")
      case InWord(word) => Words(words + [word], "")
      case InQuotes(_) => Malformed
    else if s[0] == '\0' then Malformed
    else
      match mode
      case InQuotes(word) =>
        if s[0] == '\'' then Read(s[1..], words, InWord(word))
        else Read(s[1..], words, InQuotes(word + [s[0]]))
      case _ =>
        var word := mode.SoFar();
        if s[0] == '\'' then Read(s[1..], words, InQuotes(word))
        else if s[0] == '\\' then
          if |s| == 1 || s[1] == '\0' then Malformed
          else if s[1] == '\n' then Read(s[2..], words, mode)
          else Read(s[2..], words, InWord(word + [s[1]]))
        else if s[0] == ' ' || s[0] == '\t' then
          Read(s[1..], if mode.Between? then words else words + [word], Between)
        else if s[0] == ')' then
          Words(if mode.Between? then words else words + [word], s)
        else if Plain(s[0]) then Read(s[1..], words, InWord(word + [s[0]]))
        else Malformed
  }

  /** Reads `args=( ... )` and nothing after it. */
  function ReadArray(s: string): Words {
    if "args=(" <= s then
      match Read(s[6..], [], Between)
      case Malformed => Malformed
      case Words(words, rest) => if rest == ")" then Words(words, "") else Malformed
    else Malformed
  }

  /** What command substitution does to the decoded text before `eval` sees it. */
  function StripTrailingNewlines(s: string): string {
    if s != "" && s[|s| - 1] == '\n' then StripTrailingNewlines(s[..|s| - 1]) else s
  }

  predicate NulFree(arg: string) { '\0' !in arg }

  ghost predicate AllNulFree(args: seq<string>) { forall a | a in args :: NulFree(a) }

  // ----- The reader undoes the printer

  /** Close the quotes, read a backslashed quote, open them again. */
  lemma ReadEscapedQuote(tail: string, words: seq<string>, word: string)
    ensures Read("'\\''" + tail, words, InQuotes(word)) == Read(tail, words, InQuotes(word + "'"))
  {
    var s := "'\\''" + tail;
    assert s[1..] == "\\''" + tail;
    assert s[1..][2..] == "'" + tail;
    assert s[1..][2..][1..] == tail;
    assert Read(s, words, InQuotes(word)) == Read(s[1..], words, InWord(word));
    assert Read(s[1..], words, InWord(word)) == Read(s[1..][2..], words, InWord(word + "'"));
  }

  /** From inside an opening quote, the reader collects exactly the argument. */
  lemma {:induction false} ReadInsideQuotes(arg: string, rest: string, words: seq<string>, word: string)
    ensures Read(Escaped(arg) + "'" + rest, words, InQuotes(word))
            == if NulFree(arg) then Read(rest, words, InWord(word + arg)) else Malformed
    decreases |arg|
  {
    var s := Escaped(arg) + "'" + rest;
    if arg == "" {
      assert s[1..] == rest;
      assert word + arg == word;
    } else {
      var tail := Escaped(arg[1..]) + "'" + rest;
      var longer := word + [arg[0]];
      assert word + arg == longer + arg[1..];
      assert arg == [arg[0]] + arg[1..];
      ReadInsideQuotes(arg[1..], rest, words, longer);
      if arg[0] == '\'' {
        assert s == "'\\''" + tail;
        ReadEscapedQuote(tail, words, word);
      } else {
        assert s == [arg[0]] + tail;
        assert s[1..] == tail;
      }
    }
  }

  lemma ReadQuoted(arg: string, after: string, words: seq<string>)
    ensures Read(Quoted(arg) + after, words, Between)
            == if NulFree(arg) then Read(after, words, InWord(arg)) else Malformed
  {
    var s := Quoted(arg) + after;
    assert s == "'" + (Escaped(arg) + "'" + after);
    assert s[1..] == Escaped(arg) + "'" + after;
    ReadInsideQuotes(arg, after, words, "");
    assert "" + arg == arg;
  }

  /** A quoted argument and the blank after it. */
  lemma ReadFirst(arg: string, tail: string, words: seq<string>)
    ensures Read(Quoted(arg) + " " + tail, words, Between)
            == if NulFree(arg) then Read(tail, words + [arg], Between) else Malformed
  {
    var after := " " + tail;
    assert Quoted(arg) + " " + tail == Quoted(arg) + after;
    ReadQuoted(arg, after, words);
    assert after[1..] == tail;
  }

  /** The last quoted argument, at the end of the text or before a closing parenthesis. */
  lemma ReadLast(arg: string, rest: string, words: seq<string>)
    requires rest == "" || rest[0] == ')'
    ensures Read(Quoted(arg) + rest, words, Between)
            == if NulFree(arg) then Words(words + [arg], rest) else Malformed
  {
    ReadQuoted(arg, rest, words);
  }

  lemma LineParts(args: seq<string>, rest: string)
    requires |args| > 1
    ensures Line(args) + rest == Quoted(args[0]) + " " + (Line(args[1..]) + rest)
  {
  }

  /** What a reader that has collected `words` makes of the arguments, up to `rest`. */
  ghost function Collected(words: seq<string>, args: seq<string>, rest: string): Words {
    if AllNulFree(args) then Words(words + args, rest) else Malformed
  }

  lemma CollectFirst(words: seq<string>, args: seq<string>, rest: string)
    requires args != []
    ensures Collected(words, args, rest)
            == if NulFree(args[0]) then Collected(words + [args[0]], args[1..], rest) else Malformed
  {
    assert args == [args[0]] + args[1..];
    assert words + [args[0]] + args[1..] == words + args;
  }

  /** A whole printed line, followed by the end of the text or by a closing parenthesis. */
  lemma {:induction false} ReadLine(args: seq<string>, rest: string, words: seq<string>)
    requires rest == "" || rest[0] == ')'
    ensures Read(Line(args) + rest, words, Between) == Collected(words, args, rest)
    decreases |args|
  {
    if args == [] {
      assert Line(args) + rest == rest;
      assert words + [] == words;
    } else {
      CollectFirst(words, args, rest);
      if |args| == 1 {
        ReadLast(args[0], rest, words);
        assert words + [args[0]] + [] == words + [args[0]];
      } else {
        LineParts(args, rest);
        ReadFirst(args[0], Line(args[1..]) + rest, words);
        ReadLine(args[1..], rest, words + [args[0]]);
      }
    }
  }

  /** Quoting round trip: a shell reads back exactly the argument list, whatever is in it, if and
      only if no argument holds a NUL. */
  lemma QuotingRoundTrip(args: seq<string>)
    ensures Read(Line(args), [], Between) == if AllNulFree(args) then Words(args, "") else Malformed
  {
    ReadLine(args, "", []);
    assert Line(args) + "" == Line(args);
    assert [] + args == args;
  }

  /** The same for the array assignment that the generated script evaluates, after the newline
      stripping of command substitution. */
  lemma ScriptArrayRoundTrip(command: seq<string>)
    ensures ReadArray(StripTrailingNewlines(BashArray(command)))
            == if AllNulFree(command) then Words(command, "") else Malformed
  {
    var text := BashArray(command);
    assert text[|text| - 1] == ')';
    assert text[6..] == Line(command) + ")";
    ReadLine(command, ")", []);
    assert [] + command == command;
  }

  /** Different commands never print the same script text. */
  lemma PrintingIsInjective(a: seq<string>, b: seq<string>)
    requires AllNulFree(a) && AllNulFree(b) && BashArray(a) == BashArray(b)
    ensures a == b
  {
    ScriptArrayRoundTrip(a);
    ScriptArrayRoundTrip(b);
  }
}
