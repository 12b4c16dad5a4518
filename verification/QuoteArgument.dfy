/**
 * Quoting of one Windows command-line argument (CmuxShellExtension.cpp:178-209) against the documented
 * parsing rules of the Microsoft C runtime, and the command line built from it.
 */
module QuoteArgument {
  import opened Prelude

  function Backslashes(n: nat): string {
    seq(n, _ => '\\')
  }

  /** Escaped text of an argument, with `pending` backslashes seen but not yet written. */
  function Escape(argument: string, pending: nat): string {
    if argument == [] then Backslashes(2 * pending)
    else if argument[0] == '\\' then Escape(argument[1..], pending + 1)
    else if argument[0] == '"' then Backslashes(2 * pending + 1) + "\"" + Escape(argument[1..], 0)
    else Backslashes(pending) + [argument[0]] + Escape(argument[1..], 0)
  }

  function Quoted(argument: string): string {
    "\"" + Escape(argument, 0) + "\""
  }

  lemma EscapeStep(argument: string, i: nat, pending: nat)
    requires i < |argument|
    ensures Escape(argument[i..], pending)
            == if argument[i] == '\\' then Escape(argument[i + 1..], pending + 1)
               else if argument[i] == '"' then Backslashes(2 * pending + 1) + "\"" + Escape(argument[i + 1..], 0)
               else Backslashes(pending) + [argument[i]] + Escape(argument[i + 1..], 0)
  {
    assert argument[i..][1..] == argument[i + 1..];
  }

  method QuoteArgument(argument: string) returns (quoted: string)
    ensures quoted == Quoted(argument)
  {
    quoted := "\"";
    var backslashes := 0;
    var i := 0;
    while i < |argument|
      invariant 0 <= i <= |argument|
      invariant quoted + Escape(argument[i..], backslashes) == "\"" + Escape(argument, 0)
    {
      EscapeStep(argument, i, backslashes);
      if argument[i] == '\\' {
        backslashes := backslashes + 1;
        i := i + 1;
        continue;
      }
      ghost var rest := Escape(argument[i + 1..], 0);
      if argument[i] == '"' {
        assert quoted + (Backslashes(2 * backslashes + 1) + "\"" + rest)
            == quoted + Backslashes(2 * backslashes + 1) + "\"" + rest;
        quoted := quoted + Backslashes(backslashes * 2 + 1);
        quoted := quoted + "\"";
      } else {
        assert quoted + (Backslashes(backslashes) + [argument[i]] + rest)
            == quoted + Backslashes(backslashes) + [argument[i]] + rest;
        quoted := quoted + Backslashes(backslashes);
        quoted := quoted + [argument[i]];
      }
      backslashes := 0;
      i := i + 1;
    }
    quoted := quoted + Backslashes(backslashes * 2);
    quoted := quoted + "\"";
  }

  // ----- The runtime's parsing rules -----

  predicate IsSpace(c: char) {
    c == ' ' || c == '\t'
  }

  function LeadingBackslashes(s: string): (n: nat)
    ensures n <= |s| && s[..n] == Backslashes(n) && (n < |s| ==> s[n] != '\\')
  {
    if s == [] || s[0] != '\\' then 0 else 1 + LeadingBackslashes(s[1..])
  }

  datatype Parsed = Parsed(argument: string, rest: string)

  function Prepend(text: string, parsed: Parsed): Parsed {
    parsed.(argument := text + parsed.argument)
  }

  /** One argument from the front of `s`: 2n backslashes before a quote stand for n and the quote delimits, 2n+1
      stand for n and a literal quote, backslashes elsewhere stand for themselves; two quotes in a row inside a
      quoted part stand for one; white space ends the argument outside a quoted part. */
  function ParseArgument(s: string, inQuotes: bool): (parsed: Parsed)
    ensures |parsed.rest| <= |s|
    ensures s != [] && !IsSpace(s[0]) ==> |parsed.rest| < |s|
    decreases |s|
  {
    var n := LeadingBackslashes(s);
    var t := s[n..];
    if t != [] && t[0] == '"' then
      if n % 2 == 1 then Prepend(Backslashes(n / 2) + "\"", ParseArgument(t[1..], inQuotes))
      else if inQuotes && |t| > 1 && t[1] == '"' then
        Prepend(Backslashes(n / 2) + "\"", ParseArgument(t[2..], inQuotes))
      else Prepend(Backslashes(n / 2), ParseArgument(t[1..], !inQuotes))
    else if t == [] || (IsSpace(t[0]) && !inQuotes) then Parsed(Backslashes(n), t)
    else Prepend(Backslashes(n) + [t[0]], ParseArgument(t[1..], inQuotes))
  }

  function SkipSpaces(s: string): (r: string)
    ensures |r| <= |s| && (r != [] ==> !IsSpace(r[0]))
  {
    if s != [] && IsSpace(s[0]) then SkipSpaces(s[1..]) else s
  }

  function ParseArguments(s: string): seq<string>
    decreases |s|
  {
    var t := SkipSpaces(s);
    if t == [] then []
    else
      var parsed := ParseArgument(t, false);
      [parsed.argument] + ParseArguments(parsed.rest)
  }

  /** The program name: quotes toggle, no escapes, white space outside quotes ends it. */
  function ParseProgramName(s: string, inQuotes: bool): (parsed: Parsed)
    ensures |parsed.rest| <= |s|
  {
    if s == [] || (IsSpace(s[0]) && !inQuotes) then Parsed([], s)
    else if s[0] == '"' then ParseProgramName(s[1..], !inQuotes)
    else Prepend([s[0]], ParseProgramName(s[1..], inQuotes))
  }

  function ParseCommandLine(s: string): seq<string> {
    var program := ParseProgramName(s, false);
    [program.argument] + ParseArguments(program.rest)
  }

  // ----- Round trip -----

  predicate EndsArgument(rest: string) {
    rest == [] || IsSpace(rest[0])
  }

  lemma {:induction false} CountBackslashes(n: nat, u: string)
    requires u == [] || u[0] != '\\'
    ensures LeadingBackslashes(Backslashes(n) + u) == n && (Backslashes(n) + u)[n..] == u
  {
    if n == 0 {
      assert Backslashes(0) + u == u;
    } else {
      assert (Backslashes(n) + u)[1..] == Backslashes(n - 1) + u;
      CountBackslashes(n - 1, u);
    }
  }

  /** One parsing step, for text already divided into its leading backslashes and the rest. */
  lemma ParseStep(n: nat, u: string, inQuotes: bool)
    requires u == [] || u[0] != '\\'
    ensures ParseArgument(Backslashes(n) + u, inQuotes)
            == if u != [] && u[0] == '"' then
                 if n % 2 == 1 then Prepend(Backslashes(n / 2) + "\"", ParseArgument(u[1..], inQuotes))
                 else if inQuotes && |u| > 1 && u[1] == '"' then
                   Prepend(Backslashes(n / 2) + "\"", ParseArgument(u[2..], inQuotes))
                 else Prepend(Backslashes(n / 2), ParseArgument(u[1..], !inQuotes))
               else if u == [] || (IsSpace(u[0]) && !inQuotes) then Parsed(Backslashes(n), u)
               else Prepend(Backslashes(n) + [u[0]], ParseArgument(u[1..], inQuotes))
  {
    CountBackslashes(n, u);
  }

  /** Inside quotes, escaped text and the closing quote parse back to the pending backslashes and the text. */
  lemma {:induction false} EscapedParsesBack(argument: string, pending: nat, rest: string)
    requires EndsArgument(rest)
    ensures ParseArgument(Escape(argument, pending) + "\"" + rest, true)
            == Parsed(Backslashes(pending) + argument, rest)
    decreases |argument|
  {
    hide ParseArgument, Backslashes;
    if argument == [] {
      var u := "\"" + rest;
      ParseStep(2 * pending, u, true);
      assert u[1..] == rest;
      RestParsesEmpty(rest);
      assert Backslashes(2 * pending) + "\"" + rest == Backslashes(2 * pending) + u;
    } else if argument[0] == '\\' {
      EscapedParsesBack(argument[1..], pending + 1, rest);
      OneMoreBackslash(pending, argument);
    } else {
      EscapedParsesBack(argument[1..], 0, rest);
      EscapedCharacter(argument, pending, rest);
    }
  }

  lemma OneMoreBackslash(pending: nat, argument: string)
    requires argument != [] && argument[0] == '\\'
    ensures Backslashes(pending + 1) + argument[1..] == Backslashes(pending) + argument
  {
  }

  /** A character other than a backslash writes the pending ones, doubled and with an escape before a quote. */
  lemma EscapedCharacter(argument: string, pending: nat, rest: string)
    requires argument != [] && argument[0] != '\\'
    requires ParseArgument(Escape(argument[1..], 0) + "\"" + rest, true) == Parsed(Backslashes(0) + argument[1..], rest)
    ensures ParseArgument(Escape(argument, pending) + "\"" + rest, true)
            == Parsed(Backslashes(pending) + argument, rest)
  {
    hide ParseArgument, Backslashes;
    var n := if argument[0] == '"' then 2 * pending + 1 else pending;
    var tail := Escape(argument[1..], 0) + "\"" + rest;
    var u := [argument[0]] + tail;
    assert Escape(argument, pending) == Backslashes(n) + [argument[0]] + Escape(argument[1..], 0);
    Regroup(Backslashes(n), argument[0], Escape(argument[1..], 0), "\"", rest);
    ParseStep(n, u, true);
    CharacterPrefix(Backslashes(pending), argument);
  }

  lemma Regroup(a: string, c: char, b: string, d: string, e: string)
    ensures a + [c] + b + d + e == a + ([c] + (b + d + e))
    ensures ([c] + (b + d + e))[1..] == b + d + e
  {
  }

  lemma CharacterPrefix(before: string, argument: string)
    requires argument != []
    ensures before + [argument[0]] + (Backslashes(0) + argument[1..]) == before + argument
  {
  }

  lemma RestParsesEmpty(rest: string)
    requires EndsArgument(rest)
    ensures ParseArgument(rest, false) == Parsed([], rest)
  {
    assert Backslashes(0) + rest == rest;
    ParseStep(0, rest, false);
  }

  /** Main result: parsing a quoted argument returns exactly the argument, for every string. */
  lemma QuotedParsesBack(argument: string, rest: string)
    requires EndsArgument(rest)
    ensures ParseArgument(Quoted(argument) + rest, false) == Parsed(argument, rest)
  {
    var tail := Escape(argument, 0) + "\"" + rest;
    assert Quoted(argument) + rest == Backslashes(0) + ("\"" + tail);
    ParseStep(0, "\"" + tail, false);
    assert ("\"" + tail)[1..] == tail;
    EscapedParsesBack(argument, 0, rest);
    assert Backslashes(0) + argument == argument;
  }

  // ----- The launched command line -----

  datatype LaunchMode = Window | Workspace

  function Flag(mode: LaunchMode): string {
    match mode
    case Window => "--new-window"
    case Workspace => "--new-workspace"
  }

  function CommandLine(executable: string, mode: LaunchMode, folder: string): string {
    Quoted(executable) + " " + Flag(mode) + " " + Quoted(folder)
  }

  predicate PlainWord(word: string) {
    forall c :: c in word ==> c != '"' && c != '\\' && !IsSpace(c)
  }

  lemma {:induction false} PlainWordParses(word: string, rest: string)
    requires PlainWord(word) && EndsArgument(rest)
    ensures ParseArgument(word + rest, false) == Parsed(word, rest)
  {
    hide ParseArgument, LeadingBackslashes, PlainWord, Backslashes;
    if word == [] {
      assert word + rest == rest;
      RestParsesEmpty(rest);
    } else {
      PlainParts(word);
      WordStep(word, rest);
      ParseStep(0, word + rest, false);
      PlainWordParses(word[1..], rest);
    }
  }

  lemma WordStep(word: string, rest: string)
    requires word != []
    ensures Backslashes(0) + (word + rest) == word + rest && (word + rest)[1..] == word[1..] + rest
    ensures Backslashes(0) + [word[0]] + word[1..] == word
  {
  }

  lemma PlainParts(word: string)
    requires PlainWord(word) && word != []
    ensures word[0] != '"' && word[0] != '\\' && !IsSpace(word[0]) && PlainWord(word[1..])
  {
    assert word[0] in word;
  }

  /** Backslashes at the end of an argument, counting those pending before it. */
  function Trailing(argument: string, pending: nat): nat {
    if argument == [] then pending
    else Trailing(argument[1..], if argument[0] == '\\' then pending + 1 else 0)
  }

  lemma {:induction false} TrailingCounts(argument: string, pending: nat)
    requires argument != []
    ensures Trailing(argument, pending) > 0 <==> argument[|argument| - 1] == '\\'
  {
    if |argument| > 1 {
      TrailingCounts(argument[1..], if argument[0] == '\\' then pending + 1 else 0);
    }
  }

  /** Without quotes in it, escaping only doubles the backslashes at the end. */
  lemma {:induction false} EscapeWithoutQuotes(argument: string, pending: nat)
    requires '"' !in argument
    ensures Escape(argument, pending) == Backslashes(pending) + argument + Backslashes(Trailing(argument, pending))
  {
    if argument == [] {
      assert Backslashes(2 * pending) == Backslashes(pending) + [] + Backslashes(pending);
    } else if argument[0] == '\\' {
      EscapeWithoutQuotes(argument[1..], pending + 1);
      assert Backslashes(pending + 1) + argument[1..] == Backslashes(pending) + argument;
    } else {
      EscapeWithoutQuotes(argument[1..], 0);
      var t := Backslashes(Trailing(argument[1..], 0));
      assert Backslashes(pending) + [argument[0]] + (Backslashes(0) + argument[1..] + t)
          == Backslashes(pending) + argument + t;
    }
  }

  lemma {:induction false} ProgramNameInside(name: string, rest: string)
    requires '"' !in name && EndsArgument(rest)
    ensures ParseProgramName(name + "\"" + rest, true) == Parsed(name, rest)
  {
    var s := name + "\"" + rest;
    if name == [] {
      assert s[1..] == rest;
    } else {
      assert s[1..] == name[1..] + "\"" + rest;
      ProgramNameInside(name[1..], rest);
      assert [name[0]] + name[1..] == name;
    }
  }

  lemma ProgramNameParses(executable: string, rest: string)
    requires '"' !in executable && EndsArgument(rest)
    ensures ParseProgramName(Quoted(executable) + rest, false)
            == Parsed(executable + Backslashes(Trailing(executable, 0)), rest)
  {
    hide Trailing;
    EscapeWithoutQuotes(executable, 0);
    var name := executable + Backslashes(Trailing(executable, 0));
    assert Backslashes(0) + executable == executable;
    assert Escape(executable, 0) == name;
    assert (Quoted(executable) + rest)[1..] == name + "\"" + rest;
    ProgramNameInside(name, rest);
  }

  lemma ArgumentsAfterProgram(word: string, folder: string)
    requires PlainWord(word) && word != []
    ensures ParseArguments(" " + word + " " + Quoted(folder)) == [word, folder]
  {
    hide ParseArgument, ParseArguments, Quoted, PlainWord;
    var tail := " " + Quoted(folder);
    assert " " + word + " " + Quoted(folder) == " " + (word + tail);
    FirstIsPlain(word);
    PlainWordParses(word, tail);
    OneMoreArgument(word + tail, word, tail);
    QuotedStarts(folder);
    QuotedParsesBack(folder, []);
    assert Quoted(folder) + [] == Quoted(folder);
    OneMoreArgument(Quoted(folder), folder, []);
    NoArguments();
  }

  lemma FirstIsPlain(word: string)
    requires PlainWord(word) && word != []
    ensures !IsSpace(word[0])
  {
    assert word[0] in word;
  }

  lemma QuotedStarts(folder: string)
    ensures Quoted(folder) != [] && !IsSpace(Quoted(folder)[0])
  {
  }

  lemma NoArguments()
    ensures ParseArguments([]) == []
  {
  }

  /** One space, then text that parses to an argument and a rest. */
  lemma OneMoreArgument(text: string, argument: string, rest: string)
    requires text != [] && !IsSpace(text[0]) && ParseArgument(text, false) == Parsed(argument, rest)
    ensures ParseArguments(" " + text) == [argument] + ParseArguments(rest)
  {
    hide ParseArgument;
    assert (" " + text)[1..] == text;
    assert SkipSpaces(" " + text) == text;
  }

  /** The folder arrives unchanged as the last of three arguments; the program name arrives unchanged exactly when
      it does not end in a backslash. A Windows path holds no quotation mark. */
  lemma FolderArrivesUnchanged(executable: string, mode: LaunchMode, folder: string)
    requires '"' !in executable && executable != []
    ensures var args := ParseCommandLine(CommandLine(executable, mode, folder));
            && |args| == 3 && args[1] == Flag(mode) && args[2] == folder
            && (args[0] == executable <==> executable[|executable| - 1] != '\\')
  {
    hide Quoted, ParseArguments, ParseProgramName, Trailing, Flag, Backslashes;
    var rest := " " + Flag(mode) + " " + Quoted(folder);
    JoinLast(Quoted(executable), " ", Flag(mode), " ", Quoted(folder));
    ProgramNameParses(executable, rest);
    FlagIsPlain(mode);
    ArgumentsAfterProgram(Flag(mode), folder);
    TrailingCounts(executable, 0);
    NoTrailing(executable, Trailing(executable, 0));
  }

  lemma JoinLast(a: string, b: string, c: string, d: string, e: string)
    ensures a + b + c + d + e == a + (b + c + d + e)
  {
  }

  lemma FlagIsPlain(mode: LaunchMode)
    ensures PlainWord(Flag(mode)) && Flag(mode) != []
  {
  }

  lemma NoTrailing(s: string, n: nat)
    ensures s + Backslashes(n) == s <==> n == 0
  {
    assert |s + Backslashes(n)| == |s| + n;
  }
}
