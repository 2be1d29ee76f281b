/**
 * The serial command interface: the input buffer is cut into lines at '\n'
 * (readStringUntil), each line is trimmed of surrounding whitespace
 * (String::trim) and compared with the three known commands.
 */
module SerialCommands {
  import opened Outputs

  /** The characters String::trim removes: C's isspace in the "C" locale. */
  predicate IsSpace(c: char)
  {
    c == ' ' || c == '\t' || c == '\n' || c == '\r' || c == '\U{000B}' || c == '\U{000C}'
  }

  predicate AllSpace(s: string)
  {
    forall k :: 0 <= k < |s| ==> IsSpace(s[k])
  }

  /** Drops leading whitespace. */
  function TrimStart(s: string): string
  {
    if s != [] && IsSpace(s[0]) then TrimStart(s[1..]) else s
  }

  /** Drops trailing whitespace. */
  function TrimEnd(s: string): string
  {
    if s != [] && IsSpace(s[|s| - 1]) then TrimEnd(s[..|s| - 1]) else s
  }

  /** String::trim. */
  function Trim(s: string): string
  {
    TrimEnd(TrimStart(s))
  }

  /** TrimStart keeps the longest suffix that does not start with a space. */
  lemma {:induction false} TrimStartMeaning(s: string)
    ensures var r := TrimStart(s);
      |r| <= |s| && r == s[|s| - |r|..] && AllSpace(s[..|s| - |r|]) && (r != [] ==> !IsSpace(r[0]))
  {
    if s != [] && IsSpace(s[0]) {
      TrimStartMeaning(s[1..]);
      var r := TrimStart(s[1..]);
      assert s[..|s| - |r|] == [s[0]] + s[1..][..|s| - 1 - |r|];
    }
  }

  /** TrimEnd keeps the longest prefix that does not end with a space. */
  lemma {:induction false} TrimEndMeaning(s: string)
    ensures var r := TrimEnd(s);
      |r| <= |s| && r == s[..|r|] && AllSpace(s[|r|..]) && (r != [] ==> !IsSpace(r[|r| - 1]))
  {
    if s != [] && IsSpace(s[|s| - 1]) {
      TrimEndMeaning(s[..|s| - 1]);
      var r := TrimEnd(s[..|s| - 1]);
      assert s[|r|..] == s[..|s| - 1][|r|..] + [s[|s| - 1]];
    }
  }

  lemma {:induction false} TrimStartSkipsSpace(pre: string, s: string)
    requires AllSpace(pre)
    requires s != [] ==> !IsSpace(s[0])
    ensures TrimStart(pre + s) == s
    decreases |pre|
  {
    if pre == [] {
      assert pre + s == s;
    } else {
      assert (pre + s)[1..] == pre[1..] + s;
      TrimStartSkipsSpace(pre[1..], s);
    }
  }

  lemma {:induction false} TrimEndSkipsSpace(s: string, post: string)
    requires AllSpace(post)
    requires s != [] ==> !IsSpace(s[|s| - 1])
    ensures TrimEnd(s + post) == s
    decreases |post|
  {
    if post == [] {
      assert s + post == s;
    } else {
      var n := |post| - 1;
      assert (s + post)[..|s + post| - 1] == s + post[..n];
      TrimEndSkipsSpace(s, post[..n]);
    }
  }

  /**
   * Whitespace around a word is removed and the word is kept: a command
   * followed by "\r" (a terminal sending CR LF) still reads as the command.
   */
  lemma TrimSurrounded(pre: string, word: string, post: string)
    requires AllSpace(pre) && AllSpace(post)
    requires word != [] ==> !IsSpace(word[0]) && !IsSpace(word[|word| - 1])
    ensures Trim(pre + word + post) == word
  {
    assert pre + word + post == pre + (word + post);
    if word == [] {
      assert AllSpace(word + post);
      assert word + post == post;
      TrimStartSkipsSpace(pre + post, []);
      assert pre + post + [] == pre + post;
      assert AllSpace(pre + post);
    } else {
      TrimStartSkipsSpace(pre, word + post);
      TrimEndSkipsSpace(word, post);
    }
  }

  /**
   * Serial.readStringUntil('\n') on a non-empty buffer: the characters up to
   * the first newline, and what follows that newline; without a newline,
   * the whole buffer.
   */
  function ReadLine(s: string): (r: (string, string))
    requires s != []
    ensures '\n' !in r.0
    ensures s == r.0 + "\n" + r.1 || (s == r.0 && r.1 == [])
    ensures |r.1| < |s|
  {
    if s[0] == '\n' then ([], s[1..])
    else if |s| == 1 then (s, [])
    else
      var (line, rest) := ReadLine(s[1..]);
      ([s[0]] + line, rest)
  }

  /** The lines read one after the other while characters remain available. */
  function Lines(s: string): seq<string>
    decreases |s|
  {
    if s == [] then [] else [ReadLine(s).0] + Lines(ReadLine(s).1)
  }

  datatype Command = Status | Reset | Help | Other

  /** The command a trimmed line names. */
  function Keyword(t: string): Command
  {
    if t == "STATUS" then Status
    else if t == "RESET" then Reset
    else if t == "HELP" then Help
    else Other
  }

  /** What serialEvent makes of one line. */
  function Parse(line: string): Command
  {
    Keyword(Trim(line))
  }

  /**
   * Whitespace around a line does not change what it means: a command
   * followed by "\r" (a terminal sending CR LF) still reads as the command.
   */
  lemma ParseIgnoresSurroundingSpace(pre: string, line: string, post: string)
    requires AllSpace(pre) && AllSpace(post)
    requires line != [] ==> !IsSpace(line[0]) && !IsSpace(line[|line| - 1])
    ensures Parse(pre + line + post) == Keyword(line)
  {
    TrimSurrounded(pre, line, post);
  }

  /** The three command words, with any surrounding whitespace, are recognised. */
  lemma CommandWordsRecognized(pre: string, post: string)
    requires AllSpace(pre) && AllSpace(post)
    ensures Parse(pre + "STATUS" + post) == Status
    ensures Parse(pre + "RESET" + post) == Reset
    ensures Parse(pre + "HELP" + post) == Help
  {
    ParseIgnoresSurroundingSpace(pre, "STATUS", post);
    ParseIgnoresSurroundingSpace(pre, "RESET", post);
    ParseIgnoresSurroundingSpace(pre, "HELP", post);
  }

  /** The commands of a sequence of lines, in order. */
  function Commands(lines: seq<string>): (cmds: seq<Command>)
    ensures |cmds| == |lines|
  {
    if lines == [] then [] else [Parse(lines[0])] + Commands(lines[1..])
  }

  /** The commands of a buffer: the command of its first line, then those of the rest. */
  lemma CommandsOfBuffer(s: string)
    requires s != []
    ensures Commands(Lines(s)) == [Parse(ReadLine(s).0)] + Commands(Lines(ReadLine(s).1))
  {
    var lines := Lines(s);
    assert lines[0] == ReadLine(s).0 && lines[1..] == Lines(ReadLine(s).1);
  }

  /** The effect of one command: STATUS and HELP only print, RESET re-runs setup. */
  function CommandEvents(c: Command): seq<Event>
  {
    match c
    case Status => [StatusShown]
    case Reset => SetupEvents()
    case Help => [HelpShown]
    case Other => []
  }

  /** The effect of a sequence of commands, one after the other. */
  function Responses(cmds: seq<Command>): seq<Event>
    decreases |cmds|
  {
    if cmds == [] then [] else Responses(cmds[..|cmds| - 1]) + CommandEvents(cmds[|cmds| - 1])
  }

  /** One more command adds its effect at the end. */
  lemma ResponsesSnoc(cmds: seq<Command>, c: Command)
    ensures Responses(cmds + [c]) == Responses(cmds) + CommandEvents(c)
  {
    assert (cmds + [c])[..|cmds|] == cmds;
  }

  /** Lines other than the three commands have no effect at all. */
  lemma {:induction false} OtherLinesIgnored(cmds: seq<Command>)
    requires forall i :: 0 <= i < |cmds| ==> cmds[i] == Other
    ensures Responses(cmds) == []
    decreases |cmds|
  {
    if cmds != [] {
      OtherLinesIgnored(cmds[..|cmds| - 1]);
    }
  }

  /** One command: RESET drives every output LOW, the others write no pin. */
  lemma CommandLevels(levels: Levels, c: Command)
    ensures Replay(levels, CommandEvents(c)) == if c == Reset then AllLow else levels
  {
    match c
    case Reset => SetupDrivesOutputsLow(levels);
    case Status => ReplayThenOther(levels, [], StatusShown);
    case Help => ReplayThenOther(levels, [], HelpShown);
    case Other =>
  }

  /**
   * Only RESET touches the pins: after the commands are handled every output
   * is LOW if one of them was RESET, and every level is as before otherwise.
   */
  lemma {:induction false} OnlyResetTouchesPins(levels: Levels, cmds: seq<Command>)
    ensures Replay(levels, Responses(cmds)) == if Reset in cmds then AllLow else levels
    decreases |cmds|
  {
    if cmds != [] {
      var n := |cmds| - 1;
      var prefix, last := cmds[..n], cmds[n];
      assert Reset in cmds <==> Reset in prefix || last == Reset by {
        assert cmds == prefix + [last];
      }
      ReplayAppend(levels, Responses(prefix), CommandEvents(last));
      OnlyResetTouchesPins(levels, prefix);
      CommandLevels(Replay(levels, Responses(prefix)), last);
    }
  }
}
