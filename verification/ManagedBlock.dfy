/** The managed block of a Codex config file.

    Its printer quotes as Go does, and its parser reads one field of it as JSON.
 */
module ManagedBlock {
  import opened Text
  import opened MarkedText
  import opened Quoting
  import opened Collections

  // ---------------------------------------------------------------- Lines and paths

  predicate Without(s: string, sep: char) {
    forall k :: 0 <= k < |s| ==> s[k] != sep
  }

  lemma {:induction false} SplitPlain(s: string, sep: char)
    requires Without(s, sep)
    ensures Split(s, sep) == [s]
  {
    if s != "" {
      SplitPlain(s[1..], sep);
      assert s == [s[0]] + s[1..];
    }
  }

  lemma {:induction false} SplitFirst(s: string, rest: string, sep: char)
    requires Without(s, sep)
    ensures Split(s + [sep] + rest, sep) == [s] + Split(rest, sep)
  {
    var text := s + [sep] + rest;
    if s == "" {
      assert text[1..] == rest;
    } else {
      SplitFirst(s[1..], rest, sep);
      assert text[1..] == s[1..] + [sep] + rest;
      assert s == [s[0]] + s[1..];
      var parts := [s[1..]] + Split(rest, sep);
      assert parts[1..] == Split(rest, sep);
    }
  }

  lemma {:induction false} SplitParts(s: string, sep: char)
    ensures forall k :: 0 <= k < |Split(s, sep)| ==> Without(Split(s, sep)[k], sep)
  {
    if s != "" {
      hide Without;
      SplitParts(s[1..], sep);
      var rest := Split(s[1..], sep);
      if s[0] != sep {
        WithoutMore(s[0], rest[0], sep);
      } else {
        WithoutNone(sep);
      }
    }
  }

  lemma WithoutMore(c: char, s: string, sep: char)
    requires c != sep && Without(s, sep)
    ensures Without([c] + s, sep)
  {
  }

  lemma WithoutNone(sep: char)
    ensures Without("", sep)
  {
  }

  /** Splitting only cuts: the first part, its separator and the rest make up the text. */
  lemma {:induction false} SplitInverts(s: string, sep: char)
    ensures var parts := Split(s, sep);
            && (|parts| == 1 ==> s == parts[0])
            && (|parts| > 1 ==>
                  exists rest :: s == parts[0] + [sep] + rest && Split(rest, sep) == parts[1..])
  {
    hide Split;
    SplitStep(s, sep);
    if s != "" {
      var head, tail := s[0], s[1..];
      var parts := Split(tail, sep);
      SplitInverts(tail, sep);
      assert s == [head] + tail;
      if head == sep {
        assert s == "" + [sep] + tail;
      } else if |parts| > 1 {
        var rest :| tail == parts[0] + [sep] + rest && Split(rest, sep) == parts[1..];
        assert s == ([head] + parts[0]) + [sep] + rest;
      }
    }
  }

  function Unlines(lines: seq<string>): string {
    if lines == [] then "" else lines[0] + ['\n'] + Unlines(lines[1..])
  }

  lemma {:induction false} UnlinesSplit(s: string)
    requires Split(s, '\n')[|Split(s, '\n')| - 1] == ""
    ensures var lines := Split(s, '\n'); s == Unlines(lines[..|lines| - 1])
    decreases |s|
  {
    hide Split;
    var lines := Split(s, '\n');
    SplitInverts(s, '\n');
    if |lines| > 1 {
      var rest :| s == lines[0] + ['\n'] + rest && Split(rest, '\n') == lines[1..];
      UnlinesSplit(rest);
      assert lines[..|lines| - 1][1..] == lines[1..][..|lines| - 2];
    }
  }

  lemma {:induction false} SplitUnlines(lines: seq<string>)
    requires forall k :: 0 <= k < |lines| ==> NewlineFree(lines[k])
    ensures Split(Unlines(lines), '\n') == lines + [""]
  {
    if lines != [] {
      SplitUnlines(lines[1..]);
      SplitFirst(lines[0], Unlines(lines[1..]), '\n');
      assert lines == [lines[0]] + lines[1..];
    }
  }

  /** A line no marker can end. */
  predicate Plain(line: string) {
    NewlineFree(line) && (line == "" || line[|line| - 1] != 'P')
  }

  lemma {:induction false} UnlinesClean(lines: seq<string>)
    requires forall k :: 0 <= k < |lines| ==> Plain(lines[k])
    ensures Clean(Unlines(lines)) && Ended(Unlines(lines))
  {
    hide Clean;
    if lines == [] {
      LineClean("");
      CleanSeam("", "\n");
      assert "" + "\n" == "\n";
    } else {
      UnlinesClean(lines[1..]);
      LineClean(lines[0]);
      CleanSeam(lines[0] + ['\n'], Unlines(lines[1..]));
    }
  }

  predicate IsAbs(path: string) {
    path != "" && path[0] == '/'
  }

  /** What remains of path segments once empty ones and dots are dropped and .. steps back. */
  function Resolve(done: seq<string>, segments: seq<string>): seq<string>
    decreases |segments|
  {
    if segments == [] then done
    else if segments[0] == "" || segments[0] == "." then Resolve(done, segments[1..])
    else if segments[0] == ".." then Resolve(if done == [] then [] else done[..|done| - 1], segments[1..])
    else Resolve(done + [segments[0]], segments[1..])
  }

  function Rooted(segments: seq<string>): string {
    if segments == [] then "/"
    else if |segments| == 1 then "/" + segments[0]
    else "/" + segments[0] + Rooted(segments[1..])
  }

  /** Lexical cleaning of an absolute path. */
  function CleanPath(path: string): string
    requires IsAbs(path)
  {
    Rooted(Resolve([], Split(path[1..], '/')))
  }

  predicate Proper(segments: seq<string>) {
    forall k :: 0 <= k < |segments| ==>
      segments[k] != "" && segments[k] != "." && segments[k] != ".." && Without(segments[k], '/')
  }

  lemma {:induction false} ResolveIsProper(done: seq<string>, segments: seq<string>)
    requires Proper(done) && forall k :: 0 <= k < |segments| ==> Without(segments[k], '/')
    ensures Proper(Resolve(done, segments))
    decreases |segments|
  {
    if segments != [] {
      var next := if segments[0] == "" || segments[0] == "." then done
                  else if segments[0] == ".." then (if done == [] then [] else done[..|done| - 1])
                  else done + [segments[0]];
      ResolveIsProper(next, segments[1..]);
    }
  }

  lemma {:induction false} ProperResolves(done: seq<string>, segments: seq<string>)
    requires Proper(segments)
    ensures Resolve(done, segments) == done + segments
    decreases |segments|
  {
    if segments != [] {
      ProperResolves(done + [segments[0]], segments[1..]);
      assert done + [segments[0]] + segments[1..] == done + segments;
    }
  }

  lemma {:induction false} SplitRooted(segments: seq<string>)
    requires Proper(segments)
    ensures IsAbs(Rooted(segments))
    ensures segments != [] ==> Split(Rooted(segments)[1..], '/') == segments
  {
    if |segments| == 1 {
      assert Rooted(segments)[1..] == segments[0];
      SplitPlain(segments[0], '/');
    } else if |segments| > 1 {
      var rest := Rooted(segments[1..]);
      SplitRooted(segments[1..]);
      assert Rooted(segments)[1..] == segments[0] + ['/'] + rest[1..];
      SplitFirst(segments[0], rest[1..], '/');
      assert segments == [segments[0]] + segments[1..];
    }
  }

  lemma CleanPathIsStable(path: string)
    requires IsAbs(path)
    ensures IsAbs(CleanPath(path)) && CleanPath(CleanPath(path)) == CleanPath(path)
  {
    hide Resolve, Rooted, Split;
    var segments := Resolve([], Split(path[1..], '/'));
    SplitParts(path[1..], '/');
    ResolveIsProper([], Split(path[1..], '/'));
    SplitRooted(segments);
    ProperResolves([], segments);
    assert [] + segments == segments;
    if segments == [] {
      RootIsStable();
      assert "/"[1..] == "";
    }
  }

  lemma RootIsStable()
    ensures Rooted([]) == "/" && Rooted(Resolve([], Split("", '/'))) == "/"
  {
    assert [""][1..] == [];
    assert Resolve([], [""]) == Resolve([], []);
  }

  // ---------------------------------------------------------------- Printer and parser

  datatype Binding =
    | Portable(cwd: string)
    | Profile(cwd: string, configRoot: string, program: string)

  datatype Managed = Managed(cwd: string, profile: string, executable: string)

  function Args(b: Binding): seq<string> {
    if b.Portable? then ["mcp"] else ["--config-root", b.configRoot, "mcp"]
  }

  function Command(b: Binding): string {
    if b.Portable? then "overgent" else b.program
  }

  const TABLE := "[mcp_servers.overgent]"

  function Lines(printable: Table, b: Binding): seq<string> {
    ["# BEGIN OVERGENT MANAGED MCP", TABLE,
     "command = " + Quote(printable, Command(b)),
     "args = [" + QuotedList(printable, Args(b)) + "]",
     "cwd = " + Quote(printable, b.cwd),
     "required = false", "startup_timeout_sec = 10", "tool_timeout_sec = 60",
     "# END OVERGENT MANAGED MCP"]
  }

  function Print(printable: Table, b: Binding): string {
    Unlines(Lines(printable, b))
  }

  function UnquoteField(line: string, prefix: string): Option<string> {
    if prefix <= line then Unquote(line[|prefix|..]) else None
  }

  function ArgsField(line: string): Option<seq<string>> {
    if "args = [" <= line && line[|line| - 1] == ']' then JsonStrings(line[7..]) else None
  }

  predicate Layout(lines: seq<string>) {
    && |lines| == 10 && lines[0] == "# BEGIN OVERGENT MANAGED MCP" && lines[1] == TABLE
    && lines[5] == "required = false" && lines[6] == "startup_timeout_sec = 10" && lines[7] == "tool_timeout_sec = 60"
    && lines[8] == "# END OVERGENT MANAGED MCP" && lines[9] == ""
  }

  function Assemble(command: Option<string>, args: Option<seq<string>>, cwd: Option<string>): Option<Managed> {
    if command.None? || (command.value != "overgent" && !IsAbs(command.value)) then None
    else if args.None? then None
    else if cwd.None? || !IsAbs(cwd.value) then None
    else if args.value == ["mcp"] && command.value == "overgent" then Some(Managed(cwd.value, "", command.value))
    else if |args.value| != 3 || args.value[0] != "--config-root" || !IsAbs(args.value[1]) || args.value[2] != "mcp"
            || !IsAbs(command.value) then None
    else Some(Managed(cwd.value, CleanPath(args.value[1]), command.value))
  }

  function Parse(block: string): Option<Managed> {
    var lines := Split(block, '\n');
    if !Layout(lines) then None
    else Assemble(UnquoteField(lines[2], "command = "), ArgsField(lines[3]), UnquoteField(lines[4], "cwd = "))
  }

  lemma FieldOf(printable: Table, prefix: string, s: string)
    requires NewlineFree(prefix) && prefix != ""
    ensures UnquoteField(prefix + Quote(printable, s), prefix) == Some(s)
    ensures Plain(prefix + Quote(printable, s))
  {
    hide Unquote, Escaped;
    QuoteRoundTrip(printable, s);
    assert (prefix + Quote(printable, s))[|prefix|..] == Quote(printable, s);
  }

  lemma ArgsOf(printable: Table, b: Binding)
    ensures var line := "args = [" + QuotedList(printable, Args(b)) + "]";
            ArgsField(line) == (if AllSafe(printable, Args(b)) then Some(Args(b)) else None) && Plain(line)
  {
    hide JsonStrings, QuotedList, AllSafe;
    var line := "args = [" + QuotedList(printable, Args(b)) + "]";
    JsonReadsArray(printable, Args(b));
    assert line[7..] == "[" + QuotedList(printable, Args(b)) + "]";
  }

  lemma ArgsSafe(printable: Table, b: Binding)
    ensures AllSafe(printable, Args(b)) <==> b.Profile? ==> JsonSafe(printable, b.configRoot)
  {
    assert JsonSafe(printable, "mcp") && JsonSafe(printable, "--config-root");
    hide JsonSafe;
    if b.Profile? {
      assert Args(b)[1] == b.configRoot;
    }
  }

  lemma LinesArePlain(printable: Table, b: Binding)
    ensures forall k :: 1 <= k < 8 ==> Plain(Lines(printable, b)[k])
    ensures NewlineFree(Lines(printable, b)[0]) && NewlineFree(Lines(printable, b)[8])
  {
    ConstantsArePlain();
    hide Quote, QuotedList, Plain, NewlineFree;
    var command := "command = " + Quote(printable, Command(b));
    var args := "args = [" + QuotedList(printable, Args(b)) + "]";
    var cwd := "cwd = " + Quote(printable, b.cwd);
    assert Plain(command) by { FieldPlain(printable, "command = ", Command(b)); }
    assert Plain(cwd) by { FieldPlain(printable, "cwd = ", b.cwd); }
    assert Plain(args) by { ArgsOf(printable, b); }
  }

  lemma FieldPlain(printable: Table, prefix: string, s: string)
    requires prefix == "command = " || prefix == "cwd = "
    ensures Plain(prefix + Quote(printable, s))
  {
    hide Quote;
    FieldOf(printable, prefix, s);
  }

  lemma ConstantsArePlain()
    ensures Plain(TABLE) && Plain("required = false") && Plain("startup_timeout_sec = 10")
        && Plain("tool_timeout_sec = 60")
    ensures NewlineFree("# BEGIN OVERGENT MANAGED MCP") && NewlineFree("# END OVERGENT MANAGED MCP")
  {
  }

  lemma PrintedLines(printable: Table, b: Binding)
    ensures Split(Print(printable, b), '\n') == Lines(printable, b) + [""]
  {
    hide Lines, Unlines;
    LinesArePlain(printable, b);
    LinesCount(printable, b);
    SplitUnlines(Lines(printable, b));
  }

  lemma LinesCount(printable: Table, b: Binding)
    ensures |Lines(printable, b)| == 9
  {
  }

  predicate Absolute(b: Binding) {
    IsAbs(b.cwd) && (b.Profile? ==> IsAbs(b.configRoot) && IsAbs(b.program))
  }

  function Meaning(b: Binding): Managed
    requires Absolute(b)
  {
    if b.Portable? then Managed(b.cwd, "", "overgent") else Managed(b.cwd, CleanPath(b.configRoot), b.program)
  }

  /** A printed block parses exactly when its profile path is safe for JSON, and then gives back
      the directory, the profile and the executable it was printed from.
   */
  lemma ParsePrinted(printable: Table, b: Binding)
    requires Absolute(b)
    ensures Parse(Print(printable, b))
        == if b.Profile? && !JsonSafe(printable, b.configRoot) then None else Some(Meaning(b))
  {
    hide Quote, QuotedList, UnquoteField, ArgsField, JsonSafe, AllSafe, Print, CleanPath, Split, Layout, Plain;
    PrintedFields(printable, b);
    FieldOf(printable, "command = ", Command(b));
    FieldOf(printable, "cwd = ", b.cwd);
    ArgsOf(printable, b);
    ArgsSafe(printable, b);
  }

  /** Two profile paths that do not come back: one with a control character, and one with a tag
      character where the table calls it unprintable.
   */
  lemma UnreadableProfiles(printable: Table)
    requires !printable('\U{E0067}')
    ensures Parse(Print(printable, Profile("/p", "/\U{7}", "/o"))) == None
    ensures Parse(Print(printable, Profile("/p", "/\U{E0067}", "/o"))) == None
  {
    hide Parse, Print, CleanPath;
    var bell, tag := "/\U{7}", "/\U{E0067}";
    assert !JsonSafeChar(printable, bell[1]) && !JsonSafeChar(printable, tag[1]);
    ParsePrinted(printable, Profile("/p", bell, "/o"));
    ParsePrinted(printable, Profile("/p", tag, "/o"));
  }

  lemma PrintedFields(printable: Table, b: Binding)
    ensures var lines := Split(Print(printable, b), '\n');
            && Layout(lines)
            && lines[2] == "command = " + Quote(printable, Command(b))
            && lines[3] == "args = [" + QuotedList(printable, Args(b)) + "]"
            && lines[4] == "cwd = " + Quote(printable, b.cwd)
  {
    hide Quote, QuotedList, Print, Split;
    PrintedLines(printable, b);
  }

  lemma FramedLines(lines: seq<string>)
    requires |lines| == 9 && lines[0] + "\n" == BEGIN && lines[8] + "\n" == END
    requires forall k :: 1 <= k < 8 ==> Plain(lines[k])
    ensures Framed(Unlines(lines), Unlines(lines[1..8]))
  {
    hide Clean, Plain, Unlines, BEGIN, END;
    UnlinesClean(lines[1..8]);
    UnlinesThree(lines);
  }

  lemma UnlinesThree(lines: seq<string>)
    requires |lines| == 9
    ensures Unlines(lines) == (lines[0] + "\n") + Unlines(lines[1..8]) + (lines[8] + "\n")
  {
    hide Unlines;
    var middle := lines[1..8];
    assert lines == [lines[0]] + (middle + [lines[8]]);
    UnlinesConcat([lines[0]], middle + [lines[8]]);
    UnlinesConcat(middle, [lines[8]]);
    OneLine([lines[0]]);
    OneLine([lines[8]]);
    Associate(lines[0] + "\n", Unlines(middle), lines[8] + "\n");
  }

  lemma OneLine(lines: seq<string>)
    requires |lines| == 1
    ensures Unlines(lines) == lines[0] + "\n"
  {
    assert lines[1..] == [];
    assert Unlines([]) == "";
  }

  lemma {:induction false} UnlinesConcat(a: seq<string>, b: seq<string>)
    ensures Unlines(a + b) == Unlines(a) + Unlines(b)
  {
    if a == [] {
      assert a + b == b;
    } else {
      assert (a + b)[1..] == a[1..] + b;
      UnlinesConcat(a[1..], b);
    }
  }

  function Inner(block: string): string {
    var lines := Split(block, '\n');
    if |lines| == 10 then Unlines(lines[1..8]) else ""
  }

  lemma PrintedIsFramed(printable: Table, b: Binding)
    ensures Framed(Print(printable, b), Inner(Print(printable, b)))
  {
    hide Quote, QuotedList, Unlines, Framed;
    PrintedLines(printable, b);
    LinesArePlain(printable, b);
    assert Lines(printable, b)[1..8] == (Lines(printable, b) + [""])[1..8];
    FramedLines(Lines(printable, b));
  }

  lemma UnquoteEnds(line: string, prefix: string)
    requires UnquoteField(line, prefix).Some?
    ensures line != "" && line[|line| - 1] == '"'
  {
    hide Unescape;
  }

  /** Whatever the parser accepts has the shape of a block, hand-written or not. */
  lemma ParsedIsFramed(block: string)
    requires Parse(block).Some?
    ensures Framed(block, Inner(block))
  {
    hide UnquoteField, JsonStrings, Unlines, Framed, Split, CleanPath;
    var lines := Split(block, '\n');
    SplitParts(block, '\n');
    UnlinesSplit(block);
    UnquoteEnds(lines[2], "command = ");
    UnquoteEnds(lines[4], "cwd = ");
    forall k | 1 <= k < 8 ensures Plain(lines[..9][k]) {
      assert NewlineFree(lines[k]);
    }
    FramedLines(lines[..9]);
    assert lines[..9][1..8] == lines[1..8];
  }
}
