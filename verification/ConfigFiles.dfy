/** What setup, rebinding and removal make of the two files, told from the text around the block. */
module ConfigFiles {
  import opened MarkedText
  import opened Quoting
  import opened ManagedBlock
  import opened ConfigSplice
  import opened Collections
  import opened Text
  import Utf8

  // ---------------------------------------------------------------- What a file holds

  /** This text is the expected block between texts without markers. */
  ghost predicate HoldsBlock(text: string, expected: string) {
    exists pre, post :: Clean(pre) && Clean(post) && text == pre + expected + post
  }

  /** Another block for the same directory: both can be read as blocks. */
  predicate Sibling(block: string, expected: string) {
    && block != expected && Parse(block).Some? && Parse(expected).Some?
    && Parse(block).value.cwd == Parse(expected).value.cwd
  }

  ghost predicate HoldsSibling(text: string, expected: string) {
    exists pre, block, post ::
      Sibling(block, expected) && Clean(pre) && Clean(post) && text == pre + block + post
  }

  /** A file is unmanaged exactly when it holds no marker, current exactly when it holds the block
      between texts without markers, another profile's exactly when it holds a block for the same
      directory so, and otherwise refused.
   */
  lemma InspectExactly(text: string, expected: string)
    requires Framed(expected, Inner(expected))
    ensures Inspect(text, expected).NotConfigured? <==> Clean(text)
    ensures Inspect(text, expected).Current? <==> HoldsBlock(text, expected)
    ensures Inspect(text, expected).OtherProfile? <==> HoldsSibling(text, expected)
  {
    hide Count, Index, Clean, Inner, Framed, Parse, Inspect;
    UnmanagedExactly(text, expected);
    if Inspect(text, expected).Current? || Inspect(text, expected).OtherProfile? {
      Recognised(text, expected);
      assert text == Before(text) + BlockOf(text) + Behind(text);
    }
    if HoldsBlock(text, expected) {
      var pre, post :| Clean(pre) && Clean(post) && text == pre + expected + post;
      Found(pre, expected, post);
    }
    if HoldsSibling(text, expected) {
      var pre, block, post :| Sibling(block, expected) && Clean(pre) && Clean(post) && text == pre + block + post;
      ParsedIsFramed(block);
      Found(pre, block, post);
    }
  }

  lemma UnmanagedExactly(text: string, expected: string)
    ensures Inspect(text, expected).NotConfigured? <==> Clean(text)
  {
    hide Index, Count, Parse;
    CleanCounts(text);
  }

  // ---------------------------------------------------------------- The operations

  predicate Small(text: string) {
    Utf8.ByteLen(text) <= 1_048_576
  }

  /** A missing file reads as empty, and one over a mebibyte not at all. */
  lemma ReadTold(file: Option<string>)
    ensures file.None? ==> ReadOptional(file) == Some("")
    ensures file.Some? ==> ReadOptional(file) == if Small(file.value) then file else None
  {
    hide Utf8.ByteLen;
  }

  /** One of two newlines in front of the block goes with it. */
  function Closed(pre: string): string {
    if |pre| >= 2 && pre[|pre| - 1] == '\n' && pre[|pre| - 2] == '\n' then pre[..|pre| - 1] else pre
  }

  /** Removal cuts the block and that newline, and touches neither the rest nor the hooks. */
  lemma RemovalTold(pre: string, expected: string, post: string, hooks: Option<string>, disk: Disk)
    requires Framed(expected, Inner(expected)) && Clean(pre) && Clean(post)
    ensures var files := Files(Some(pre + expected + post), hooks);
            Removed(files, expected, disk)
            == if Small(pre + expected + post) && disk.writes
               then Outcome(disk.resolves, Files(Some(Closed(pre) + post), hooks))
               else Outcome(false, files)
  {
    hide Clean, Framed, Inner, Inspect, RemoveText, Utf8.ByteLen;
    Found(pre, expected, post);
    RemoveCuts(pre, expected, post);
    ClosedIs(pre);
  }

  lemma ClosedIs(pre: string)
    ensures Closed(pre) == Trimmed(pre)
  {
    if |pre| >= 2 {
      assert pre[|pre| - 2..] == [pre[|pre| - 2], pre[|pre| - 1]];
    }
  }

  /** A file that does not hold the block is never written: removal succeeds when there was nothing to
      remove or the block is another profile's, and fails when the file cannot be read or made out.
   */
  lemma RemovalElsewhere(files: Files, expected: string, disk: Disk)
    requires Framed(expected, Inner(expected))
    requires files.config.Some? && Small(files.config.value) ==> !HoldsBlock(files.config.value, expected)
    ensures var done := Removed(files, expected, disk);
            && done.files == files
            && (files.config.None? ==> done.ok == disk.resolves)
            && (files.config.Some? ==>
                  var text := files.config.value;
                  done.ok == (disk.resolves && Small(text) && (Clean(text) || HoldsSibling(text, expected))))
  {
    hide Clean, Framed, Inner, Inspect, Utf8.ByteLen, HoldsBlock, HoldsSibling, Verdict;
    ReadTold(files.config);
    EmptyUnmanaged(expected);
    if files.config.Some? {
      InspectExactly(files.config.value, expected);
    }
  }

  lemma EmptyUnmanaged(expected: string)
    ensures Inspect("", expected) == NotConfigured
  {
    EmptyCount(BEGIN);
    EmptyCount(END);
  }

  /** The text, a blank line if it is not empty, then the block; the last line is ended first. */
  function WithBlock(text: string, expected: string): string {
    if text == "" then expected
    else if text[|text| - 1] == '\n' then text + "\n" + expected
    else text + "\n" + "\n" + expected
  }

  lemma WithBlockIs(text: string, expected: string)
    ensures WithBlock(text, expected) == Appended(text, expected)
  {
    if text != "" && text[|text| - 1] != '\n' {
      assert "\n\n" == "\n" + "\n";
    }
  }

  /** What a run has written, then whether it can name the hooks, then what their file became. */
  function HooksNext(config: Option<string>, hooks: Option<string>, disk: Disk, hookCall: HookCall): Outcome {
    if disk.resolves then Outcome(hookCall.ok, Files(config, hookCall.left)) else Outcome(false, Files(config, hooks))
  }

  /** Setup on a file without markers, missing or readable: a table of the same name refuses it, and
      otherwise the block is appended and the hooks are installed.
   */
  lemma SetupAppends(config: Option<string>, expected: string, hooks: Option<string>, disk: Disk, hookCall: HookCall)
    requires config.Some? ==> Small(config.value) && Clean(config.value)
    ensures var text := if config.None? then "" else config.value;
            SetUp(Files(config, hooks), expected, disk, hookCall)
            == if Index(text, "[mcp_servers.overgent]") < 0 && disk.writes
               then HooksNext(Some(WithBlock(text, expected)), hooks, disk, hookCall)
               else Outcome(false, Files(config, hooks))
  {
    hide Clean, Framed, Inner, Inspect, Utf8.ByteLen, Verdict, Index;
    ReadTold(config);
    var text := if config.None? then "" else config.value;
    EmptyIsClean();
    UnmanagedExactly(text, expected);
    WithBlockIs(text, expected);
  }

  /** Setup where the block is in place writes no block; anything else it refuses as it found it. */
  lemma SetupElsewhere(config: string, expected: string, hooks: Option<string>, disk: Disk, hookCall: HookCall)
    requires Framed(expected, Inner(expected)) && !(Small(config) && Clean(config))
    ensures var files := Files(Some(config), hooks);
            SetUp(files, expected, disk, hookCall)
            == if Small(config) && HoldsBlock(config, expected) then HooksNext(Some(config), hooks, disk, hookCall)
               else Outcome(false, files)
  {
    hide Clean, Framed, Inner, Inspect, Utf8.ByteLen, Verdict, Index, HoldsBlock;
    ReadTold(Some(config));
    InspectExactly(config, expected);
  }

  /** Setup and then removal: a file that ended its last line comes back, and the hooks stay. */
  lemma SetupThenRemoval(config: Option<string>, expected: string, hooks: Option<string>, disk: Disk,
                         hookCall: HookCall, disk': Disk)
    requires Framed(expected, Inner(expected)) && disk.writes && disk.resolves && hookCall.ok
    requires var text := if config.None? then "" else config.value;
             && Clean(text) && Small(text) && Index(text, "[mcp_servers.overgent]") < 0
             && (text == "" || text[|text| - 1] == '\n')
    ensures var text := if config.None? then "" else config.value;
            var installed := SetUp(Files(config, hooks), expected, disk, hookCall);
            && installed.ok
            && Removed(installed.files, expected, disk')
               == if Small(WithBlock(text, expected)) && disk'.writes
                  then Outcome(disk'.resolves, Files(Some(text), hookCall.left))
                  else Outcome(false, installed.files)
  {
    hide Clean, Framed, Inner, Inspect, Utf8.ByteLen, Index, SetUp, Removed;
    var text := if config.None? then "" else config.value;
    SetupAppends(config, expected, hooks, disk, hookCall);
    EmptyIsClean();
    var pre := if text == "" then "" else text + "\n";
    assert WithBlock(text, expected) == pre + expected + "";
    assert Clean(pre) by {
      if text != "" {
        CleanNewline(text);
      }
    }
    RemovalTold(pre, expected, "", hookCall.left, disk');
    assert Closed(pre) + "" == text by {
      if text != "" {
        assert pre[..|pre| - 1] == text;
      }
    }
  }

  // ---------------------------------------------------------------- Rebinding

  /** After the block is in place, or left alone: whether the hooks follow, and both files put back if
      their rewrite fails.
   */
  function HooksFollow(files: Files, config: Option<string>, adoptOnly: bool, disk: Disk, hooksBound: Option<bool>,
                       hookCall: HookCall): Outcome
  {
    if adoptOnly && hooksBound.None? then Outcome(false, Files(config, files.hooks))
    else if adoptOnly && hooksBound == Some(false) then Outcome(true, Files(config, files.hooks))
    else if hookCall.ok then Outcome(true, Files(config, hookCall.left))
    else Outcome(false, Files(if disk.configBack.Restored? then files.config else disk.configBack.left,
                              if disk.hooksBack.Restored? then files.hooks else disk.hooksBack.left))
  }

  /** Rebinding another profile's block for the same directory puts the expected one in its place. */
  lemma RebindingTold(pre: string, block: string, post: string, expected: string, adoptOnly: bool,
                      hooks: Option<string>, disk: Disk, hooksBound: Option<bool>, hookCall: HookCall)
    requires Sibling(block, expected) && Clean(pre) && Clean(post)
    ensures var files := Files(Some(pre + block + post), hooks);
            Rebound(files, expected, adoptOnly, disk, hooksBound, hookCall)
            == if Small(pre + block + post) && disk.resolves && disk.captures && disk.writes
               then HooksFollow(files, Some(pre + expected + post), adoptOnly, disk, hooksBound, hookCall)
               else Outcome(false, files)
  {
    hide Clean, Framed, Inner, Inspect, Utf8.ByteLen, Parse, Before, Behind;
    ParsedIsFramed(block);
    Found(pre, block, post);
    if pre + expected + post == pre + block + post {
      SameEnds(pre, expected, block, post);
    }
  }

  /** Rebinding elsewhere: a current block, or an adopt-only run on an unmanaged file, writes no config;
      a full run appends the block to an unmanaged one; and the rest is refused.
   */
  lemma RebindingElsewhere(config: Option<string>, expected: string, adoptOnly: bool, hooks: Option<string>,
                           disk: Disk, hooksBound: Option<bool>, hookCall: HookCall)
    requires Framed(expected, Inner(expected)) && expected != ""
    requires config.Some? ==> !HoldsSibling(config.value, expected)
    ensures var files := Files(config, hooks);
            var text := if config.None? then "" else config.value;
            var known := Small(text) && (Clean(text) || HoldsBlock(text, expected));
            var writes := Clean(text) && !adoptOnly;
            Rebound(files, expected, adoptOnly, disk, hooksBound, hookCall)
            == if known && disk.resolves && disk.captures && (writes ==> disk.writes)
               then HooksFollow(files, if writes then Some(WithBlock(text, expected)) else config, adoptOnly, disk,
                                hooksBound, hookCall)
               else Outcome(false, files)
  {
    hide Clean, Framed, Inner, Inspect, Utf8.ByteLen, Verdict, Index, HoldsBlock, HoldsSibling, Before, Behind;
    var text := if config.None? then "" else config.value;
    ReadTold(config);
    EmptySmall();
    EmptyIsClean();
    InspectExactly(text, expected);
    UnmanagedExactly(text, expected);
    WithBlockIs(text, expected);
    if config.None? {
      EmptyUnmanaged(expected);
    }
    assert |Appended(text, expected)| > |text|;
  }

  lemma EmptySmall()
    ensures Small("")
  {
  }

  // ---------------------------------------------------------------- The block itself

  /** The lines of a printed block, spelled out. */
  lemma BlockSpelledOut(printable: Table, b: Binding)
    ensures var program := if b.Portable? then "overgent" else b.program;
            var args := if b.Portable? then Quote(printable, "mcp")
                        else Quote(printable, "--config-root") + ", " + (Quote(printable, b.configRoot) + ", "
                                                                         + Quote(printable, "mcp"));
            Split(Print(printable, b), '\n')
            == ["# BEGIN OVERGENT MANAGED MCP", "[mcp_servers.overgent]", "command = " + Quote(printable, program),
                "args = [" + args + "]", "cwd = " + Quote(printable, b.cwd), "required = false",
                "startup_timeout_sec = 10", "tool_timeout_sec = 60", "# END OVERGENT MANAGED MCP", ""]
  {
    hide Quote, QuotedList, Split, Print;
    PrintedLines(printable, b);
    if b.Profile? {
      ListOfThree(printable, "--config-root", b.configRoot, "mcp");
    } else {
      ListOfOne(printable, "mcp");
    }
  }

  lemma ListOfOne(printable: Table, x: string)
    ensures QuotedList(printable, [x]) == Quote(printable, x)
  {
  }

  predicate IsRooted(path: string) {
    path != "" && path[0] == '/'
  }

  /** The nine lines of a block, three of which hold these fields. */
  predicate HoldsFields(block: string, command: string, args: seq<string>, cwd: string) {
    var lines := Split(block, '\n');
    && |lines| == 10 && lines[0] == "# BEGIN OVERGENT MANAGED MCP" && lines[1] == "[mcp_servers.overgent]"
    && UnquoteField(lines[2], "command = ") == Some(command)
    && ArgsField(lines[3]) == Some(args)
    && UnquoteField(lines[4], "cwd = ") == Some(cwd)
    && lines[5] == "required = false" && lines[6] == "startup_timeout_sec = 10"
    && lines[7] == "tool_timeout_sec = 60" && lines[8] == "# END OVERGENT MANAGED MCP" && lines[9] == ""
  }

  /** A text reads as a block exactly when its lines are those of one, its directory is absolute, and it
      calls either the portable command or an absolute one with an absolute profile.
   */
  lemma ParseExactly(block: string, command: string, args: seq<string>, cwd: string)
    ensures HoldsFields(block, command, args, cwd) ==>
      var portable := command == "overgent" && args == ["mcp"];
      var bound := IsRooted(command) && |args| == 3 && args[0] == "--config-root" && IsRooted(args[1])
                   && args[2] == "mcp";
      Parse(block) == if !IsRooted(cwd) then None
                      else if portable then Some(Managed(cwd, "", "overgent"))
                      else if bound then Some(Managed(cwd, CleanPath(args[1]), command))
                      else None
    ensures Parse(block).Some? ==> exists c, a, d :: HoldsFields(block, c, a, d)
  {
    hide Split, UnquoteField, ArgsField, CleanPath;
    var lines := Split(block, '\n');
    if Parse(block).Some? {
      var c, a := UnquoteField(lines[2], "command = ").value, ArgsField(lines[3]).value;
      assert HoldsFields(block, c, a, UnquoteField(lines[4], "cwd = ").value);
    }
  }

  /** Printable text stands between its quotes as it is, except that quotes and backslashes are escaped. */
  lemma {:induction false} PlainQuoted(printable: Table, s: string)
    requires forall c :: c in s ==> printable(c) && ' ' <= c && c as int != 127 && c != '"' && c != '\\'
    ensures Quote(printable, s) == "\"" + s + "\""
  {
    if s != "" {
      assert s[0] in s && s == [s[0]] + s[1..];
      PlainQuoted(printable, s[1..]);
      assert Escaped(printable, s[1..]) == s[1..] by {
        var q := Quote(printable, s[1..]);
        assert q[1..|q| - 1] == Escaped(printable, s[1..]) && ("\"" + s[1..] + "\"")[1..|q| - 1] == s[1..];
      }
    }
  }

  /** What the other characters become: one of these letters, or a number of two, four or eight digits. */
  lemma EscapesSpelledOut(printable: Table, c: char)
    ensures EscapeChar(printable, '"') == "\\\"" && EscapeChar(printable, '\\') == "\\\\"
    ensures 7 <= c as int <= 13 ==> EscapeChar(printable, c) == "\\" + ["abtnvfr"[c as int - 7]]
    ensures c as int < 7 || 13 < c as int < 32 || c as int == 127 ==>
              EscapeChar(printable, c) == "\\x" + HexDigits(c as int, 2)
    ensures 128 <= c as int < 0x1_0000 && !printable(c) ==> EscapeChar(printable, c) == "\\u" + HexDigits(c as int, 4)
    ensures 0x1_0000 <= c as int && !printable(c) ==> EscapeChar(printable, c) == "\\U" + HexDigits(c as int, 8)
  {
  }

  /** The digits of a number, from the last. */
  lemma HexSpelledOut(n: nat, digit: nat, count: nat)
    requires digit < 16
    ensures HexDigits(16 * n + digit, count + 1) == HexDigits(n, count) + ["0123456789abcdef"[digit]]
  {
    assert (16 * n + digit) / 16 == n && (16 * n + digit) % 16 == digit;
    DigitIs(digit);
  }

  lemma DigitIs(digit: nat)
    requires digit < 16
    ensures HexDigit(digit) == "0123456789abcdef"[digit]
  {
  }

  /** Cleaning a path drops empty segments and dots, and a double dot takes the segment before it. */
  lemma CleanPathSpelledOut(done: seq<string>, segments: seq<string>)
    ensures Resolve(done, []) == done
    ensures Resolve(done, [""] + segments) == Resolve(done, segments)
    ensures Resolve(done, ["."] + segments) == Resolve(done, segments)
    ensures Resolve(done, [".."] + segments) == Resolve(if done == [] then [] else done[..|done| - 1], segments)
    ensures forall name :: name != "" && name != "." && name != ".." ==>
              Resolve(done, [name] + segments) == Resolve(done + [name], segments)
  {
    assert forall name: string :: ([name] + segments)[1..] == segments;
  }
}
