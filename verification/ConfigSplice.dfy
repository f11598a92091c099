/** Inspecting, installing, replacing and removing the managed block of a config file. */
module ConfigSplice {
  import opened MarkedText
  import opened Quoting
  import opened ManagedBlock
  import opened Collections
  import Utf8

  datatype Status = Refused | NotConfigured | Current | OtherProfile(profile: string, executable: string)

  /** What a block means to a profile that would have printed `expected`. */
  function Verdict(block: string, expected: string): Status {
    if block == expected then Current
    else
      var found, wanted := Parse(block), Parse(expected);
      if found.None? || wanted.None? || found.value.cwd != wanted.value.cwd then Refused
      else OtherProfile(found.value.profile, found.value.executable)
  }

  function Inspect(current: string, expected: string): Status {
    var starts, ends := Count(current, BEGIN), Count(current, END);
    if starts == 0 && ends == 0 then NotConfigured
    else if starts != 1 || ends != 1 then Refused
    else
      var start, end := Index(current, BEGIN), Index(current, END) + |END|;
      if start < 0 || end < start then Refused else Verdict(current[start..end], expected)
  }

  function Separator(text: string): string {
    if text == "" then "" else if Ended(text) then "\n" else "\n\n"
  }

  function Appended(text: string, expected: string): string {
    text + Separator(text) + expected
  }

  function SetupText(current: string, expected: string): Option<string> {
    match Inspect(current, expected)
    case Refused => None
    case OtherProfile(_, _) => None
    case Current => Some(current)
    case NotConfigured => if Index(current, TABLE) >= 0 then None else Some(Appended(current, expected))
  }

  function RebindText(current: string, expected: string, adoptOnly: bool): Option<string> {
    match Inspect(current, expected)
    case Refused => None
    case OtherProfile(_, _) => Some(Before(current) + expected + Behind(current))
    case Current => Some(current)
    case NotConfigured => Some(if adoptOnly then current else Appended(current, expected))
  }

  /** Cuts the block out, with one of the two newlines that may precede it. */
  function CutAt(current: string, start: nat, length: nat): string
    requires start + length <= |current|
  {
    if start >= 2 && current[start - 2..start] == "\n\n"
    then current[..start - 1] + current[start + length..]
    else current[..start] + current[start + length..]
  }

  function RemoveText(current: string, expected: string): Option<string> {
    match Inspect(current, expected)
    case Refused => None
    case Current => CurrentOccurs(current, expected); Some(CutAt(current, Index(current, expected), |expected|))
    case _ => Some(current)
  }

  lemma CurrentOccurs(current: string, expected: string)
    requires Inspect(current, expected).Current?
    ensures Index(current, expected) >= 0
  {
    hide Count, Index, Parse;
    IndexIs(current, expected);
    assert OccursAt(current, expected, Index(current, BEGIN));
  }

  // ---------------------------------------------------------------- Where the block stands

  function Before(text: string): string {
    if Index(text, BEGIN) < 0 then text else text[..Index(text, BEGIN)]
  }

  function Behind(text: string): string {
    if Index(text, END) < 0 then "" else text[Index(text, END) + |END|..]
  }

  function BlockOf(text: string): string {
    var start, end := Index(text, BEGIN), Index(text, END) + |END|;
    if start < 0 || end < start || end > |text| then "" else text[start..end]
  }

  /** Text around a framed block: the block is found, its surroundings are what they were. */
  lemma Found(pre: string, block: string, post: string)
    requires Framed(block, Inner(block)) && Clean(pre) && Clean(post)
    ensures var text := pre + block + post;
            && Before(text) == pre && BlockOf(text) == block && Behind(text) == post
            && (forall expected :: Inspect(text, expected) == Verdict(block, expected))
  {
    hide Count, Index, Clean, Inner, Parse;
    var text := pre + block + post;
    BlockLocated(pre, block, Inner(block), post);
    assert text[|pre|..|pre| + |block|] == block;
    assert text[..|pre|] == pre && text[|pre| + |block|..] == post;
  }

  /** A recognised block stands framed between texts without markers. */
  lemma Recognised(current: string, expected: string)
    requires Inspect(current, expected).Current? || Inspect(current, expected).OtherProfile?
    requires Framed(expected, Inner(expected))
    ensures var pre, block, post := Before(current), BlockOf(current), Behind(current);
            && current == pre + block + post && Framed(block, Inner(block)) && Clean(pre) && Clean(post)
            && Inspect(current, expected) == Verdict(block, expected)
  {
    hide Count, Index, Clean, Inner, Parse, Framed;
    var pre, block, post := Before(current), BlockOf(current), Behind(current);
    CountedIsFound(current, END);
    assert current == pre + block + post;
    if block != expected {
      ParsedIsFramed(block);
    }
    OutsideIsClean(pre, block, Inner(block), post);
  }

  lemma CountedIsFound(text: string, m: string)
    requires Count(text, m) > 0
    ensures Index(text, m) >= 0
  {
    hide Index;
  }

  // ---------------------------------------------------------------- Removing

  function Trimmed(pre: string): string {
    if |pre| >= 2 && pre[|pre| - 2..] == "\n\n" then pre[..|pre| - 1] else pre
  }

  /** Removal takes out the block, at most one newline before it, and nothing else. */
  lemma RemoveCuts(pre: string, expected: string, post: string)
    requires Framed(expected, Inner(expected)) && Clean(pre) && Clean(post)
    ensures RemoveText(pre + expected + post, expected) == Some(Trimmed(pre) + post)
  {
    hide Count, Index, Clean, Inner, Parse;
    var text := pre + expected + post;
    Found(pre, expected, post);
    BlockLocated(pre, expected, Inner(expected), post);
    assert Index(text, expected) == |pre| by {
      OccursAtSeam(pre, expected, post);
      BeginsFirst(text, expected);
      IndexAt(text, expected, |pre|);
    }
    CutMiddle(pre, expected, post);
  }

  lemma OccursAtSeam(pre: string, block: string, post: string)
    ensures OccursAt(pre + block + post, block, |pre|)
  {
    assert (pre + block + post)[|pre|..|pre| + |block|] == block;
  }

  lemma CutMiddle(pre: string, block: string, post: string)
    ensures CutAt(pre + block + post, |pre|, |block|) == Trimmed(pre) + post
  {
    var text := pre + block + post;
    assert text[|pre| + |block|..] == post && text[..|pre|] == pre;
    if |pre| >= 2 {
      assert text[|pre| - 2..|pre|] == pre[|pre| - 2..] && text[..|pre| - 1] == pre[..|pre| - 1];
    }
  }

  lemma BeginsFirst(text: string, block: string)
    requires BEGIN <= block
    ensures forall i :: OccursAt(text, block, i) ==> i >= Index(text, BEGIN)
  {
    hide Index;
    IndexIs(text, BEGIN);
    forall i | OccursAt(text, block, i) ensures OccursAt(text, BEGIN, i) {
      assert text[i..i + |block|][..|BEGIN|] == text[i..i + |BEGIN|];
    }
  }

  // ---------------------------------------------------------------- Reading files

  const READ_LIMIT := 0x10_0000

  function ReadOptional(file: Option<string>): Option<string> {
    if file.None? then Some("")
    else if Utf8.ByteLen(file.value) > READ_LIMIT then None
    else file
  }

  /** What a rebind, or a removal, makes of a file; none if it refuses or cannot read it. */
  function RebindFile(file: Option<string>, expected: string, adoptOnly: bool): Option<string> {
    if ReadOptional(file).None? then None else RebindText(ReadOptional(file).value, expected, adoptOnly)
  }

  function RemoveFile(file: Option<string>, expected: string): Option<string> {
    if ReadOptional(file).None? then None else RemoveText(ReadOptional(file).value, expected)
  }

  // ---------------------------------------------------------------- Setup, then remove

  lemma CleanNewline(text: string)
    requires Ended(text) && Clean(text)
    ensures Clean(text + "\n") && Ended(text + "\n")
  {
    hide Clean;
    LineClean("");
    assert "" + "\n" == "\n";
    CleanSeam(text, "\n");
  }

  lemma EndedCleanSeparator(text: string)
    requires Ended(text) && Clean(text)
    ensures Clean(text + Separator(text)) && Trimmed(text + Separator(text)) == text
  {
    hide Clean;
    if text == "" {
      assert text + Separator(text) == text;
    } else {
      CleanNewline(text);
      var s := text + "\n";
      assert s[|s| - 2..] == "\n\n" && s[..|s| - 1] == text;
    }
  }

  /** Setup, edits after the block, removal: what the file held and the edits remain. */
  lemma SetupEditRemove(printable: Table, c: string, b: Binding, post: string)
    requires Clean(c) && Ended(c) && Clean(post)
    ensures var text := Appended(c, Print(printable, b)) + post;
            && Inspect(text, Print(printable, b)) == Current && SetupText(text, Print(printable, b)) == Some(text)
            && RemoveText(text, Print(printable, b)) == Some(c + post)
            && (RemoveFile(Some(text), Print(printable, b)) == Some(c + post) <==> Utf8.ByteLen(text) <= READ_LIMIT)
  {
    hide Count, Index, Clean, Inner, Print, Inspect, Framed, RemoveText;
    var e := Print(printable, b);
    var pre := c + Separator(c);
    PrintedIsFramed(printable, b);
    EndedCleanSeparator(c);
    assert Appended(c, e) + post == pre + e + post;
    Found(pre, e, post);
    RemoveCuts(pre, e, post);
  }

  /** A last line left without its newline costs the round trip: the newline stays, or, if that
      line completes to a marker, the file is refused.
   */
  lemma UnendedNotRestored(printable: Table, c: string, b: Binding)
    requires Clean(c) && !Ended(c)
    ensures RemoveText(Appended(c, Print(printable, b)), Print(printable, b))
        == if Clean(c + "\n") then Some(c + "\n") else None
  {
    hide Count, Index, Clean, Inner, Print, Inspect, Framed, RemoveText;
    var e := Print(printable, b);
    PrintedIsFramed(printable, b);
    if Clean(c + "\n") {
      CleanNewline(c + "\n");
      var pre := c + "\n" + "\n";
      EmptyIsClean();
      RemoveCuts(pre, e, "");
      assert pre + e + "" == Appended(c, e);
      assert pre[|pre| - 2..] == "\n\n" && pre[..|pre| - 1] == c + "\n";
      assert Trimmed(pre) + "" == c + "\n";
    } else {
      assert Appended(c, e) == (c + "\n") + ("\n" + e);
      RefusedTwice(c + "\n", e);
    }
  }

  lemma EmptyIsClean()
    ensures Clean("")
  {
  }

  lemma RefusedTwice(a: string, e: string)
    requires Ended(a) && !Clean(a) && Framed(e, Inner(e))
    ensures Inspect(a + ("\n" + e), e) == Refused && RemoveText(a + ("\n" + e), e) == None
  {
    hide Count, Index, Clean, Inner, Parse, Framed;
    CleanCounts(a);
    BothMarkers();
    BlockCounts(e, Inner(e));
    EndedLine();
    forall m | Marker(m) ensures Count(a + ("\n" + e), m) >= Count(a, m) + Count(e, m) {
      CountSeam(a, "\n" + e, m);
      CountSeam("\n", e, m);
    }
    assert Count(a, BEGIN) + Count(e, BEGIN) >= 2 || Count(a, END) + Count(e, END) >= 2;
  }

  lemma EndedLine()
    ensures Ended("\n")
  {
  }

  /** Setup followed by remove gives the file back exactly when it was empty or ended its last
      line.
   */
  lemma RestoredExactlyWhen(printable: Table, c: string, b: Binding)
    requires Clean(c) && Index(c, TABLE) < 0
    ensures SetupText(c, Print(printable, b)) == Some(Appended(c, Print(printable, b)))
    ensures RemoveText(Appended(c, Print(printable, b)), Print(printable, b)) == Some(c) <==> Ended(c)
    ensures var after := ReadOptional(Some(Appended(c, Print(printable, b))));
            after.Some? && RemoveText(after.value, Print(printable, b)) == Some(c)
            <==> Ended(c) && Utf8.ByteLen(Appended(c, Print(printable, b))) <= READ_LIMIT
  {
    hide Index, Print, RemoveText, Count, Appended, Utf8.ByteLen;
    CleanCounts(c);
    if Ended(c) {
      EmptyIsClean();
      SetupEditRemove(printable, c, b, "");
      assert Appended(c, Print(printable, b)) + "" == Appended(c, Print(printable, b));
      assert c + "" == c;
    } else {
      UnendedNotRestored(printable, c, b);
      assert |c + "\n"| == |c| + 1;
    }
  }

  // ---------------------------------------------------------------- Rebinding

  /** Rebinding replaces the block and no other byte, leaves it current, and rebinding to the
      former block restores the file.
   */
  lemma RebindRoundTrip(current: string, expected: string, adoptOnly: bool, back: bool)
    requires Inspect(current, expected).OtherProfile?
    ensures var former := BlockOf(current);
            var next := Before(current) + expected + Behind(current);
            && RebindText(current, expected, adoptOnly) == Some(next)
            && Before(next) == Before(current) && Behind(next) == Behind(current)
            && Inspect(next, expected) == Current
            && Inspect(next, former).OtherProfile? && RebindText(next, former, back) == Some(current)
            && (RebindFile(Some(next), former, back) == Some(current) <==> Utf8.ByteLen(next) <= READ_LIMIT)
  {
    hide Count, Index, Clean, Inner, Framed, Parse, BlockOf, Before, Behind;
    OtherParses(current, expected);
    ParsedIsFramed(expected);
    Recognised(current, expected);
    Found(Before(current), expected, Behind(current));
  }

  lemma OtherParses(current: string, expected: string)
    requires Inspect(current, expected).OtherProfile?
    ensures Parse(expected).Some?
  {
    hide Count, Index, Parse;
  }

  predicate Readable(printable: Table, b: Binding) {
    b.Profile? ==> JsonSafe(printable, b.configRoot)
  }

  /** Another profile's printed block is recognised exactly when it serves the same directory and
      both profiles' paths survive JSON; the status then names the other profile, and anything
      else is refused.
   */
  lemma RecognisedExactlyWhen(printable: Table, pre: string, mine: Binding, theirs: Binding, post: string)
    requires Clean(pre) && Clean(post) && Absolute(mine) && Absolute(theirs)
    ensures var status := Inspect(pre + Print(printable, theirs) + post, Print(printable, mine));
            status ==
            if Print(printable, theirs) == Print(printable, mine) then Current
            else if theirs.cwd == mine.cwd && Readable(printable, theirs) && Readable(printable, mine)
            then OtherProfile(Meaning(theirs).profile, Meaning(theirs).executable)
            else Refused
  {
    hide Count, Index, Clean, Inner, Framed, Parse, Print, JsonSafe, CleanPath, Inspect;
    PrintedIsFramed(printable, theirs);
    Found(pre, Print(printable, theirs), post);
    ParsePrinted(printable, mine);
    ParsePrinted(printable, theirs);
  }

  // ---------------------------------------------------------------- The files

  /** What a call into the hook file did: whether it succeeded, and what it left there. */
  datatype HookCall = HookCall(ok: bool, left: Option<string>)

  /** Putting a file back as it was, or failing to and leaving something there. */
  datatype Restore = Restored | Broken(left: Option<string>)

  /** How the surroundings behave: whether the hook file and command can be named, whether both files
      can be captured, whether the block can be written, which happens in one rename or not at all,
      and how putting each file back goes.
   */
  datatype Disk = Disk(resolves: bool, captures: bool, writes: bool, configBack: Restore, hooksBack: Restore)

  function Put(was: Option<string>, back: Restore): Option<string> {
    if back.Restored? then was else back.left
  }

  /** The two files a binding is made of. */
  datatype Files = Files(config: Option<string>, hooks: Option<string>)

  datatype Outcome = Outcome(ok: bool, files: Files)

  /** The text a file holds; a missing file reads as empty. */
  function ReadBack(file: Option<string>): string {
    if file.None? then "" else file.value
  }

  /** A file is rewritten only when its text changes. */
  function Rewritten(file: Option<string>, text: string, next: string): Option<string> {
    if next == text then file else Some(next)
  }

  /** Setup: the block first, then the hooks; what fails later does not undo what came earlier. */
  function SetUp(files: Files, expected: string, disk: Disk, hookCall: HookCall): Outcome {
    var current := ReadOptional(files.config);
    if current.None? || SetupText(current.value, expected).None? then Outcome(false, files)
    else if Inspect(current.value, expected).NotConfigured? && !disk.writes then Outcome(false, files)
    else
      var config := if Inspect(current.value, expected).Current? then files.config
                    else SetupText(current.value, expected);
      if !disk.resolves then Outcome(false, files.(config := config))
      else Outcome(hookCall.ok, Files(config, hookCall.left))
  }

  /** Rebinding: both files, or both put back when the hook rewrite fails. */
  function Rebound(files: Files, expected: string, adoptOnly: bool, disk: Disk, hooksBound: Option<bool>,
                   hookCall: HookCall): Outcome
  {
    var current, next := ReadOptional(files.config), RebindFile(files.config, expected, adoptOnly);
    if current.None? || next.None? || !disk.resolves || !disk.captures then Outcome(false, files)
    else if next.value != current.value && !disk.writes then Outcome(false, files)
    else
      var config := Rewritten(files.config, current.value, next.value);
      if adoptOnly && hooksBound.None? then Outcome(false, files.(config := config))
      else if adoptOnly && !hooksBound.value then Outcome(true, files.(config := config))
      else if hookCall.ok then Outcome(true, Files(config, hookCall.left))
      else Outcome(false, Files(Put(files.config, disk.configBack), Put(files.hooks, disk.hooksBack)))
  }

  /** Removal: the block only; the hooks are shared by every project and stay. */
  function Removed(files: Files, expected: string, disk: Disk): Outcome {
    var current := ReadOptional(files.config);
    if current.None? || RemoveText(current.value, expected).None? then Outcome(false, files)
    else if !Inspect(current.value, expected).Current? then Outcome(disk.resolves, files)
    else if !disk.writes then Outcome(false, files)
    else Outcome(disk.resolves, files.(config := RemoveText(current.value, expected)))
  }

  // ---------------------------------------------------------------- What a failure leaves

  /** The block was found to be another profile's and can be rewritten, but an adopt-only run cannot
      inspect the hooks.
   */
  predicate HalfWay(files: Files, expected: string, adoptOnly: bool, disk: Disk, hooksBound: Option<bool>) {
    && adoptOnly && hooksBound.None? && disk.resolves && disk.captures && disk.writes
    && ReadOptional(files.config).Some?
    && Inspect(ReadOptional(files.config).value, expected).OtherProfile?
  }

  lemma OtherProfileDiffers(current: string, expected: string, adoptOnly: bool)
    requires Inspect(current, expected).OtherProfile?
    ensures RebindText(current, expected, adoptOnly).Some? && RebindText(current, expected, adoptOnly).value != current
  {
    hide Count, Index, Clean, Inner, Framed, Parse, BlockOf, Before, Behind;
    OtherParses(current, expected);
    ParsedIsFramed(expected);
    Recognised(current, expected);
    if RebindText(current, expected, adoptOnly).value == current {
      SameEnds(Before(current), expected, BlockOf(current), Behind(current));
    }
  }

  lemma SameEnds(x: string, a: string, b: string, y: string)
    requires x + a + y == x + b + y
    ensures a == b
  {
    var l, r := x + a + y, x + b + y;
    assert |a| == |b|;
    assert a == l[|x|..|x| + |a|] && b == r[|x|..|x| + |b|];
  }

  /** Where files can be put back, a failed rebind leaves both files as they were exactly when it did
      not stop half way; then the hooks are untouched and the block is the new one.
   */
  lemma FailureRestoresExactlyWhen(files: Files, expected: string, adoptOnly: bool, disk: Disk,
                                   hooksBound: Option<bool>, hookCall: HookCall)
    requires disk.configBack.Restored? && disk.hooksBack.Restored?
    requires !Rebound(files, expected, adoptOnly, disk, hooksBound, hookCall).ok
    ensures var after := Rebound(files, expected, adoptOnly, disk, hooksBound, hookCall).files;
            && after.hooks == files.hooks
            && (after == files <==> !HalfWay(files, expected, adoptOnly, disk, hooksBound))
            && (HalfWay(files, expected, adoptOnly, disk, hooksBound) ==>
                  Inspect(ReadBack(after.config), expected) == Current)
  {
    hide Inspect, Utf8.ByteLen, Before, Behind;
    var current := ReadOptional(files.config);
    if current.Some? && Inspect(current.value, expected).OtherProfile? {
      OtherProfileDiffers(current.value, expected, adoptOnly);
      RebindRoundTrip(current.value, expected, adoptOnly, adoptOnly);
      OtherIsWritten(files.config, expected);
    }
  }

  /** A missing file holds no other profile's block. */
  lemma OtherIsWritten(file: Option<string>, expected: string)
    requires ReadOptional(file).Some? && Inspect(ReadOptional(file).value, expected).OtherProfile?
    ensures file.Some?
  {
    EmptyCount(BEGIN);
    EmptyCount(END);
  }

  /** A failed setup, by contrast, leaves the new block behind exactly when the file had none, could be
      read and written, and held no table of that name.
   */
  lemma FailedSetupLeavesBlockExactlyWhen(files: Files, expected: string, disk: Disk, hookCall: HookCall)
    requires expected != "" && !SetUp(files, expected, disk, hookCall).ok
    ensures var current := ReadOptional(files.config);
            SetUp(files, expected, disk, hookCall).files.config != files.config
            <==> && current.Some? && Inspect(current.value, expected).NotConfigured?
                 && Index(current.value, TABLE) < 0 && disk.writes
  {
    hide Inspect, Index, Utf8.ByteLen;
    var current := ReadOptional(files.config);
    if current.Some? {
      assert |Appended(current.value, expected)| > |current.value|;
    }
  }

  lemma {:induction false} EscapedLength(printable: Table, s: string)
    ensures |Escaped(printable, s)| <= 10 * |s|
  {
    if s != "" {
      EscapedLength(printable, s[1..]);
    }
  }

  lemma PrintedLength(printable: Table, b: Binding)
    ensures |Print(printable, b)| <= 400 + 10 * (|b.cwd| + |Command(b)| + if b.Profile? then |b.configRoot| else 0)
  {
    EscapedLength(printable, b.cwd);
    EscapedLength(printable, Command(b));
    ArgsLength(printable, b);
    hide Escaped, QuotedList;
    UnlinesLength(Lines(printable, b));
    LinesLength(printable, b);
  }

  lemma ArgsLength(printable: Table, b: Binding)
    ensures |QuotedList(printable, Args(b))| <= 190 + if b.Profile? then 10 * |b.configRoot| else 0
  {
    EscapedLength(printable, "mcp");
    EscapedLength(printable, "--config-root");
    hide Escaped;
    if b.Profile? {
      EscapedLength(printable, b.configRoot);
      ListOfThree(printable, "--config-root", b.configRoot, "mcp");
    }
  }

  lemma ListOfThree(printable: Table, x: string, y: string, z: string)
    ensures QuotedList(printable, [x, y, z])
         == Quote(printable, x) + ", " + (Quote(printable, y) + ", " + Quote(printable, z))
  {
    hide Quote;
    assert QuotedList(printable, [z]) == Quote(printable, z);
    assert [y, z][1..] == [z];
    assert QuotedList(printable, [y, z]) == Quote(printable, y) + ", " + Quote(printable, z);
    assert [x, y, z][1..] == [y, z];
  }

  function TotalLength(lines: seq<string>): nat {
    if lines == [] then 0 else |lines[0]| + 1 + TotalLength(lines[1..])
  }

  lemma {:induction false} UnlinesLength(lines: seq<string>)
    ensures |Unlines(lines)| == TotalLength(lines)
  {
    if lines != [] {
      UnlinesLength(lines[1..]);
    }
  }

  lemma LinesLength(printable: Table, b: Binding)
    ensures TotalLength(Lines(printable, b))
         <= 190 + |Quote(printable, Command(b))| + |QuotedList(printable, Args(b))| + |Quote(printable, b.cwd)|
  {
    hide Quote, QuotedList;
    var lines := Lines(printable, b);
    Total9(lines);
  }

  lemma Total9(lines: seq<string>)
    requires |lines| == 9
    ensures TotalLength(lines) == |lines[0]| + |lines[1]| + |lines[2]| + |lines[3]| + |lines[4]|
                                  + |lines[5]| + |lines[6]| + |lines[7]| + |lines[8]| + 9
  {
    TotalFrom(lines, 0);
    TotalFrom(lines, 1);
    TotalFrom(lines, 2);
    TotalFrom(lines, 3);
    TotalFrom(lines, 4);
    TotalFrom(lines, 5);
    TotalFrom(lines, 6);
    TotalFrom(lines, 7);
    TotalFrom(lines, 8);
    assert lines[0..] == lines && lines[9..] == [];
  }

  lemma TotalFrom(lines: seq<string>, i: nat)
    requires i < |lines|
    ensures TotalLength(lines[i..]) == |lines[i]| + 1 + TotalLength(lines[i + 1..])
  {
    assert lines[i..][1..] == lines[i + 1..];
  }

  /** One profile's block in a file of its own, and an adopt-only run of another that cannot inspect
      the hooks: the run fails, and the block is rewritten.
   */
  lemma HalfRebound(printable: Table, theirs: Binding, mine: Binding, hooks: Option<string>, hookCall: HookCall)
    requires Absolute(mine) && Absolute(theirs) && theirs.cwd == mine.cwd
    requires Readable(printable, theirs) && Readable(printable, mine)
    requires Print(printable, theirs) != Print(printable, mine)
    requires ReadOptional(Some(Print(printable, theirs))).Some?
    ensures var files := Files(Some(Print(printable, theirs)), hooks);
            var disk := Disk(true, true, true, Restored, Restored);
            Rebound(files, Print(printable, mine), true, disk, None, hookCall)
            == Outcome(false, Files(Some(Print(printable, mine)), hooks))
  {
    var text, expected := Print(printable, theirs), Print(printable, mine);
    hide Print, Utf8.ByteLen, Inspect, Before, Behind, JsonSafe, Clean, Framed, Inner;
    EmptyIsClean();
    RecognisedExactlyWhen(printable, "", mine, theirs, "");
    assert "" + text + "" == text && "" + expected + "" == expected;
    PrintedIsFramed(printable, theirs);
    Found("", text, "");
  }

  lemma HalfReboundWitness(printable: Table, hooks: Option<string>, hookCall: HookCall)
    ensures var theirs, mine := Profile("/p", "/a", "/o"), Profile("/p", "/a", "/q");
            var files := Files(Some(Print(printable, theirs)), hooks);
            var disk := Disk(true, true, true, Restored, Restored);
            Rebound(files, Print(printable, mine), true, disk, None, hookCall)
            == Outcome(false, Files(Some(Print(printable, mine)), hooks))
  {
    var theirs, mine := Profile("/p", "/a", "/o"), Profile("/p", "/a", "/q");
    SafeRoot(printable);
    hide Print, Utf8.ByteLen, Rebound, JsonSafe, CleanPath, Parse;
    PrintedLength(printable, theirs);
    Utf8.LengthBounds(Print(printable, theirs));
    ParsePrinted(printable, theirs);
    ParsePrinted(printable, mine);
    assert "/o"[1] != "/q"[1];
    HalfRebound(printable, theirs, mine, hooks, hookCall);
  }

  lemma SafeRoot(printable: Table)
    ensures JsonSafe(printable, "/a")
  {
  }

  // ---------------------------------------------------------------- The methods

  class CodexFiles {
    var config: Option<string>
    var hooks: Option<string>

    constructor (config: Option<string>, hooks: Option<string>)
      ensures this.config == config && this.hooks == hooks
    {
      this.config, this.hooks := config, hooks;
    }

    method Setup(expected: string, disk: Disk, hookCall: HookCall) returns (ok: bool)
      modifies this
      ensures Outcome(ok, Files(config, hooks)) == SetUp(Files(old(config), old(hooks)), expected, disk, hookCall)
    {
      hide Inspect, Index;
      var current := ReadOptional(config);
      if current.None? {
        return false;
      }
      var text := current.value;
      var state := Inspect(text, expected);
      if state.Refused? || state.OtherProfile? {
        return false;
      }
      if !state.Current? {
        if Index(text, TABLE) >= 0 {
          return false;
        }
        if !disk.writes {
          return false;
        }
        config := Some(text + Separator(text) + expected);
      }
      if !disk.resolves {
        return false;
      }
      hooks := hookCall.left;
      return hookCall.ok;
    }

    method Rebind(expected: string, adoptOnly: bool, disk: Disk, hooksBound: Option<bool>, hookCall: HookCall)
      returns (ok: bool)
      modifies this
      ensures Outcome(ok, Files(config, hooks))
           == Rebound(Files(old(config), old(hooks)), expected, adoptOnly, disk, hooksBound, hookCall)
    {
      hide Inspect, Index;
      var current := ReadOptional(config);
      if current.None? {
        return false;
      }
      var text := current.value;
      var state := Inspect(text, expected);
      if state.Refused? {
        return false;
      }
      if !disk.resolves || !disk.captures {
        return false;
      }
      var configSnapshot, hookSnapshot := config, hooks;
      var next := text;
      if state.OtherProfile? {
        next := Before(text) + expected + Behind(text);
      } else if state.NotConfigured? && !adoptOnly {
        next := next + Separator(next) + expected;
      }
      if next != text {
        if !disk.writes {
          return false;
        }
        config := Some(next);
      }
      var rebindHook := true;
      if adoptOnly {
        if hooksBound.None? {
          return false;
        }
        rebindHook := hooksBound.value;
      }
      if rebindHook {
        hooks := hookCall.left;
        if !hookCall.ok {
          config := Put(configSnapshot, disk.configBack);
          hooks := Put(hookSnapshot, disk.hooksBack);
          return false;
        }
      }
      return true;
    }

    method Remove(expected: string, disk: Disk) returns (ok: bool)
      modifies this
      ensures Outcome(ok, Files(config, hooks)) == Removed(Files(old(config), old(hooks)), expected, disk)
    {
      hide Inspect, Index;
      var current := ReadOptional(config);
      if current.None? {
        return false;
      }
      var text := current.value;
      var state := Inspect(text, expected);
      if state.Refused? {
        return false;
      }
      if state.Current? {
        CurrentOccurs(text, expected);
        var start := Index(text, expected);
        var remaining := text[..start] + text[start + |expected|..];
        if start >= 2 && text[start - 2..start] == "\n\n" {
          remaining := text[..start - 1] + text[start + |expected|..];
        }
        if !disk.writes {
          return false;
        }
        config := Some(remaining);
      }
      return disk.resolves;
    }
  }
}
