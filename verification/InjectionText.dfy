/** What an injected text says, and which corrections it holds. */
module InjectionText {
  import opened Text
  import opened Utf8
  import opened Injection

  /** Words under a title, which goes when there are none. */
  function Labelled(title: string, words: seq<string>): seq<string> {
    if words == [] then [] else [title] + words
  }

  /** A full stop closes the last word. */
  function Stopped(words: seq<string>): seq<string> {
    if words == [] then [] else words[..|words| - 1] + [words[|words| - 1] + "."]
  }

  function WordsOf(item: Item): seq<string> {
    ["-"] + Fields(item.text) + Labelled("Reason:", Fields(item.reason))
    + Labelled("Action:", Stopped(Fields(item.action)))
  }

  lemma OneLineWords(s: string)
    ensures Fields(OneLine(s)) == Fields(s) && NewlineFree(OneLine(s))
    ensures OneLine(s) == "" <==> Fields(s) == []
  {
    hide IsSpace, Fields;
    FieldsConserve(s);
    FieldsOfJoin(Fields(s));
    JoinedIsOneLine(Fields(s));
    NoFields();
  }

  /** White space in front of a text changes none of its words. */
  lemma FieldsSpaced(s: string)
    ensures Fields(" " + s) == Fields(s)
  {
    SpaceIsSpace();
    hide IsSpace, Fields;
    FieldsPastSpace(" " + s);
    assert (" " + s)[1..] == s;
  }

  lemma OneWord(word: string)
    requires SpaceFree(word) && word != ""
    ensures Fields(word) == [word]
  {
    assert Join([word], " ") == word;
    FieldsOfJoin([word]);
  }

  /** The words of a part with a title. */
  lemma PartWords(title: string, words: string)
    requires SpaceFree(title) && title != ""
    ensures Fields(" " + (title + (" " + words))) == [title] + Fields(words)
  {
    SpaceIsSpace();
    hide IsSpace, SpaceFree, Fields;
    OneWord(title);
    FieldsSpaced(title + (" " + words));
    FieldsConcat(title, " " + words);
    FieldsSpaced(words);
  }

  lemma ThreeParts(text: string, reason: string, action: string)
    requires reason == "" || reason[0] == ' '
    requires action == "" || action[0] == ' '
    ensures Fields(" " + (text + reason + action)) == Fields(" " + text) + Fields(reason) + Fields(action)
  {
    SpaceIsSpace();
    hide IsSpace, Fields;
    assert " " + (text + reason + action) == " " + text + reason + action;
    FieldsConcat(" " + text + reason, action);
    FieldsConcat(" " + text, reason);
  }

  lemma StoppedWords(s: string)
    requires Fields(s) != []
    ensures Fields(OneLine(s) + ".") == Stopped(Fields(s))
    ensures Join(Stopped(Fields(s)), " ") == OneLine(s) + "."
  {
    hide IsSpace, Fields;
    var words := Fields(s);
    FieldsConserve(s);
    JoinStopped(words);
    DotIsNoSpace();
    var stopped := Stopped(words);
    forall i | 0 <= i < |stopped| ensures stopped[i] != "" && SpaceFree(stopped[i]) {
    }
    FieldsOfJoin(stopped);
  }

  lemma DotIsNoSpace()
    ensures !IsSpace('.')
  {
  }

  lemma {:induction false} JoinStopped(words: seq<string>)
    requires words != []
    ensures Join(Stopped(words), " ") == Join(words, " ") + "."
  {
    if |words| > 1 {
      JoinStopped(words[1..]);
      assert Stopped(words)[1..] == Stopped(words[1..]);
    }
  }

  function TextPart(item: Item): string {
    "-" + (" " + OneLine(item.text))
  }

  function ReasonPart(item: Item): string {
    if Fields(item.reason) == [] then "" else " " + ("Reason:" + (" " + OneLine(item.reason)))
  }

  function ActionPart(item: Item): string {
    if Fields(item.action) == [] then "" else " " + ("Action:" + (" " + (OneLine(item.action) + ".")))
  }

  lemma LineParts(item: Item)
    ensures InjectionLine(item) == TextPart(item) + ReasonPart(item) + ActionPart(item) + "\n"
  {
    OneLineWords(item.reason);
    OneLineWords(item.action);
    hide OneLine, Fields;
    var reason, action := OneLine(item.reason), OneLine(item.action);
    assert " " + ("Reason:" + (" " + reason)) == " Reason: " + reason;
    assert " " + ("Action:" + (" " + (action + "."))) == " Action: " + action + ".";
    assert "-" + (" " + OneLine(item.text)) == "- " + OneLine(item.text);
  }

  lemma PartsAreOneLine(item: Item)
    ensures NewlineFree(TextPart(item)) && NewlineFree(ReasonPart(item)) && NewlineFree(ActionPart(item))
  {
    hide OneLine, Fields;
    OneLineWords(item.text);
    OneLineWords(item.reason);
    OneLineWords(item.action);
  }

  lemma PartsWords(item: Item)
    ensures Fields(" " + TextPart(item)) == ["-"] + Fields(item.text)
    ensures Fields(ReasonPart(item)) == Labelled("Reason:", Fields(item.reason))
    ensures Fields(ActionPart(item)) == Labelled("Action:", Stopped(Fields(item.action)))
    ensures ReasonPart(item) != "" ==> ReasonPart(item)[0] == ' '
    ensures ActionPart(item) != "" ==> ActionPart(item)[0] == ' '
  {
    Titles();
    hide SpaceFree, Fields, OneLine, IsSpace;
    OneLineWords(item.text);
    OneLineWords(item.reason);
    NoFields();
    PartWords("-", OneLine(item.text));
    PartWords("Reason:", OneLine(item.reason));
    PartWords("Action:", OneLine(item.action) + ".");
    if Fields(item.action) != [] {
      StoppedWords(item.action);
    }
  }

  lemma Titles()
    ensures SpaceFree("-") && SpaceFree("Reason:") && SpaceFree("Action:")
  {
  }

  /** The line of one item. */
  lemma LineReadsBack(item: Item)
    ensures var line := InjectionLine(item);
            && line != "" && line[|line| - 1] == '\n'
            && NewlineFree(line[..|line| - 1]) && Fields(line[..|line| - 1]) == WordsOf(item)
            && (Fields(item.text) != [] ==> line[..|line| - 1] == Join(WordsOf(item), " "))
  {
    hide IsSpace, Fields, Join, InjectionLine, TextPart, ReasonPart, ActionPart, NewlineFree;
    LineParts(item);
    var s := TextPart(item) + ReasonPart(item) + ActionPart(item);
    assert InjectionLine(item)[..|InjectionLine(item)| - 1] == s;
    PartsAreOneLine(item);
    NewlineFreeConcat(TextPart(item), ReasonPart(item));
    NewlineFreeConcat(TextPart(item) + ReasonPart(item), ActionPart(item));
    PartsWords(item);
    ThreeParts(TextPart(item), ReasonPart(item), ActionPart(item));
    FieldsSpaced(s);
    if Fields(item.text) != [] {
      PartsJoined(item);
    }
  }

  lemma PartsJoined(item: Item)
    requires Fields(item.text) != []
    ensures TextPart(item) + ReasonPart(item) + ActionPart(item) == Join(WordsOf(item), " ")
  {
    hide Fields, Join;
    JoinedWith("-", Fields(item.text));
    var text := ["-"] + Fields(item.text);
    var reason := Labelled("Reason:", Fields(item.reason));
    if reason != [] {
      JoinedWith("Reason:", Fields(item.reason));
      JoinConcat(text, reason);
    }
    assert text + [] == text;
    var action := Labelled("Action:", Stopped(Fields(item.action)));
    if action != [] {
      StoppedWords(item.action);
      JoinedWith("Action:", Stopped(Fields(item.action)));
      JoinConcat(text + reason, action);
    }
    assert text + reason + [] == text + reason;
  }

  lemma JoinedWith(title: string, words: seq<string>)
    requires words != []
    ensures Join([title] + words, " ") == title + (" " + Join(words, " "))
  {
    assert ([title] + words)[1..] == words;
    assert title + " " + Join(words, " ") == title + (" " + Join(words, " "));
  }

  // ------------------------------------------------------------------ the whole text

  /** The words of a line, with single spaces between them. */
  predicate Says(line: string, item: Item) {
    Fields(line) == WordsOf(item) && (Fields(item.text) != [] ==> line == Join(WordsOf(item), " "))
  }

  /** The lines of an injected text: the header, the items' lines in order, and nothing after the
      last line end. The words of an item's line are a dash, its text, its reason under a title and
      its action under another, closed by a full stop; single spaces stand between them.
   */
  lemma RenderReadsBack(items: seq<Item>)
    requires items != []
    ensures var lines := Split(Render(items), '\n');
            && |lines| == |items| + 2
            && lines[0] == "Coordination update:" && lines[|items| + 1] == ""
            && forall i :: 0 <= i < |items| ==> Says(lines[i + 1], items[i])
  {
    hide Lines, Split, Says;
    LinesReadBack(items);
    var title := "Coordination update:";
    assert NewlineFree(title);
    assert Render(items) == title + ['\n'] + Lines(items);
    SplitConcat(title, '\n', Lines(items));
    OneLineAlone(title);
  }

  /** A line for each item, and nothing after the last. */
  predicate SayAll(lines: seq<string>, items: seq<Item>) {
    |lines| == |items| + 1 && lines[|items|] == "" && forall i :: 0 <= i < |items| ==> Says(lines[i], items[i])
  }

  lemma {:induction false} LinesReadBack(items: seq<Item>)
    ensures SayAll(Split(Lines(items), '\n'), items)
  {
    hide Lines, Split, Says;
    if items != [] {
      LinesCons(items);
      LinesReadBack(items[1..]);
      OneMoreLine(items[0], Lines(items[1..]));
      SayMore(Split(Lines(items), '\n'), items);
    } else {
      SplitStep("", '\n');
      NoLines();
    }
  }

  lemma NoLines()
    ensures Lines([]) == ""
  {
  }

  lemma SayMore(lines: seq<string>, items: seq<Item>)
    requires lines != [] && items != [] && Says(lines[0], items[0]) && SayAll(lines[1..], items[1..])
    ensures SayAll(lines, items)
  {
    hide Says;
    forall i | 0 <= i < |items| ensures Says(lines[i], items[i]) {
      assert i > 0 ==> lines[i] == lines[1..][i - 1] && items[i] == items[1..][i - 1];
    }
    assert lines[|items|] == lines[1..][|items| - 1];
  }

  lemma OneMoreLine(item: Item, rest: string)
    ensures Split(InjectionLine(item) + rest, '\n')[0] == InjectionLine(item)[..|InjectionLine(item)| - 1]
    ensures Split(InjectionLine(item) + rest, '\n')[1..] == Split(rest, '\n')
    ensures Says(Split(InjectionLine(item) + rest, '\n')[0], item)
  {
    LineReadsBack(item);
    hide Split, InjectionLine, NewlineFree, Fields, Join, WordsOf;
    var line := InjectionLine(item);
    var s := line[..|line| - 1];
    assert line + rest == s + ['\n'] + rest;
    SplitConcat(s, '\n', rest);
    OneLineAlone(s);
  }

  lemma {:induction false} LinesCons(items: seq<Item>)
    requires items != []
    ensures Lines(items) == InjectionLine(items[0]) + Lines(items[1..])
  {
    hide InjectionLine;
    var n := |items| - 1;
    if n > 0 {
      LinesCons(items[..n]);
      assert items[..n][1..] == items[1..][..n - 1];
    }
  }

  // ------------------------------------------------------------------ the selection

  /** What stands for a correction that does not fit. */
  predicate StandsFor(short: Item, item: Item) {
    && short.id == item.id && short.revision == item.revision
    && short.text == "Review coordination item " + item.id + "."
    && short.reason == "Required context was compacted to honor the injection budget."
    && short.action == "review_recommended"
  }

  predicate Fits(items: seq<Item>) {
    ByteLen(Render(items)) <= 3200
  }

  /** Taken after these: as it is if that fits, and shortened otherwise. */
  predicate TakenAs(before: seq<Item>, item: Item, taken: Item) {
    if Fits(before + [item]) then taken == item else StandsFor(taken, item) && Fits(before + [taken])
  }

  ghost predicate FitsNoWay(before: seq<Item>, item: Item) {
    !Fits(before + [item]) && forall short :: StandsFor(short, item) ==> !Fits(before + [short])
  }

  /** Told from the rendered text: each pending correction goes in as it is if the text with it still
      takes at most 3200 bytes, else shortened if that fits, and else the selection ends.
   */
  lemma SelectedExactly(items: seq<Item>)
    ensures var s := Select(ByteLen("Coordination update:\n"), items);
            && |s| <= |items|
            && (forall i :: 0 <= i < |s| ==> TakenAs(s[..i], items[i], s[i]))
            && (|s| < |items| ==> FitsNoWay(s, items[|s|]))
  {
    hide SumBytes, Select, ByteLen, TakenAs, FitsNoWay, CountedAs, CountedOut;
    HeaderBytes();
    var s := Select(HEADER_BYTES, items);
    SelectedWithin(HEADER_BYTES, items);
    forall i | 0 <= i < |s| ensures TakenAs(s[..i], items[i], s[i]) {
      CountedIsRendered(s[..i], items[i], s[i]);
    }
    if |s| < |items| {
      CountedIsRendered(s, items[|s|], items[|s|]);
    }
  }

  predicate CountedAs(spent: nat, item: Item, taken: Item) {
    if spent + LineBytes(item) <= LIMIT then taken == item
    else taken == Compacted(item) && spent + LineBytes(taken) <= LIMIT
  }

  predicate CountedOut(spent: nat, item: Item) {
    spent + LineBytes(item) > LIMIT && spent + LineBytes(Compacted(item)) > LIMIT
  }

  lemma CountedIsRendered(before: seq<Item>, item: Item, taken: Item)
    ensures CountedAs(HEADER_BYTES + SumBytes(before), item, taken) ==> TakenAs(before, item, taken)
    ensures CountedOut(HEADER_BYTES + SumBytes(before), item) ==> FitsNoWay(before, item)
  {
    RenderOneMore(before, item);
    RenderOneMore(before, taken);
    CompactedIs(item, taken);
    hide LineBytes, SumBytes, Render, ByteLen, Compacted, StandsFor;
    forall short | StandsFor(short, item) && CountedOut(HEADER_BYTES + SumBytes(before), item)
      ensures !Fits(before + [short])
    {
      CompactedIs(item, short);
      RenderOneMore(before, short);
    }
  }

  lemma CompactedIs(item: Item, short: Item)
    ensures short == Compacted(item) <==> StandsFor(short, item)
  {
  }

  lemma RenderOneMore(items: seq<Item>, item: Item)
    ensures ByteLen(Render(items + [item])) == HEADER_BYTES + SumBytes(items) + LineBytes(item)
  {
    RenderBytes(items + [item]);
    SumSnoc(items, item);
  }

  lemma LineTakesRoom(item: Item)
    ensures LineBytes(item) > 0
  {
    LineReadsBack(item);
    LengthBounds(InjectionLine(item));
  }

  lemma {:induction false} SelectedWithin(used: nat, items: seq<Item>)
    requires used <= LIMIT
    ensures Counted(used, items, Select(used, items))
    decreases |items|
  {
    hide LineBytes, Compacted, SumBytes, Select;
    SelectFrom(used, items);
    SumNone();
    if items != [] {
      LineTakesRoom(items[0]);
      LineTakesRoom(Compacted(items[0]));
      if !Choose(used, items[0]).Stop? {
        var item := Chosen(Choose(used, items[0]), items[0]);
        var used' := used + LineBytes(item);
        assert CountedAs(used, items[0], item) && used' <= LIMIT;
        var rest := Select(used', items[1..]);
        SelectedWithin(used', items[1..]);
        CountedCons(used, items, item, rest);
      }
    }
  }

  /** Whether the selection took each item as it had to. */
  predicate Counted(used: nat, items: seq<Item>, s: seq<Item>) {
    && |s| <= |items|
    && (forall i :: 0 <= i < |s| ==> CountedAs(used + SumBytes(s[..i]), items[i], s[i]))
    && (|s| < |items| ==> CountedOut(used + SumBytes(s), items[|s|]))
  }

  lemma CountedCons(used: nat, items: seq<Item>, item: Item, rest: seq<Item>)
    requires items != [] && CountedAs(used, items[0], item)
    requires Counted(used + LineBytes(item), items[1..], rest)
    ensures Counted(used, items, [item] + rest)
  {
    hide LineBytes, CountedAs, CountedOut, SumBytes;
    var s := [item] + rest;
    SumNone();
    SumCons(item, rest);
    forall i | 0 <= i < |s| ensures CountedAs(used + SumBytes(s[..i]), items[i], s[i]) {
      if i > 0 {
        assert CountedAs(used + LineBytes(item) + SumBytes(rest[..i - 1]), items[1..][i - 1], rest[i - 1]);
        assert s[..i] == [item] + rest[..i - 1];
        SumCons(item, rest[..i - 1]);
      }
    }
  }

  lemma SelectFrom(used: nat, items: seq<Item>)
    ensures Select(used, items)
            == if items == [] || Choose(used, items[0]).Stop? then []
               else var item := Chosen(Choose(used, items[0]), items[0]);
                    [item] + Select(used + LineBytes(item), items[1..])
  {
  }

  lemma SumNone()
    ensures SumBytes([]) == 0
  {
  }

  lemma SumCons(item: Item, items: seq<Item>)
    ensures SumBytes([item] + items) == LineBytes(item) + SumBytes(items)
  {
    hide LineBytes;
    assert ([item] + items)[1..] == items;
  }
}
