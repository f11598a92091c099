/** Choosing and rendering the corrections injected into an agent's turn.

    The rendered text has a byte limit; a correction that does not fit goes in shortened, or waits.
 */
module Injection {
  import opened Text
  import opened Utf8
  import opened Collections

  datatype Item = Item(id: string, revision: int, text: string, reason: string, action: string)

  const LIMIT := 3200
  const HEADER := "Coordination update:\n"
  const HEADER_BYTES := 21
  const REQUIRED := "coordination_required"

  function OneLine(s: string): string {
    Join(Fields(s), " ")
  }

  function InjectionLine(item: Item): string {
    "- " + OneLine(item.text)
    + (if OneLine(item.reason) != "" then " Reason: " + OneLine(item.reason) else "")
    + (if OneLine(item.action) != "" then " Action: " + OneLine(item.action) + "." else "")
    + "\n"
  }

  /** The short stand-in for an item that does not fit: same identity, fixed wording. */
  function Compacted(item: Item): Item {
    item.(text := "Review coordination item " + item.id + ".",
          reason := "Required context was compacted to honor the injection budget.",
          action := "review_recommended")
  }

  function LineBytes(item: Item): nat {
    ByteLen(InjectionLine(item))
  }

  function Lines(items: seq<Item>): string {
    if items == [] then "" else Lines(items[..|items| - 1]) + InjectionLine(items[|items| - 1])
  }

  function Render(items: seq<Item>): string {
    if items == [] then "" else HEADER + Lines(items)
  }

  /** The bytes an item's line would take: in full, compacted, or not at all. */
  datatype Choice = Full | Short | Stop

  function Choose(used: nat, item: Item): Choice {
    if used >= LIMIT then Stop
    else if used + LineBytes(item) <= LIMIT then Full
    else if used + LineBytes(Compacted(item)) <= LIMIT then Short
    else Stop
  }

  function Chosen(choice: Choice, item: Item): Item {
    if choice == Short then Compacted(item) else item
  }

  /** Takes items in order while they fit, compacting those that only fit compacted. */
  function Select(used: nat, items: seq<Item>): seq<Item>
    decreases |items|
  {
    if items == [] || Choose(used, items[0]).Stop? then []
    else
      var item := Chosen(Choose(used, items[0]), items[0]);
      [item] + Select(used + LineBytes(item), items[1..])
  }

  function SumBytes(items: seq<Item>): nat {
    if items == [] then 0 else LineBytes(items[0]) + SumBytes(items[1..])
  }

  /** The selection is by identity a prefix of the pending items, within the byte limit, and it
      stops only at the end or at an item that does not fit even compacted.
   */
  lemma {:induction false} SelectIsPrefix(used: nat, items: seq<Item>)
    requires used <= LIMIT
    ensures var s := Select(used, items);
            && |s| <= |items|
            && (forall i :: 0 <= i < |s| ==> s[i] == items[i] || s[i] == Compacted(items[i]))
            && used + SumBytes(s) <= LIMIT
            && (|s| < |items| ==>
                  var spent := used + SumBytes(s);
                  spent == LIMIT
                    || (spent + LineBytes(items[|s|]) > LIMIT && spent + LineBytes(Compacted(items[|s|])) > LIMIT))
    decreases |items|
  {
    hide LineBytes, Compacted;
    if items != [] && !Choose(used, items[0]).Stop? {
      var item := Chosen(Choose(used, items[0]), items[0]);
      var rest := Select(used + LineBytes(item), items[1..]);
      SelectIsPrefix(used + LineBytes(item), items[1..]);
      var s := Select(used, items);
      assert s == [item] + rest && s[1..] == rest;
      forall i | 0 <= i < |s| ensures s[i] == items[i] || s[i] == Compacted(items[i]) {
        if i > 0 {
          assert s[i] == rest[i - 1] && items[i] == items[1..][i - 1];
        }
      }
    }
  }

  lemma HeaderBytes()
    ensures ByteLen(HEADER) == HEADER_BYTES
  {
    hide Encode;
    LengthBounds(HEADER);
    assert |HEADER| == HEADER_BYTES;
  }

  lemma {:induction false} SumSnoc(items: seq<Item>, last: Item)
    ensures SumBytes(items + [last]) == SumBytes(items) + LineBytes(last)
  {
    hide LineBytes;
    if items == [] {
      assert items + [last] == [last] && [last][1..] == [];
    } else {
      assert (items + [last])[1..] == items[1..] + [last];
      SumSnoc(items[1..], last);
    }
  }

  lemma {:induction false} LinesBytes(items: seq<Item>)
    ensures ByteLen(Lines(items)) == SumBytes(items)
  {
    if items != [] {
      hide InjectionLine, ByteLen, Lines, SumBytes;
      var n := |items| - 1;
      LinesBytes(items[..n]);
      LinesLast(items);
      ByteLenConcat(Lines(items[..n]), InjectionLine(items[n]));
      SumSnoc(items[..n], items[n]);
      assert items == items[..n] + [items[n]];
    }
  }

  lemma LinesLast(items: seq<Item>)
    requires items != []
    ensures Lines(items) == Lines(items[..|items| - 1]) + InjectionLine(items[|items| - 1])
  {
    hide InjectionLine;
  }

  lemma RenderBytes(items: seq<Item>)
    ensures items != [] ==> ByteLen(Render(items)) == HEADER_BYTES + SumBytes(items)
    ensures items == [] ==> ByteLen(Render(items)) == 0
  {
    if items != [] {
      hide LineBytes, SumBytes, Lines, Encode;
      HeaderBytes();
      LinesBytes(items);
      EncodeConcat(HEADER, Lines(items));
    }
  }

  lemma {:induction false} FilterBytes(items: seq<Item>, keep: Item -> bool)
    ensures SumBytes(Filter(items, keep)) <= SumBytes(items)
  {
    hide LineBytes;
    if items != [] {
      FilterBytes(items[1..], keep);
      if keep(items[0]) {
        assert ([items[0]] + Filter(items[1..], keep))[1..] == Filter(items[1..], keep);
      } else {
        assert [] + Filter(items[1..], keep) == Filter(items[1..], keep);
      }
    }
  }

  /** Whatever part of a selection is claimed, its rendering keeps the limit, header included. */
  lemma RenderedWithinLimit(items: seq<Item>, keep: Item -> bool)
    ensures ByteLen(Render(Filter(Select(HEADER_BYTES, items), keep))) <= LIMIT
  {
    hide LineBytes, SumBytes, Select, Render;
    var s := Select(HEADER_BYTES, items);
    SelectIsPrefix(HEADER_BYTES, items);
    FilterBytes(s, keep);
    RenderBytes(Filter(s, keep));
  }

  method SelectInjectionItems(items: seq<Item>) returns (selected: seq<Item>)
    ensures selected == Select(ByteLen(HEADER), items)
  {
    hide LineBytes, Compacted, ByteLen, Select, HEADER;
    selected := [];
    ghost var goal := Select(ByteLen(HEADER), items);
    var used: nat := ByteLen(HEADER);
    assert items[0..] == items;
    for i := 0 to |items|
      invariant goal == selected + Select(used, items[i..])
    {
      var item := items[i];
      SelectStep(used, items, i);
      var line := LineBytes(item);
      var remaining := LIMIT - used;
      if remaining <= 0 {
        return;
      }
      if line > remaining {
        var reference := Compacted(item);
        line := LineBytes(reference);
        if line > remaining {
          return;
        }
        item := reference;
      }
      Associate(selected, [item], Select(used + line, items[i + 1..]));
      selected := selected + [item];
      used := used + line;
    }
    assert items[|items|..] == [];
    SelectNone(used);
  }

  lemma SelectNone(used: nat)
    ensures Select(used, []) == []
  {
  }

  lemma SelectStep(used: nat, items: seq<Item>, i: nat)
    requires i < |items|
    ensures var choice := Choose(used, items[i]);
            var item := Chosen(choice, items[i]);
            Select(used, items[i..])
              == if choice.Stop? then [] else [item] + Select(used + LineBytes(item), items[i + 1..])
  {
    hide LineBytes, Compacted;
    assert items[i..][1..] == items[i + 1..];
  }

  method RenderInjection(items: seq<Item>) returns (text: string)
    ensures text == Render(items)
  {
    hide InjectionLine, Lines;
    if items == [] {
      return "";
    }
    text := HEADER;
    LinesStep(items, 0);
    for i := 0 to |items|
      invariant text == HEADER + Lines(items[..i])
    {
      LinesStep(items, i);
      text := text + InjectionLine(items[i]);
    }
    assert items[..|items|] == items;
  }

  lemma LinesStep(items: seq<Item>, i: nat)
    requires i < |items|
    ensures Lines([]) == ""
    ensures Lines(items[..i + 1]) == Lines(items[..i]) + InjectionLine(items[i])
  {
    hide InjectionLine;
    assert items[..i + 1][..i] == items[..i];
  }
}
