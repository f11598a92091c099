/** Quoted strings.

    The block printer writes Go string literals; one reader unquotes them, the other reads a list
    of them as JSON.
 */
module Quoting {
  import opened Text
  import opened Collections

  // ---------------------------------------------------------------- strconv.Quote

  /** The letter of a one-letter escape, for the control characters that have one. */
  function Letter(c: char): Option<char> {
    match c as int
    case 7 => Some('a')
    case 8 => Some('b')
    case 9 => Some('t')
    case 10 => Some('n')
    case 11 => Some('v')
    case 12 => Some('f')
    case 13 => Some('r')
    case _ => None
  }

  function HexDigit(n: nat): (c: char)
    requires n < 16
    ensures c != '"' && c != '\\' && c != '\n' && HexValue(c) == Some(n)
  {
    if n < 10 then '0' + n as char else 'a' + (n - 10) as char
  }

  function HexValue(c: char): (r: Option<nat>)
    ensures r.Some? ==> r.value < 16
  {
    if '0' <= c <= '9' then Some((c - '0') as int)
    else if 'a' <= c <= 'f' then Some((c - 'a') as int + 10)
    else if 'A' <= c <= 'F' then Some((c - 'A') as int + 10)
    else None
  }

  predicate Control(c: char) {
    c as int < 32 || c as int == 127
  }

  /** A number in a fixed count of hexadecimal digits. */
  function HexDigits(n: nat, count: nat): (s: string)
    ensures |s| == count
  {
    if count == 0 then "" else HexDigits(n / 16, count - 1) + [HexDigit(n % 16)]
  }

  function HexNumber(s: string): Option<nat> {
    if s == "" then Some(0)
    else
      var front, last := HexNumber(s[..|s| - 1]), HexValue(s[|s| - 1]);
      if front.Some? && last.Some? then Some(16 * front.value + last.value) else None
  }

  function Power16(count: nat): nat {
    if count == 0 then 1 else 16 * Power16(count - 1)
  }

  lemma {:induction false} HexRoundTrip(n: nat, count: nat)
    requires n < Power16(count)
    ensures HexNumber(HexDigits(n, count)) == Some(n) && NewlineFree(HexDigits(n, count))
  {
    if count > 0 {
      var front := HexDigits(n / 16, count - 1);
      HexRoundTrip(n / 16, count - 1);
      var s := front + [HexDigit(n % 16)];
      assert s[..|s| - 1] == front;
    }
  }

  lemma Powers()
    ensures Power16(2) == 0x100 && Power16(4) == 0x1_0000 && Power16(8) == 0x1_0000_0000
  {
    assert Power16(1) == 16 && Power16(3) == 0x1000 && Power16(5) == 0x10_0000 && Power16(6) == 0x100_0000;
    assert Power16(7) == 0x1000_0000;
  }

  /** Which characters Go's tables call printable; control characters never are. */
  type Table = char -> bool

  function EscapeChar(printable: Table, c: char): string {
    if c == '"' || c == '\\' then ['\\', c]
    else if !Control(c) && printable(c) then [c]
    else if Letter(c).Some? then ['\\', Letter(c).value]
    else if Control(c) then ['\\', 'x'] + HexDigits(c as int, 2)
    else if c as int < 0x1_0000 then ['\\', 'u'] + HexDigits(c as int, 4)
    else ['\\', 'U'] + HexDigits(c as int, 8)
  }

  function Escaped(printable: Table, s: string): string {
    if s == "" then "" else EscapeChar(printable, s[0]) + Escaped(printable, s[1..])
  }

  function Quote(printable: Table, s: string): string {
    ['"'] + Escaped(printable, s) + ['"']
  }

  // ---------------------------------------------------------------- strconv.Unquote

  function OfLetter(e: char): Option<char> {
    match e
    case 'a' => Some(7 as char)
    case 'b' => Some(8 as char)
    case 't' => Some('\t')
    case 'n' => Some('\n')
    case 'v' => Some(11 as char)
    case 'f' => Some(12 as char)
    case 'r' => Some('\r')
    case _ => if e == '"' || e == '\\' then Some(e) else None
  }

  /** One character and the rest of the literal. */
  datatype Next = Bad | Next(c: char, rest: string)

  predicate IsScalar(n: nat) {
    n < 0xD800 || 0xE000 <= n < 0x11_0000
  }

  /** A numeric escape of so many digits, if it names a character below the bound. */
  function NumericEscape(s: string, count: nat, bound: nat): (r: Next)
    requires |s| >= 2
    ensures r.Next? ==> |r.rest| < |s|
  {
    if |s| < 2 + count then Bad
    else
      var n := HexNumber(s[2..2 + count]);
      if n.Some? && n.value < bound && IsScalar(n.value) then Next(n.value as char, s[2 + count..]) else Bad
  }

  function UnescapeOne(s: string): (r: Next)
    requires s != ""
    ensures r.Next? ==> |r.rest| < |s|
  {
    if s[0] == '"' || s[0] == '\n' then Bad
    else if s[0] != '\\' then Next(s[0], s[1..])
    else if |s| < 2 then Bad
    else if OfLetter(s[1]).Some? then Next(OfLetter(s[1]).value, s[2..])
    else if s[1] == 'x' then NumericEscape(s, 2, 0x80)
    else if s[1] == 'u' then NumericEscape(s, 4, 0x11_0000)
    else if s[1] == 'U' then NumericEscape(s, 8, 0x11_0000)
    else Bad
  }

  function Unescape(s: string): Option<string>
    decreases |s|
  {
    if s == "" then Some("")
    else match UnescapeOne(s)
      case Bad => None
      case Next(c, rest) =>
        var tail := Unescape(rest);
        if tail.Some? then Some([c] + tail.value) else None
  }

  function Unquote(s: string): Option<string> {
    if |s| >= 2 && s[0] == '"' && s[|s| - 1] == '"' then Unescape(s[1..|s| - 1]) else None
  }

  lemma NumericEscapeOf(c: char, mark: char, count: nat, bound: nat, rest: string)
    requires c as int < bound && c as int < Power16(count) && mark != '\n'
    ensures var e := ['\\', mark] + HexDigits(c as int, count);
            NumericEscape(e + rest, count, bound) == Next(c, rest) && NewlineFree(e)
  {
    hide HexDigits, HexNumber, Power16;
    var e := ['\\', mark] + HexDigits(c as int, count);
    HexRoundTrip(c as int, count);
    assert (e + rest)[2..2 + count] == HexDigits(c as int, count);
    assert (e + rest)[2 + count..] == rest;
  }

  lemma UnescapeOneOf(printable: Table, c: char, rest: string)
    ensures EscapeChar(printable, c) != ""
    ensures UnescapeOne(EscapeChar(printable, c) + rest) == Next(c, rest)
    ensures NewlineFree(EscapeChar(printable, c))
  {
    Powers();
    hide HexDigits, HexNumber, Power16, NumericEscape;
    var e := EscapeChar(printable, c);
    if e[0] == '\\' && e[1] == 'x' && |e| > 2 {
      NumericEscapeOf(c, 'x', 2, 0x80, rest);
    } else if e[0] == '\\' && e[1] == 'u' && |e| > 2 {
      NumericEscapeOf(c, 'u', 4, 0x11_0000, rest);
    } else if e[0] == '\\' && e[1] == 'U' && |e| > 2 {
      NumericEscapeOf(c, 'U', 8, 0x11_0000, rest);
    } else {
      assert (e + rest)[|e|..] == rest;
    }
  }

  lemma {:induction false} UnescapeEscaped(printable: Table, s: string)
    ensures Unescape(Escaped(printable, s)) == Some(s) && NewlineFree(Escaped(printable, s))
  {
    hide EscapeChar, UnescapeOne;
    if s != "" {
      UnescapeOneOf(printable, s[0], Escaped(printable, s[1..]));
      UnescapeEscaped(printable, s[1..]);
      assert s == [s[0]] + s[1..];
    }
  }

  /** Unquoting recovers every quoted string, control characters included. */
  lemma QuoteRoundTrip(printable: Table, s: string)
    ensures Unquote(Quote(printable, s)) == Some(s) && NewlineFree(Quote(printable, s))
  {
    UnescapeEscaped(printable, s);
    var q := Quote(printable, s);
    assert q[1..|q| - 1] == Escaped(printable, s);
  }

  // ---------------------------------------------------------------- JSON arrays of strings

  predicate JsonSpace(c: char) {
    c == ' ' || c == '\t' || c == '\n' || c == '\r'
  }

  function SkipSpace(s: string): (r: string)
    ensures |r| <= |s|
  {
    if s != "" && JsonSpace(s[0]) then SkipSpace(s[1..]) else s
  }

  function OfJsonLetter(e: char): Option<char> {
    match e
    case 'b' => Some(8 as char)
    case 't' => Some('\t')
    case 'n' => Some('\n')
    case 'f' => Some(12 as char)
    case 'r' => Some('\r')
    case _ => if e == '"' || e == '\\' || e == '/' then Some(e) else None
  }

  predicate HighSurrogate(n: nat) {
    0xD800 <= n < 0xDC00
  }

  predicate LowSurrogate(n: nat) {
    0xDC00 <= n < 0xE000
  }

  /** The number of a four-digit escape at the head of the text. */
  function JsonEscape(s: string): (r: Option<nat>)
    ensures r.Some? ==> |s| >= 6
  {
    if |s| >= 6 && s[0] == '\\' && s[1] == 'u' then HexNumber(s[2..6]) else None
  }

  /** A four-digit escape: a character, two halves of one, or half of one, which is replaced. */
  function JsonUnicode(s: string): (r: Next)
    ensures r.Next? ==> |r.rest| < |s|
  {
    if JsonEscape(s).None? then Bad
    else
      var n, low := JsonEscape(s).value, JsonEscape(s[6..]);
      if IsScalar(n) then Next(n as char, s[6..])
      else if HighSurrogate(n) && low.Some? && LowSurrogate(low.value)
      then Next((0x1_0000 + 0x400 * (n - 0xD800) + (low.value - 0xDC00)) as char, s[12..])
      else Next('\U{FFFD}', s[6..])
  }

  function JsonOne(s: string): (r: Next)
    requires s != ""
    ensures r.Next? ==> |r.rest| < |s|
  {
    if s[0] as int < 32 then Bad
    else if s[0] != '\\' then Next(s[0], s[1..])
    else if |s| < 2 then Bad
    else if s[1] == 'u' then JsonUnicode(s)
    else if OfJsonLetter(s[1]).None? then Bad
    else Next(OfJsonLetter(s[1]).value, s[2..])
  }

  datatype Parsed<T> = Fail | Parsed(value: T, rest: string)

  /** The string whose opening quote was just read. */
  function JsonString(s: string): (r: Parsed<string>)
    ensures r.Parsed? ==> |r.rest| < |s|
    decreases |s|
  {
    if s == "" then Fail
    else if s[0] == '"' then Parsed("", s[1..])
    else match JsonOne(s)
      case Bad => Fail
      case Next(c, rest) =>
        match JsonString(rest)
        case Fail => Fail
        case Parsed(tail, after) => Parsed([c] + tail, after)
  }

  /** The elements of an array, from a first one on to the end of the text. */
  function JsonElements(s: string): Option<seq<string>>
    decreases |s|
  {
    if s == "" || s[0] != '"' then None
    else match JsonString(s[1..])
      case Fail => None
      case Parsed(v, after) =>
        var next := SkipSpace(after);
        if next == "" then None
        else if next[0] == ',' then
          var more := JsonElements(SkipSpace(next[1..]));
          if more.Some? then Some([v] + more.value) else None
        else if next[0] == ']' && SkipSpace(next[1..]) == "" then Some([v])
        else None
  }

  function JsonStrings(s: string): Option<seq<string>> {
    if s == "" || s[0] != '[' then None
    else
      var first := SkipSpace(s[1..]);
      if first != "" && first[0] == ']' && SkipSpace(first[1..]) == "" then Some([]) else JsonElements(first)
  }

  /** The characters whose printed form JSON reads back: not a control character that the printer
      escapes in a way JSON does not know, and not one beyond U+FFFF that the printer escapes at all.
   */
  predicate JsonSafeChar(printable: Table, c: char) {
    if Control(c) then Letter(c).Some? && c as int != 7 && c as int != 11
    else printable(c) || c as int < 0x1_0000
  }

  predicate JsonSafe(printable: Table, s: string) {
    forall k :: 0 <= k < |s| ==> JsonSafeChar(printable, s[k])
  }

  lemma JsonUnicodeOf(c: char, rest: string)
    requires c as int < 0x1_0000
    ensures JsonUnicode(['\\', 'u'] + HexDigits(c as int, 4) + rest) == Next(c, rest)
  {
    Powers();
    hide HexDigits, HexNumber, Power16;
    var e := ['\\', 'u'] + HexDigits(c as int, 4);
    HexRoundTrip(c as int, 4);
    assert (e + rest)[2..6] == HexDigits(c as int, 4);
    assert (e + rest)[6..] == rest;
  }

  lemma JsonOneOf(printable: Table, c: char, rest: string)
    ensures EscapeChar(printable, c) != "" && EscapeChar(printable, c)[0] != '"'
    ensures JsonOne(EscapeChar(printable, c) + rest) == if JsonSafeChar(printable, c) then Next(c, rest) else Bad
  {
    hide HexDigits, JsonUnicode;
    var e := EscapeChar(printable, c);
    if e[0] == '\\' && e[1] == 'u' && |e| > 2 {
      JsonUnicodeOf(c, rest);
    } else if |e| <= 2 {
      assert (e + rest)[|e|..] == rest;
    }
  }

  /** JSON reads a printed string back exactly when it is safe, and otherwise rejects it. */
  lemma {:induction false} JsonReadsEscaped(printable: Table, s: string, rest: string)
    ensures JsonString(Escaped(printable, s) + ['"'] + rest) == if JsonSafe(printable, s) then Parsed(s, rest) else Fail
  {
    hide EscapeChar, JsonOne, JsonSafeChar;
    var text := Escaped(printable, s) + ['"'] + rest;
    if s == "" {
      assert text == ['"'] + rest && text[1..] == rest;
    } else {
      var e := EscapeChar(printable, s[0]);
      var tail := Escaped(printable, s[1..]) + ['"'] + rest;
      assert text == e + tail;
      JsonOneOf(printable, s[0], tail);
      JsonReadsEscaped(printable, s[1..], rest);
      assert s == [s[0]] + s[1..];
      assert JsonSafe(printable, s) <==> JsonSafeChar(printable, s[0]) && JsonSafe(printable, s[1..]);
    }
  }

  /** Printed arguments, separated as the printer does. */
  function QuotedList(printable: Table, items: seq<string>): string
    requires items != []
  {
    if |items| == 1 then Quote(printable, items[0])
    else Quote(printable, items[0]) + ", " + QuotedList(printable, items[1..])
  }

  lemma SkipNothing(s: string)
    requires s == "" || !JsonSpace(s[0])
    ensures SkipSpace(s) == s
  {
  }

  lemma LastElement(printable: Table, v: string)
    ensures JsonElements(Quote(printable, v) + "]") == if JsonSafe(printable, v) then Some([v]) else None
  {
    hide Escaped, JsonString, JsonSafe, SkipSpace;
    var rest := "]";
    var text := Quote(printable, v) + rest;
    JsonReadsEscaped(printable, v, rest);
    assert text[1..] == Escaped(printable, v) + ['"'] + rest;
    SkipNothing(rest);
    assert rest[1..] == "";
    SkipNothing("");
  }

  lemma EarlierElement(printable: Table, v: string, list: string)
    requires list != "" && list[0] == '"'
    ensures var more := JsonElements(list);
            JsonElements(Quote(printable, v) + ", " + list) ==
            if JsonSafe(printable, v) && more.Some? then Some([v] + more.value) else None
  {
    hide Escaped, JsonString, JsonSafe, SkipSpace;
    var rest := ", " + list;
    var text := Quote(printable, v) + ", " + list;
    JsonReadsEscaped(printable, v, rest);
    assert text[1..] == Escaped(printable, v) + ['"'] + rest;
    SkipNothing(rest);
    SkipOne(list);
    assert rest[1..] == " " + list;
  }

  lemma SkipOne(s: string)
    requires s == "" || !JsonSpace(s[0])
    ensures SkipSpace(" " + s) == s
  {
    assert (" " + s)[1..] == s;
  }

  predicate AllSafe(printable: Table, items: seq<string>) {
    forall k :: 0 <= k < |items| ==> JsonSafe(printable, items[k])
  }

  lemma {:induction false} JsonReadsList(printable: Table, items: seq<string>)
    requires items != []
    ensures JsonElements(QuotedList(printable, items) + "]") == if AllSafe(printable, items) then Some(items) else None
    ensures QuotedList(printable, items) != "" && QuotedList(printable, items)[0] == '"'
    ensures NewlineFree(QuotedList(printable, items))
  {
    hide Escaped, JsonElements, JsonSafe;
    QuoteRoundTrip(printable, items[0]);
    if |items| == 1 {
      LastElement(printable, items[0]);
      assert items == [items[0]];
    } else {
      var list := QuotedList(printable, items[1..]) + "]";
      JsonReadsList(printable, items[1..]);
      EarlierElement(printable, items[0], list);
      assert QuotedList(printable, items) + "]" == Quote(printable, items[0]) + ", " + list;
      assert items == [items[0]] + items[1..];
    }
  }

  /** The printed array is read back whole exactly when every element is safe. */
  lemma JsonReadsArray(printable: Table, items: seq<string>)
    requires items != []
    ensures JsonStrings("[" + QuotedList(printable, items) + "]")
        == if AllSafe(printable, items) then Some(items) else None
    ensures NewlineFree(QuotedList(printable, items))
  {
    hide QuotedList, JsonElements, AllSafe, SkipSpace;
    var list := QuotedList(printable, items) + "]";
    JsonReadsList(printable, items);
    assert ("[" + QuotedList(printable, items) + "]")[1..] == list;
    SkipNothing(list);
  }
}
