/** A reader of JSON text, written from the grammar of RFC 8259 alone, and what it makes of the canonical text. */
module JsonReading {
  import opened CanonicalJson
  import opened Collections
  import opened StableSorting

  datatype Reading<T> = Read(value: T, rest: string) | Malformed

  // ---------- strings (section 7) ----------

  function HexValue(c: char): (r: int)
    ensures -1 <= r < 16
  {
    if '0' <= c <= '9' then c as int - '0' as int
    else if 'a' <= c <= 'f' then c as int - 'a' as int + 10
    else if 'A' <= c <= 'F' then c as int - 'A' as int + 10
    else -1
  }

  /** The character after backslash and u. Half of a surrogate pair is no character. */
  function ReadCode(text: string): (r: Reading<char>)
    ensures r.Read? ==> |text| >= 4 && r.rest == text[4..]
  {
    if |text| < 4 || HexValue(text[0]) < 0 || HexValue(text[1]) < 0 || HexValue(text[2]) < 0 || HexValue(text[3]) < 0 then Malformed
    else
      var code := 4096 * HexValue(text[0]) + 256 * HexValue(text[1]) + 16 * HexValue(text[2]) + HexValue(text[3]);
      if 0xD800 <= code < 0xE000 then Malformed else Read(code as char, text[4..])
  }

  /** The character after a backslash. */
  function ReadEscape(text: string): (r: Reading<char>)
    ensures r.Read? ==> |r.rest| < |text|
  {
    if |text| == 0 then Malformed
    else match text[0] {
      case '"' => Read('"', text[1..])
      case '\\' => Read('\\', text[1..])
      case '/' => Read('/', text[1..])
      case 'b' => Read(8 as char, text[1..])
      case 'f' => Read(12 as char, text[1..])
      case 'n' => Read(10 as char, text[1..])
      case 'r' => Read(13 as char, text[1..])
      case 't' => Read(9 as char, text[1..])
      case 'u' => ReadCode(text[1..])
      case _ => Malformed
    }
  }

  function ReadChar(text: string): (r: Reading<char>)
    ensures r.Read? ==> |r.rest| < |text|
  {
    if |text| == 0 || text[0] as int < 32 || text[0] == '"' then Malformed
    else if text[0] == '\\' then ReadEscape(text[1..])
    else Read(text[0], text[1..])
  }

  /** The characters up to the closing quotation mark. */
  function ReadChars(text: string): (r: Reading<string>)
    ensures r.Read? ==> |r.rest| < |text|
  {
    if |text| > 0 && text[0] == '"' then Read("", text[1..])
    else match ReadChar(text) {
      case Malformed => Malformed
      case Read(c, rest) =>
        match ReadChars(rest) {
          case Malformed => Malformed
          case Read(s, after) => Read([c] + s, after)
        }
    }
  }

  // ---------- values (sections 3 to 6), with no blanks between them ----------

  predicate InNumber(c: char) {
    c in "0123456789+-.eE"
  }

  function NumberLength(text: string): (n: nat)
    ensures n <= |text|
  {
    if |text| > 0 && InNumber(text[0]) then 1 + NumberLength(text[1..]) else 0
  }

  function ReadWord(text: string, word: string, v: Json): (r: Reading<Json>)
    requires |word| > 0
    ensures r.Read? ==> |r.rest| < |text|
  {
    if word <= text then Read(v, text[|word|..]) else Malformed
  }

  function ReadValue(text: string): (r: Reading<Json>)
    ensures r.Read? ==> |r.rest| < |text|
    decreases |text|, 0
  {
    if |text| == 0 then Malformed
    else match text[0] {
      case 'n' => ReadWord(text, "null", Null)
      case 't' => ReadWord(text, "true", Bool(true))
      case 'f' => ReadWord(text, "false", Bool(false))
      case '"' => AsString(ReadChars(text[1..]))
      case '[' => AsArray(ReadArray(text[1..]))
      case '{' => AsObject(ReadObject(text[1..]))
      case c => if c == '-' || '0' <= c <= '9' then ReadNumber(text) else Malformed
    }
  }

  function ReadNumber(text: string): (r: Reading<Json>)
    ensures r.Read? && |text| > 0 && InNumber(text[0]) ==> |r.rest| < |text|
  {
    Read(Number(text[..NumberLength(text)]), text[NumberLength(text)..])
  }

  function AsString(r: Reading<string>): Reading<Json> {
    match r case Malformed => Malformed case Read(chars, rest) => Read(String(chars), rest)
  }

  function AsArray(r: Reading<seq<Json>>): Reading<Json> {
    match r case Malformed => Malformed case Read(items, rest) => Read(Array(items), rest)
  }

  function AsObject(r: Reading<seq<Entry>>): Reading<Json> {
    match r case Malformed => Malformed case Read(entries, rest) => Read(Object(entries), rest)
  }

  /** What follows the opening bracket. */
  function ReadArray(text: string): (r: Reading<seq<Json>>)
    ensures r.Read? ==> |r.rest| < |text|
    decreases |text|, 2
  {
    if |text| > 0 && text[0] == ']' then Read([], text[1..]) else ReadItems(text)
  }

  /** One item or more, up to the closing bracket. */
  function ReadItems(text: string): (r: Reading<seq<Json>>)
    ensures r.Read? ==> |r.rest| < |text|
    decreases |text|, 1
  {
    match ReadValue(text)
    case Malformed => Malformed
    case Read(v, rest) =>
      if |rest| == 0 then Malformed
      else if rest[0] == ']' then Read([v], rest[1..])
      else if rest[0] != ',' then Malformed
      else match ReadItems(rest[1..]) {
        case Malformed => Malformed
        case Read(more, after) => Read([v] + more, after)
      }
  }

  /** What follows the opening brace. */
  function ReadObject(text: string): (r: Reading<seq<Entry>>)
    ensures r.Read? ==> |r.rest| < |text|
    decreases |text|, 3
  {
    if |text| > 0 && text[0] == '}' then Read([], text[1..]) else ReadEntries(text)
  }

  /** One entry: a string, a colon and a value. */
  function ReadEntry(text: string): (r: Reading<Entry>)
    ensures r.Read? ==> |r.rest| < |text|
    decreases |text|, 1
  {
    if |text| == 0 || text[0] != '"' then Malformed
    else match ReadChars(text[1..]) {
      case Malformed => Malformed
      case Read(key, rest) =>
        if |rest| == 0 || rest[0] != ':' then Malformed
        else match ReadValue(rest[1..]) {
          case Malformed => Malformed
          case Read(v, after) => Read(Entry(key, v), after)
        }
    }
  }

  /** One entry or more, up to the closing brace. */
  function ReadEntries(text: string): (r: Reading<seq<Entry>>)
    ensures r.Read? ==> |r.rest| < |text|
    decreases |text|, 2
  {
    match ReadEntry(text)
    case Malformed => Malformed
    case Read(e, rest) =>
      if |rest| == 0 then Malformed
      else if rest[0] == '}' then Read([e], rest[1..])
      else if rest[0] != ',' then Malformed
      else match ReadEntries(rest[1..]) {
        case Malformed => Malformed
        case Read(more, after) => Read([e] + more, after)
      }
  }

  // ---------- strings read back ----------

  lemma DigitReads(n: nat)
    requires n < 16
    ensures HexValue(HEX[n]) == n
  {
  }

  lemma EscapedReads(c: char, rest: string)
    ensures ReadChar(Escaped(c) + rest) == Read(c, rest)
  {
    var text := Escaped(c) + rest;
    assert text[0] == Escaped(c)[0];
    assert text[|Escaped(c)|..] == rest;
    if |Escaped(c)| == 2 {
      assert text[1..][0] == Escaped(c)[1] && text[1..][1..] == rest;
    } else if |Escaped(c)| == 6 {
      DigitReads(c as int / 16);
      DigitReads(c as int % 16);
      var code := text[1..][1..];
      assert text[1..][0] == 'u';
      assert code[0] == '0' && code[1] == '0' && code[2] == HEX[c as int / 16] && code[3] == HEX[c as int % 16];
      assert code[4..] == rest;
    }
  }

  lemma EscapedLength(c: char)
    ensures |Escaped(c)| == if c < ' ' && c !in "\n\r\t" + [8 as char, 12 as char] then 6 else if c < ' ' || c in "\"\\" then 2 else 1
  {
  }

  lemma EscapedIsSmall(c: char)
    ensures forall d | d in Escaped(c) && 'A' <= d <= 'F' :: d == c
  {
    if |Escaped(c)| == 6 {
      HexIsSmall(c as int / 16);
      HexIsSmall(c as int % 16);
    }
  }

  lemma HexIsSmall(n: nat)
    requires n < 16
    ensures !('A' <= HEX[n] <= 'F')
  {
  }

  lemma ShortReading(c: char, text: string)
    requires ReadChar(text) == Read(c, "")
    ensures |text| == 1 ==> c >= ' ' && c !in "\"\\"
    ensures 1 < |text| < 6 ==> c in "\n\r\t\"\\/" + [8 as char, 12 as char]
    ensures |text| > 0
  {
    hide ReadCode;
  }

  /** Nothing shorter reads as the character, and a code is written in small letters. */
  lemma EscapedIsShortest(c: char, text: string)
    requires ReadChar(text) == Read(c, "")
    ensures |Escaped(c)| <= |text|
    ensures forall d | d in Escaped(c) && 'A' <= d <= 'F' :: d == c
  {
    hide Escaped, ReadChar;
    EscapedLength(c);
    EscapedIsSmall(c);
    ShortReading(c, text);
  }

  lemma {:induction false} QuotedReads(s: string, rest: string)
    ensures ReadChars(EscapedAll(s) + "\"" + rest) == Read(s, rest)
  {
    hide Escaped, ReadChar;
    OpensWithQuote(s, rest);
    if |s| == 0 {
      assert (EscapedAll(s) + "\"" + rest)[1..] == rest;
    } else {
      EscapedReads(s[0], EscapedAll(s[1..]) + "\"" + rest);
      QuotedReads(s[1..], rest);
      assert [s[0]] + s[1..] == s;
    }
  }

  // ---------- values read back ----------

  lemma NumberCharReads(c: char)
    ensures NumberChar(c) ==> InNumber(c)
    ensures c in ",]}" ==> !InNumber(c)
  {
  }

  lemma {:induction false} NumberReads(text: string, rest: string)
    requires Delimited(rest) && forall c | c in text :: NumberChar(c)
    ensures NumberLength(text + rest) == |text|
  {
    hide NumberChar, InNumber;
    if |text| > 0 {
      assert (text + rest)[1..] == text[1..] + rest;
      assert text[0] in text;
      NumberCharReads(text[0]);
      NumberReads(text[1..], rest);
    } else {
      assert text + rest == rest;
      if |rest| > 0 { NumberCharReads(rest[0]); }
    }
  }

  /** The entries of every object are in ascending order of their keys. */
  ghost predicate Ascends(collation: string -> seq<int>, v: Json) {
    match v
    case Array(items) => forall i | 0 <= i < |items| :: Ascends(collation, items[i])
    case Object(entries) =>
      && (forall i, j | 0 <= i < j < |entries| :: !KeyLess(collation(entries[j].key), collation(entries[i].key)))
      && forall i | 0 <= i < |entries| :: Ascends(collation, entries[i].value)
    case _ => true
  }

  ghost predicate AllAscend(collation: string -> seq<int>, values: seq<Json>) {
    forall i | 0 <= i < |values| :: Ascends(collation, values[i])
  }

  lemma WordReads(word: string, v: Json, rest: string)
    requires |word| > 0
    ensures ReadWord(word + rest, word, v) == Read(v, rest)
  {
    assert (word + rest)[|word|..] == rest;
  }

  lemma NumberValueReads(text: string, rest: string)
    requires NumberText(text) && Delimited(rest)
    ensures ReadValue(text + rest) == Read(Number(text), rest)
  {
    hide NumberChar, InNumber, Delimited, NumberLength;
    NumberReads(text, rest);
    assert (text + rest)[..|text|] == text && (text + rest)[|text|..] == rest;
  }

  lemma StringValueReads(chars: string, rest: string)
    ensures ReadValue(Quote(chars) + rest) == Read(String(chars), rest)
  {
    hide EscapedAll, ReadChars;
    Unquoted(chars, rest);
    QuotedReads(chars, rest);
  }

  /** What the serializer prints reads back as the value with the entries of every object in ascending order of their keys, whatever
      delimiter follows. */
  lemma {:induction false} ReadsBack(collation: string -> seq<int>, v: Json, rest: string) returns (w: Json)
    requires IsJson(v) && Delimited(rest)
    ensures ReadValue(Stable(collation, v) + rest) == Read(w, rest)
    ensures Same(v, w) && Ascends(collation, w)
    decreases v, 1, 0
  {
    hide Delimited, ReadWord;
    w := v;
    match v
    case Null => WordReads("null", v, rest);
    case Bool(b) => WordReads(if b then "true" else "false", v, rest);
    case Number(text) => NumberValueReads(text, rest);
    case String(chars) => StringValueReads(chars, rest);
    case Array(items) => w := ArrayReads(collation, v, rest);
    case Object(entries) => w := ObjectReads(collation, v, rest);
  }

  lemma {:induction false} ArrayReads(collation: string -> seq<int>, v: Json, rest: string) returns (w: Json)
    requires IsJson(v) && Delimited(rest) && v.Array?
    ensures ReadValue(Stable(collation, v) + rest) == Read(w, rest)
    ensures Same(v, w) && Ascends(collation, w)
    decreases v, 0, |v.items| + 1
  {
    hide Delimited, ReadItems, Items;
    StableParts(collation, v, rest);
    var items := ItemsRead(collation, v.items, v, rest);
    w := Array(items);
    SameItemsAreSame(v.items, items);
    hide Same, IsJson, Ascends;
    assert (Stable(collation, v) + rest)[0] == '[';
  }

  lemma ItemsReadOn(text: string, v: Json, tail: string, more: seq<Json>, rest: string)
    ensures ReadValue(text) == Read(v, "]" + rest) ==> ReadItems(text) == Read([v], rest)
    ensures ReadValue(text) == Read(v, "," + tail) && ReadItems(tail) == Read(more, rest) ==> ReadItems(text) == Read([v] + more, rest)
  {
    hide ReadValue;
    assert ("," + tail)[1..] == tail && ("]" + rest)[1..] == rest;
  }

  lemma CommaFirst(item: string, more: string, end: string, rest: string)
    ensures "," + item + more + end + rest == "," + ("" + item + more + end + rest)
  {
    assert "," + item + more + end + rest == "," + (item + more + end + rest);
    assert "" + item == item;
  }

  lemma ItemsTail(collation: string -> seq<int>, x: seq<Json>, whole: Json, rest: string)
    requires forall i | 0 <= i < |x| :: x[i] < whole
    ensures Items(collation, x, false, whole) + "]" + rest
      == if |x| == 0 then "]" + rest else "," + (Items(collation, x, true, whole) + "]" + rest)
  {
    hide Stable;
    if |x| == 0 {
      assert "" + "]" == "]";
    } else {
      var item, more := Stable(collation, x[0]), Items(collation, x[1..], false, whole);
      assert Items(collation, x, false, whole) == "," + item + more && Items(collation, x, true, whole) == "" + item + more;
      hide Items;
      CommaFirst(item, more, "]", rest);
    }
  }

  lemma {:induction false} ItemsRead(collation: string -> seq<int>, x: seq<Json>, whole: Json, rest: string) returns (y: seq<Json>)
    requires forall i | 0 <= i < |x| :: x[i] < whole && IsJson(x[i])
    ensures ReadArray(Items(collation, x, true, whole) + "]" + rest) == Read(y, rest)
    ensures |x| > 0 ==> ReadItems(Items(collation, x, true, whole) + "]" + rest) == Read(y, rest)
    ensures SameItems(x, y) && |x| == |y| && AllAscend(collation, y)
    decreases whole, 0, |x|
  {
    hide Stable, Same, IsJson, ReadValue, ReadItems, Ascends, Delimited;
    ItemsStart(collation, x, true, whole, rest);
    if |x| == 0 {
      y := [];
      assert (Items(collation, x, true, whole) + "]" + rest)[1..] == rest;
    } else {
      var text, after := Items(collation, x, true, whole) + "]" + rest, Items(collation, x[1..], false, whole) + "]" + rest;
      var tail := Items(collation, x[1..], true, whole) + "]" + rest;
      assert text == Stable(collation, x[0]) + after;
      ItemsTail(collation, x[1..], whole, rest);
      var first := ReadsBack(collation, x[0], after);
      var more := ItemsRead(collation, x[1..], whole, rest);
      y := [first] + more;
      assert |x| == 1 ==> y == [first];
      assert forall i | 1 <= i < |x| :: x[i] == x[1..][i - 1] && y[i] == more[i - 1];
      ItemsReadOn(text, first, tail, more, rest);
    }
  }

  lemma {:induction false} ObjectReads(collation: string -> seq<int>, v: Json, rest: string) returns (w: Json)
    requires IsJson(v) && Delimited(rest) && v.Object?
    ensures ReadValue(Stable(collation, v) + rest) == Read(w, rest)
    ensures Same(v, w) && Ascends(collation, w)
    decreases v, 0, |v.entries| + 1
  {
    hide Delimited, ReadObject, Entries, Sorted, SamePairs, Same, KeyLess, DistinctKeys, Listed;
    var sorted := Sorted(collation, v.entries);
    StableParts(collation, v, rest);
    SortedAreJson(collation, v);
    var entries := EntriesRead(collation, sorted, v, rest);
    w := Object(entries);
    PairsOfSorted(collation, v.entries, entries);
    PairsAscend(collation, v.entries, entries);
    hide IsJson, Ascends;
    assert (Stable(collation, v) + rest)[0] == '{';
  }

  lemma PairsOfSorted(collation: string -> seq<int>, x: seq<Entry>, y: seq<Entry>)
    requires SamePairs(Sorted(collation, x), y)
    ensures Same(Object(x), Object(y))
  {
    var xs := Sorted(collation, x);
    SameContents(x, xs);
    hide Same, Sorted;
    forall i | 0 <= i < |x| ensures Occurs(x[i], y) {
      assert x[i] in xs;
      var k :| 0 <= k < |xs| && xs[k] == x[i];
    }
    SameObjects(x, y);
  }

  lemma PairsAscend(collation: string -> seq<int>, x: seq<Entry>, y: seq<Entry>)
    requires SamePairs(Sorted(collation, x), y) && AllAscend(collation, Values(y))
    ensures Ascends(collation, Object(y))
  {
    hide Same, KeyLess;
    SortBySorts(x, EntryKey(collation));
    var xs := Sorted(collation, x);
    hide SortBy;
    forall i, j | 0 <= i < j < |y| ensures !KeyLess(collation(y[j].key), collation(y[i].key)) {
      assert !KeyLess(EntryKey(collation)(xs[j]), EntryKey(collation)(xs[i]));
    }
    forall i | 0 <= i < |y| ensures Ascends(collation, y[i].value) {
      assert Values(y)[i] == y[i].value;
    }
  }

  lemma EntryReads(key: string, text: string)
    ensures ReadEntry(Quote(key) + (":" + text)) == match ReadValue(text) case Malformed => Malformed case Read(v, after) => Read(Entry(key, v), after)
  {
    hide ReadValue, ReadChars, EscapedAll;
    Unquoted(key, ":" + text);
    QuotedReads(key, ":" + text);
    assert (":" + text)[1..] == text;
    QuoteOpens(key);
  }

  lemma EntriesReadOn(text: string, e: Entry, tail: string, more: seq<Entry>, rest: string)
    ensures ReadEntry(text) == Read(e, "}" + rest) ==> ReadEntries(text) == Read([e], rest)
    ensures ReadEntry(text) == Read(e, "," + tail) && ReadEntries(tail) == Read(more, rest) ==> ReadEntries(text) == Read([e] + more, rest)
  {
    hide ReadEntry;
    assert ("," + tail)[1..] == tail && ("}" + rest)[1..] == rest;
  }

  lemma OneMorePair(collation: string -> seq<int>, x: seq<Entry>, e: Entry, more: seq<Entry>)
    requires |x| > 0 && x[0].key == e.key && Same(x[0].value, e.value) && SamePairs(x[1..], more)
    requires Ascends(collation, e.value) && AllAscend(collation, Values(more))
    ensures SamePairs(x, [e] + more) && AllAscend(collation, Values([e] + more))
  {
    hide Same, Ascends;
    assert forall i | 1 <= i < |x| :: x[i] == x[1..][i - 1] && ([e] + more)[i] == more[i - 1];
    assert forall i | 1 <= i < |x| :: Values([e] + more)[i] == Values(more)[i - 1];
  }

  lemma EntriesTail(collation: string -> seq<int>, x: seq<Entry>, whole: Json, rest: string)
    requires forall i | 0 <= i < |x| :: x[i].value < whole
    ensures Entries(collation, x, false, whole) + "}" + rest
      == if |x| == 0 then "}" + rest else "," + (Entries(collation, x, true, whole) + "}" + rest)
  {
    hide Stable, Quote;
    if |x| == 0 {
      assert "" + "}" == "}";
    } else {
      var entry, more := Quote(x[0].key), ":" + Stable(collation, x[0].value) + Entries(collation, x[1..], false, whole);
      EntriesUnfold(collation, x, false, whole);
      EntriesUnfold(collation, x, true, whole);
      hide Entries;
      CommaFirst(entry, more, "}", rest);
    }
  }

  lemma {:induction false} EntriesRead(collation: string -> seq<int>, x: seq<Entry>, whole: Json, rest: string) returns (y: seq<Entry>)
    requires forall i | 0 <= i < |x| :: x[i].value < whole && IsJson(x[i].value)
    ensures ReadObject(Entries(collation, x, true, whole) + "}" + rest) == Read(y, rest)
    ensures |x| > 0 ==> ReadEntries(Entries(collation, x, true, whole) + "}" + rest) == Read(y, rest)
    ensures SamePairs(x, y) && |x| == |y| && AllAscend(collation, Values(y))
    decreases whole, 0, |x|
  {
    hide Stable, Same, IsJson, ReadValue, ReadEntries, ReadEntry, Ascends, Quote, Delimited;
    EntriesStart(collation, x, true, whole, rest);
    if |x| == 0 {
      y := [];
    } else {
      var text, after := Entries(collation, x, true, whole) + "}" + rest, Entries(collation, x[1..], false, whole) + "}" + rest;
      var value := Stable(collation, x[0].value) + after;
      assert text == Quote(x[0].key) + (":" + value);
      EntryReads(x[0].key, value);
      var v := ReadsBack(collation, x[0].value, after);
      var more := EntriesRead(collation, x[1..], whole, rest);
      OneMorePair(collation, x, Entry(x[0].key, v), more);
      y := [Entry(x[0].key, v)] + more;
      var tail := Entries(collation, x[1..], true, whole) + "}" + rest;
      EntriesTail(collation, x[1..], whole, rest);
      assert |x| == 1 ==> y == [Entry(x[0].key, v)];
      EntriesReadOn(text, Entry(x[0].key, v), tail, more, rest);
    }
  }

  /** A whole text. */
  function ReadJson(text: string): Reading<Json> {
    match ReadValue(text)
    case Malformed => Malformed
    case Read(v, rest) => if rest == "" then Read(v, "") else Malformed
  }

  /** The round trip: canonical text reads back as an equal value that lists its keys in ascending order. */
  lemma CanonicalTextReadsBack(collation: string -> seq<int>, v: Json)
    requires IsJson(v)
    ensures var r := ReadJson(Stable(collation, v));
      r.Read? && Same(v, r.value) && Ascends(collation, r.value)
  {
    hide IsJson, Stable, Same, Ascends, ReadValue;
    var w := ReadsBack(collation, v, "");
    assert Stable(collation, v) + "" == Stable(collation, v);
  }
}
