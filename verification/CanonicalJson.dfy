/** The canonical serializer behind every plan and receipt hash, and why equal text means equal values. */
module CanonicalJson {
  import opened Collections
  import opened StableSorting

  /** A number is its JSON text, as JSON.stringify prints it. */
  datatype Json = Null | Bool(value: bool) | Number(text: string) | String(chars: string) | Array(items: seq<Json>) | Object(entries: seq<Entry>)

  datatype Entry = Entry(key: string, value: Json)

  const HEX := "0123456789abcdef"

  /** JSON.stringify on one character of a string. */
  function Escaped(c: char): string {
    if c == '"' then "\\\""
    else if c == '\\' then "\\\\"
    else if c == 8 as char then "\\b"
    else if c == 12 as char then "\\f"
    else if c == '\n' then "\\n"
    else if c == '\r' then "\\r"
    else if c == '\t' then "\\t"
    else if c < ' ' then "\\u00" + [HEX[c as int / 16], HEX[c as int % 16]]
    else [c]
  }

  function EscapedAll(s: string): string {
    if |s| == 0 then "" else Escaped(s[0]) + EscapedAll(s[1..])
  }

  function Quote(s: string): string {
    "\"" + EscapedAll(s) + "\""
  }

  /** localeCompare compares collation keys; which keys is the platform's business. */
  function EntryKey(collation: string -> seq<int>): Entry -> seq<int> {
    (e: Entry) => collation(e.key)
  }

  function Sorted(collation: string -> seq<int>, entries: seq<Entry>): (r: seq<Entry>)
    ensures |r| == |entries| && multiset(r) == multiset(entries)
  {
    SortBy(entries, EntryKey(collation))
  }

  lemma SortedAreSmaller(collation: string -> seq<int>, v: Json)
    requires v.Object?
    ensures forall i | 0 <= i < |v.entries| :: Sorted(collation, v.entries)[i].value < v
  {
    var sorted := Sorted(collation, v.entries);
    forall i | 0 <= i < |sorted| ensures sorted[i].value < v {
      assert sorted[i] in multiset(sorted);
      var j :| 0 <= j < |v.entries| && v.entries[j] == sorted[i];
      assert v.entries[j].value < v.entries[j];
    }
  }

  function Stable(collation: string -> seq<int>, v: Json): string
    decreases v, 1, 0
  {
    match v
    case Null => "null"
    case Bool(b) => if b then "true" else "false"
    case Number(text) => text
    case String(s) => Quote(s)
    case Array(items) => "[" + Items(collation, items, true, v) + "]"
    case Object(entries) =>
      SortedAreSmaller(collation, v);
      "{" + Entries(collation, Sorted(collation, entries), true, v) + "}"
  }

  function Separator(first: bool): string {
    if first then "" else ","
  }

  /** The items' texts, joined by commas. */
  function Items(collation: string -> seq<int>, items: seq<Json>, first: bool, ghost whole: Json): string
    requires forall i | 0 <= i < |items| :: items[i] < whole
    decreases whole, 0, |items|
  {
    if |items| == 0 then ""
    else Separator(first) + Stable(collation, items[0]) + Items(collation, items[1..], false, whole)
  }

  function Entries(collation: string -> seq<int>, entries: seq<Entry>, first: bool, ghost whole: Json): string
    requires forall i | 0 <= i < |entries| :: entries[i].value < whole
    decreases whole, 0, |entries|
  {
    if |entries| == 0 then ""
    else Separator(first) + Quote(entries[0].key) + ":" + Stable(collation, entries[0].value)
         + Entries(collation, entries[1..], false, whole)
  }

  // ---------- equality up to key order ----------

  predicate Same(a: Json, b: Json) {
    match (a, b)
    case (Array(x), Array(y)) => |x| == |y| && forall i | 0 <= i < |x| :: Same(x[i], y[i])
    case (Object(x), Object(y)) => |x| == |y| && forall i | 0 <= i < |x| :: Occurs(x[i], y)
    case _ => a == b
  }

  predicate Occurs(e: Entry, entries: seq<Entry>) {
    exists j | 0 <= j < |entries| :: e.key == entries[j].key && Same(e.value, entries[j].value)
  }

  predicate NumberChar(c: char) {
    '0' <= c <= '9' || c in "+-.e"
  }

  predicate NumberText(text: string) {
    |text| > 0 && (text[0] == '-' || '0' <= text[0] <= '9') && forall c | c in text :: NumberChar(c)
  }

  ghost predicate DistinctKeys(entries: seq<Entry>) {
    forall i, j | 0 <= i < j < |entries| :: entries[i].key != entries[j].key
  }

  /** Numerals in this order are in numeric order. */
  function NumeralKey(key: string): seq<int> {
    [|key|] + seq(|key|, i requires 0 <= i < |key| => key[i] as int)
  }

  const LAST_INDEX := "4294967294"

  /** A key that names an array element: a numeral without leading zeros, below 2^32 - 1. */
  predicate ArrayIndex(key: string) {
    && |key| > 0 && (forall c | c in key :: '0' <= c <= '9') && (key[0] != '0' || |key| == 1)
    && !KeyLess(NumeralKey(LAST_INDEX), NumeralKey(key))
  }

  function Keys(entries: seq<Entry>): (r: seq<string>)
    ensures |r| == |entries| && forall i | 0 <= i < |entries| :: r[i] == entries[i].key
  {
    seq(|entries|, i requires 0 <= i < |entries| => entries[i].key)
  }

  /** The order of Object.entries: array indexes first, ascending; other keys as they were inserted. */
  ghost predicate Listed(keys: seq<string>) {
    forall i, j | 0 <= i < j < |keys| && ArrayIndex(keys[j]) ::
      ArrayIndex(keys[i]) && KeyLess(NumeralKey(keys[i]), NumeralKey(keys[j]))
  }

  /** What JSON.parse gives: printed numbers, no key twice in an object, and entries in the order of Object.entries. */
  ghost predicate IsJson(v: Json) {
    match v
    case Number(text) => NumberText(text)
    case Array(items) => forall i | 0 <= i < |items| :: IsJson(items[i])
    case Object(entries) => DistinctKeys(entries) && Listed(Keys(entries)) && forall i | 0 <= i < |entries| :: IsJson(entries[i].value)
    case _ => true
  }

  /** The key order tells the keys that are listed as inserted apart. */
  ghost predicate KeysSeparated(collation: string -> seq<int>, keys: seq<string>) {
    forall i, j | 0 <= i < j < |keys| && !ArrayIndex(keys[i]) && !ArrayIndex(keys[j]) :: collation(keys[i]) != collation(keys[j])
  }

  /** ... in every object. */
  ghost predicate Separated(collation: string -> seq<int>, v: Json) {
    match v
    case Array(items) => forall i | 0 <= i < |items| :: Separated(collation, items[i])
    case Object(entries) => KeysSeparated(collation, Keys(entries)) && forall i | 0 <= i < |entries| :: Separated(collation, entries[i].value)
    case _ => true
  }

  // ---------- strings decode ----------

  lemma EscapedDecodes(c: char, d: char, s: string, t: string)
    requires Escaped(c) + s == Escaped(d) + t
    ensures c == d && s == t
  {
    var x, y := Escaped(c) + s, Escaped(d) + t;
    assert |Escaped(c)| > 0 && |Escaped(d)| > 0;
    assert x[0] == Escaped(c)[0] && y[0] == Escaped(d)[0];
    if |Escaped(c)| > 1 {
      assert x[0] == '\\' && x[1] == Escaped(c)[1];
      assert |Escaped(d)| > 1 && y[1] == Escaped(d)[1];
      if |Escaped(c)| > 2 {
        assert x[4] == Escaped(c)[4] && x[5] == Escaped(c)[5];
        assert |Escaped(d)| > 2;
        assert y[4] == Escaped(d)[4] && y[5] == Escaped(d)[5];
        HexDecodes(c as int, d as int);
      }
    }
    assert |Escaped(c)| == |Escaped(d)|;
    assert s == x[|Escaped(c)|..] && t == y[|Escaped(d)|..];
  }

  lemma HexDecodes(m: int, n: int)
    requires 0 <= m < 32 && 0 <= n < 32
    requires HEX[m / 16] == HEX[n / 16] && HEX[m % 16] == HEX[n % 16]
    ensures m == n
  {
    HexDigit(m / 16, n / 16);
    HexDigit(m % 16, n % 16);
  }

  lemma HexDigit(m: nat, n: nat)
    requires m < 16 && n < 16 && HEX[m] == HEX[n]
    ensures m == n
  {
  }

  lemma EscapedIsNoQuote(c: char)
    ensures |Escaped(c)| > 0 && Escaped(c)[0] != '"'
  {
  }

  lemma Regroup(a: string, b: string, rest: string, end: string, s: string)
    ensures a + b + rest + end + s == a + (b + (rest + end + s))
    ensures a + rest + end + s == a + (rest + end + s)
  {
  }

  lemma OpensWithQuote(a: string, s: string)
    ensures (EscapedAll(a) + "\"" + s)[0] == '"' <==> a == ""
    ensures |a| > 0 ==> EscapedAll(a) + "\"" + s == Escaped(a[0]) + (EscapedAll(a[1..]) + "\"" + s)
  {
    hide Escaped;
    if |a| > 0 {
      EscapedIsNoQuote(a[0]);
      Regroup(Escaped(a[0]), "", EscapedAll(a[1..]), "\"", s);
    }
  }

  lemma {:induction false} TextDecodes(a: string, b: string, s: string, t: string)
    requires EscapedAll(a) + "\"" + s == EscapedAll(b) + "\"" + t
    ensures a == b && s == t
  {
    hide Escaped;
    OpensWithQuote(a, s);
    OpensWithQuote(b, t);
    if |a| == 0 {
      assert s == (EscapedAll(a) + "\"" + s)[1..] && t == (EscapedAll(b) + "\"" + t)[1..];
    } else {
      EscapedDecodes(a[0], b[0], EscapedAll(a[1..]) + "\"" + s, EscapedAll(b[1..]) + "\"" + t);
      TextDecodes(a[1..], b[1..], s, t);
      assert a == [a[0]] + a[1..] && b == [b[0]] + b[1..];
    }
  }

  lemma Unquoted(a: string, s: string)
    ensures (Quote(a) + s)[1..] == EscapedAll(a) + "\"" + s
  {
  }

  lemma QuoteDecodes(a: string, b: string, s: string, t: string)
    requires Quote(a) + s == Quote(b) + t
    ensures a == b && s == t
  {
    hide EscapedAll;
    Unquoted(a, s);
    Unquoted(b, t);
    TextDecodes(a, b, s, t);
  }

  // ---------- values decode ----------

  /** What may follow a value. */
  predicate Delimited(rest: string) {
    |rest| == 0 || rest[0] in ",]}"
  }

  lemma LongerHoldsDelimiter(x: string, y: string, s: string, t: string)
    requires x + s == y + t && |x| < |y| && Delimited(s)
    ensures exists c :: c in y && !NumberChar(c)
  {
    assert |s| > 0 by { assert |x + s| == |y + t|; }
    assert y[|x|] == (y + t)[|x|] == (x + s)[|x|] == s[0];
    assert y[|x|] in y;
  }

  lemma NumberDecodes(x: string, y: string, s: string, t: string)
    requires NumberText(x) && NumberText(y) && Delimited(s) && Delimited(t)
    requires x + s == y + t
    ensures x == y && s == t
  {
    if |x| < |y| {
      LongerHoldsDelimiter(x, y, s, t);
      assert false;
    } else if |y| < |x| {
      LongerHoldsDelimiter(y, x, t, s);
      assert false;
    } else {
      assert x == (x + s)[..|x|] && y == (y + t)[..|y|];
      assert s == (x + s)[|x|..] && t == (y + t)[|y|..];
    }
  }

  /** The first character tells the kind of value. */
  function Initials(v: Json): string {
    match v
    case Null => "n"
    case Bool(b) => if b then "t" else "f"
    case Number(_) => "-0123456789"
    case String(_) => "\""
    case Array(_) => "["
    case Object(_) => "{"
  }

  lemma StartsWithInitial(collation: string -> seq<int>, v: Json)
    requires IsJson(v)
    ensures |Stable(collation, v)| > 0 && Stable(collation, v)[0] in Initials(v)
  {
  }

  lemma InitialsTellKind(a: Json, b: Json, c: char)
    requires c in Initials(a) && c in Initials(b)
    ensures a.Null? == b.Null? && a.Bool? == b.Bool? && a.Number? == b.Number?
    ensures a.String? == b.String? && a.Array? == b.Array? && a.Object? == b.Object?
    ensures a.Bool? ==> a == b
    ensures c !in ",]}"
  {
  }

  ghost predicate SamePairs(x: seq<Entry>, y: seq<Entry>) {
    |x| == |y| && forall i | 0 <= i < |x| :: x[i].key == y[i].key && Same(x[i].value, y[i].value)
  }

  ghost predicate SameItems(x: seq<Json>, y: seq<Json>) {
    |x| == |y| && forall i | 0 <= i < |x| :: Same(x[i], y[i])
  }

  function Values(entries: seq<Entry>): (r: seq<Json>)
    ensures |r| == |entries| && forall i | 0 <= i < |entries| :: r[i] == entries[i].value
  {
    seq(|entries|, i requires 0 <= i < |entries| => entries[i].value)
  }

  ghost predicate SameTexts(collation: string -> seq<int>, x: seq<Json>, y: seq<Json>) {
    |x| == |y| && forall i | 0 <= i < |x| :: Stable(collation, x[i]) == Stable(collation, y[i])
  }

  lemma CancelEnd(x: string, y: string, s: string)
    requires x + s == y + s
    ensures x == y
  {
    assert |x| == |y|;
    assert x == (x + s)[..|x|] && y == (y + s)[..|y|];
  }

  /** Pairing the sorted entries pairs the entries. */
  lemma SamePairsAreSame(collation: string -> seq<int>, x: seq<Entry>, y: seq<Entry>)
    requires SamePairs(Sorted(collation, x), Sorted(collation, y))
    ensures Same(Object(x), Object(y))
  {
    var xs, ys := Sorted(collation, x), Sorted(collation, y);
    SameContents(x, xs);
    SameContents(y, ys);
    hide Same, Sorted;
    forall i | 0 <= i < |x| ensures Occurs(x[i], y) {
      assert x[i] in xs;
      var k :| 0 <= k < |xs| && xs[k] == x[i];
      assert ys[k] in ys && ys[k] in y;
      var j :| 0 <= j < |y| && y[j] == ys[k];
    }
    SameObjects(x, y);
  }

  lemma SameObjects(x: seq<Entry>, y: seq<Entry>)
    ensures Same(Object(x), Object(y)) <==> |x| == |y| && forall i | 0 <= i < |x| :: Occurs(x[i], y)
  {
    hide Occurs;
  }

  lemma StableParts(collation: string -> seq<int>, v: Json, rest: string)
    ensures v.Number? ==> Stable(collation, v) + rest == v.text + rest
    ensures v.String? ==> Stable(collation, v) + rest == Quote(v.chars) + rest
    ensures v.Array? ==> (Stable(collation, v) + rest)[1..] == Items(collation, v.items, true, v) + "]" + rest
    ensures v.Object? ==>
      (forall i | 0 <= i < |v.entries| :: Sorted(collation, v.entries)[i].value < v)
      && (Stable(collation, v) + rest)[1..] == Entries(collation, Sorted(collation, v.entries), true, v) + "}" + rest
  {
    hide Sorted, Quote, Items, Entries;
    if v.Array? {
      Unwrapped("[", Items(collation, v.items, true, v), "]", rest);
    } else if v.Object? {
      SortedAreSmaller(collation, v);
      Unwrapped("{", Entries(collation, Sorted(collation, v.entries), true, v), "}", rest);
    }
  }

  lemma Unwrapped(start: string, body: string, end: string, rest: string)
    requires |start| == 1
    ensures (start + body + end + rest)[1..] == body + end + rest
  {
  }

  lemma SortedAreJson(collation: string -> seq<int>, v: Json)
    requires v.Object? && IsJson(v)
    ensures forall i | 0 <= i < |v.entries| :: IsJson(Sorted(collation, v.entries)[i].value)
  {
    var sorted := Sorted(collation, v.entries);
    SameContents(sorted, v.entries);
    forall i | 0 <= i < |sorted| ensures IsJson(sorted[i].value) {
      assert sorted[i] in v.entries;
    }
  }

  /** No two different values print alike, whatever follows them. */
  lemma {:induction false} Decodes(collation: string -> seq<int>, a: Json, b: Json, s: string, t: string)
    requires IsJson(a) && IsJson(b) && Delimited(s) && Delimited(t)
    requires Stable(collation, a) + s == Stable(collation, b) + t
    ensures Same(a, b) && s == t
    decreases a, 1, 0
  {
    hide Quote, Sorted, Delimited;
    StartsWithInitial(collation, a);
    StartsWithInitial(collation, b);
    InitialsTellKind(a, b, (Stable(collation, a) + s)[0]);
    StableParts(collation, a, s);
    StableParts(collation, b, t);
    if a.Array? {
      ItemsDecode(collation, a.items, b.items, true, a, b, s, t);
    } else if a.Object? {
      SortedAreJson(collation, a);
      SortedAreJson(collation, b);
      EntriesDecode(collation, Sorted(collation, a.entries), Sorted(collation, b.entries), true, a, b, s, t);
      SamePairsAreSame(collation, a.entries, b.entries);
    } else if a.Number? {
      NumberDecodes(a.text, b.text, s, t);
    } else if a.String? {
      QuoteDecodes(a.chars, b.chars, s, t);
    } else {
      assert s == (Stable(collation, a) + s)[|Stable(collation, a)|..];
      assert t == (Stable(collation, b) + t)[|Stable(collation, b)|..];
    }
  }

  lemma {:induction false} ItemsDecode(collation: string -> seq<int>, x: seq<Json>, y: seq<Json>, first: bool,
                                       wholeX: Json, wholeY: Json, s: string, t: string)
    requires (forall i | 0 <= i < |x| :: x[i] < wholeX && IsJson(x[i])) && forall i | 0 <= i < |y| :: y[i] < wholeY && IsJson(y[i])
    requires Items(collation, x, first, wholeX) + "]" + s == Items(collation, y, first, wholeY) + "]" + t
    ensures SameItems(x, y) && SameTexts(collation, x, y) && s == t
    decreases wholeX, 0, |x|
  {
    hide Stable, Same, IsJson;
    ItemsStart(collation, x, first, wholeX, s);
    ItemsStart(collation, y, first, wholeY, t);
    if |x| == 0 {
      assert s == (Items(collation, x, first, wholeX) + "]" + s)[1..] && t == (Items(collation, y, first, wholeY) + "]" + t)[1..];
    } else {
      var restX, restY := Items(collation, x[1..], false, wholeX) + "]" + s, Items(collation, y[1..], false, wholeY) + "]" + t;
      Decodes(collation, x[0], y[0], restX, restY);
      CancelEnd(Stable(collation, x[0]), Stable(collation, y[0]), restX);
      ItemsDecode(collation, x[1..], y[1..], false, wholeX, wholeY, s, t);
      assert forall i | 1 <= i < |x| :: x[i] == x[1..][i - 1] && y[i] == y[1..][i - 1];
    }
  }

  lemma AfterItem(collation: string -> seq<int>, x: seq<Json>, whole: Json, s: string)
    requires forall i | 0 <= i < |x| :: x[i] < whole
    ensures Delimited(Items(collation, x, false, whole) + "]" + s)
  {
    hide Stable;
  }

  lemma AfterEntry(collation: string -> seq<int>, x: seq<Entry>, whole: Json, s: string)
    requires forall i | 0 <= i < |x| :: x[i].value < whole
    ensures Delimited(Entries(collation, x, false, whole) + "}" + s)
  {
    hide Stable, Quote;
  }

  /** A list's text starts with its end mark only when it is empty; otherwise with a value and something delimited. */
  lemma ItemsStart(collation: string -> seq<int>, x: seq<Json>, first: bool, whole: Json, s: string)
    requires forall i | 0 <= i < |x| :: x[i] < whole && IsJson(x[i])
    ensures var text := Items(collation, x, first, whole) + "]" + s;
      && (text[0] == ']' <==> |x| == 0)
      && (|x| > 0 ==>
            var rest := Items(collation, x[1..], false, whole) + "]" + s;
            Delimited(rest) && text[|Separator(first)|..] == Stable(collation, x[0]) + rest)
  {
    hide Stable, Initials;
    if |x| > 0 {
      StartsWithInitial(collation, x[0]);
      InitialsTellKind(x[0], x[0], Stable(collation, x[0])[0]);
      Regroup(Separator(first), Stable(collation, x[0]), Items(collation, x[1..], false, whole), "]", s);
      AfterItem(collation, x[1..], whole, s);
    }
  }

  lemma {:induction false} EntriesDecode(collation: string -> seq<int>, x: seq<Entry>, y: seq<Entry>, first: bool,
                                         wholeX: Json, wholeY: Json, s: string, t: string)
    requires (forall i | 0 <= i < |x| :: x[i].value < wholeX && IsJson(x[i].value))
      && forall i | 0 <= i < |y| :: y[i].value < wholeY && IsJson(y[i].value)
    requires Entries(collation, x, first, wholeX) + "}" + s == Entries(collation, y, first, wholeY) + "}" + t
    ensures SamePairs(x, y) && SameTexts(collation, Values(x), Values(y)) && s == t
    decreases wholeX, 0, |x|
  {
    hide Stable, Same, IsJson, Quote, Entries, Delimited;
    EntriesStart(collation, x, first, wholeX, s);
    EntriesStart(collation, y, first, wholeY, t);
    if |x| > 0 {
      var restX, restY := Entries(collation, x[1..], false, wholeX) + "}" + s, Entries(collation, y[1..], false, wholeY) + "}" + t;
      var valueX, valueY := Stable(collation, x[0].value) + restX, Stable(collation, y[0].value) + restY;
      QuoteDecodes(x[0].key, y[0].key, ":" + valueX, ":" + valueY);
      assert valueX == (":" + valueX)[1..] && valueY == (":" + valueY)[1..];
      Decodes(collation, x[0].value, y[0].value, restX, restY);
      CancelEnd(Stable(collation, x[0].value), Stable(collation, y[0].value), restX);
      EntriesDecode(collation, x[1..], y[1..], false, wholeX, wholeY, s, t);
      assert forall i | 1 <= i < |x| :: x[i] == x[1..][i - 1] && y[i] == y[1..][i - 1];
    }
  }

  lemma QuoteOpens(key: string)
    ensures |Quote(key)| > 0 && Quote(key)[0] == '"'
  {
  }

  lemma EntriesUnfold(collation: string -> seq<int>, x: seq<Entry>, first: bool, whole: Json)
    requires |x| > 0 && forall i | 0 <= i < |x| :: x[i].value < whole
    ensures Entries(collation, x, first, whole)
      == Separator(first) + Quote(x[0].key) + (":" + Stable(collation, x[0].value) + Entries(collation, x[1..], false, whole))
  {
    hide Stable, Quote;
  }

  lemma EntriesStart(collation: string -> seq<int>, x: seq<Entry>, first: bool, whole: Json, s: string)
    requires forall i | 0 <= i < |x| :: x[i].value < whole && IsJson(x[i].value)
    ensures var text := Entries(collation, x, first, whole) + "}" + s;
      && (text[0] == '}' <==> |x| == 0) && (|x| == 0 ==> text[1..] == s)
      && (|x| > 0 ==>
            var rest := Entries(collation, x[1..], false, whole) + "}" + s;
            Delimited(rest)
            && text[|Separator(first)|..] == Quote(x[0].key) + (":" + (Stable(collation, x[0].value) + rest)))
  {
    hide Stable, Quote;
    if |x| > 0 {
      QuoteOpens(x[0].key);
      var rest := Entries(collation, x[1..], false, whole);
      Regroup(Separator(first), Quote(x[0].key), ":" + Stable(collation, x[0].value) + rest, "}", s);
      Regroup(":", Stable(collation, x[0].value), rest, "}", s);
      Regroup(Separator(first) + Quote(x[0].key), ":" + Stable(collation, x[0].value), rest, "}", s);
      EntriesUnfold(collation, x, first, whole);
      AfterEntry(collation, x[1..], whole, s);
    }
  }

  // ---------- equal values print alike ----------

  lemma KeysOneMore(entries: seq<Entry>, e: Entry)
    ensures Keys(entries + [e]) == Keys(entries) + [e.key]
  {
  }

  lemma {:induction false} InsertKeys(collation: string -> seq<int>, entries: seq<Entry>, e: Entry)
    ensures Keys(Insert(entries, e, EntryKey(collation))) == Insert(Keys(entries), e.key, collation)
  {
    hide Insert, KeyLess;
    InsertPlaces(entries, e, EntryKey(collation));
    InsertPlaces(Keys(entries), e.key, collation);
    KeysOneMore(entries, e);
    if |entries| > 0 {
      var before, last := entries[..|entries| - 1], entries[|entries| - 1];
      InsertKeys(collation, before, e);
      assert Keys(entries)[..|entries| - 1] == Keys(before);
      KeysOneMore(Insert(before, e, EntryKey(collation)), last);
    }
  }

  /** Sorting entries sorts their keys. */
  lemma {:induction false} SortedKeys(collation: string -> seq<int>, entries: seq<Entry>)
    ensures Keys(Sorted(collation, entries)) == SortBy(Keys(entries), collation)
  {
    hide Insert, KeyLess;
    if |entries| > 0 {
      var before, last := entries[..|entries| - 1], entries[|entries| - 1];
      SortedKeys(collation, before);
      assert Keys(entries)[..|entries| - 1] == Keys(before);
      InsertKeys(collation, Sorted(collation, before), last);
    }
  }

  /** Array indexes by value, then anything else. */
  function ListingKey(): string -> seq<int> {
    (key: string) => if ArrayIndex(key) then [0] + NumeralKey(key) else [1]
  }

  lemma {:induction false} FilterListed(keys: seq<string>, p: string -> bool)
    requires Listed(keys)
    ensures Listed(Filter(keys, p))
  {
    hide ArrayIndex, KeyLess, NumeralKey;
    if |keys| > 0 {
      var before := keys[..|keys| - 1];
      FilterListed(before, p);
      assert forall i | 0 <= i < |Filter(before, p)| :: Filter(before, p)[i] in before;
    }
  }

  lemma TiedKeysHaveIndex(collation: string -> seq<int>, keys: seq<string>, k: string, l: string)
    requires KeysSeparated(collation, keys) && k in keys && l in keys && k != l && collation(k) == collation(l)
    ensures ArrayIndex(k) || ArrayIndex(l)
  {
    hide ArrayIndex;
    var i :| 0 <= i < |keys| && keys[i] == k;
    var j :| 0 <= j < |keys| && keys[j] == l;
    assert i < j || j < i;
  }

  /** Of keys that collate alike at most one is no array index, so there is one way to list them. */
  lemma TiedKeysListed(collation: string -> seq<int>, keys: seq<string>, k: seq<int>)
    requires Listed(keys) && Distinct(keys) && KeysSeparated(collation, keys)
    ensures StrictlySorted(Filter(keys, HasKey(collation, k)), ListingKey())
  {
    FilterListed(keys, HasKey(collation, k));
    FilterDistinct(keys, HasKey(collation, k));
    var tied := Filter(keys, HasKey(collation, k));
    hide Filter, ArrayIndex, NumeralKey;
    forall i, j | 0 <= i < j < |tied| ensures KeyLess(ListingKey()(tied[i]), ListingKey()(tied[j])) {
      assert tied[i] in tied && tied[j] in tied;
      TiedKeysHaveIndex(collation, keys, tied[i], tied[j]);
      ListingKeyLess(tied[i], tied[j]);
    }
  }

  lemma ListingKeyLess(k: string, l: string)
    requires ArrayIndex(l) ==> ArrayIndex(k) && KeyLess(NumeralKey(k), NumeralKey(l))
    requires ArrayIndex(k) || ArrayIndex(l)
    ensures KeyLess(ListingKey()(k), ListingKey()(l))
  {
    hide ArrayIndex, NumeralKey;
    if ArrayIndex(l) {
      assert ([0] + NumeralKey(k))[1..] == NumeralKey(k) && ([0] + NumeralKey(l))[1..] == NumeralKey(l);
    }
  }

  /** The same keys sort alike, whatever order they were inserted in. */
  lemma SameKeysSortAlike(collation: string -> seq<int>, x: seq<string>, y: seq<string>)
    requires Listed(x) && Listed(y) && Distinct(x) && Distinct(y) && Elements(x) == Elements(y)
    requires KeysSeparated(collation, x) && KeysSeparated(collation, y)
    ensures SortBy(x, collation) == SortBy(y, collation)
  {
    hide Listed, Distinct, KeysSeparated, StrictlySorted, SortedBy, Filter, KeyLess, SortBy;
    forall k ensures Filter(SortBy(x, collation), HasKey(collation, k)) == Filter(SortBy(y, collation), HasKey(collation, k)) {
      SortIsStable(x, collation, k);
      SortIsStable(y, collation, k);
      TiedKeysListed(collation, x, k);
      TiedKeysListed(collation, y, k);
      FilterElements(x, y, HasKey(collation, k));
      StrictlySortedUnique(Filter(x, HasKey(collation, k)), Filter(y, HasKey(collation, k)), ListingKey());
    }
    SortBySorts(x, collation);
    SortBySorts(y, collation);
    SortedByClasses(SortBy(x, collation), SortBy(y, collation), collation);
  }

  lemma FilterElements<T>(x: seq<T>, y: seq<T>, p: T -> bool)
    requires Elements(x) == Elements(y)
    ensures Elements(Filter(x, p)) == Elements(Filter(y, p))
  {
    assert forall e :: e in x <==> e in Elements(x);
    assert forall e :: e in y <==> e in Elements(y);
  }

  lemma SameKeys(x: seq<Entry>, y: seq<Entry>)
    requires |x| == |y| && DistinctKeys(x) && DistinctKeys(y) && forall i | 0 <= i < |x| :: Occurs(x[i], y)
    ensures Elements(Keys(x)) == Elements(Keys(y))
  {
    hide Same;
    DistinctCardinality(Keys(x));
    DistinctCardinality(Keys(y));
    forall k | k in Elements(Keys(x)) ensures k in Elements(Keys(y)) {
      var i :| 0 <= i < |x| && x[i].key == k;
      assert Occurs(x[i], y);
      var j :| 0 <= j < |y| && x[i].key == y[j].key && Same(x[i].value, y[j].value);
      assert Keys(y)[j] == k;
    }
    SubsetCardinality(Elements(Keys(x)), Elements(Keys(y)));
  }

  /** Entries of equal objects with one key have equal values. */
  lemma PartnerOf(x: seq<Entry>, y: seq<Entry>, i: nat, j: nat)
    requires Same(Object(x), Object(y)) && DistinctKeys(y) && i < |x| && j < |y| && x[i].key == y[j].key
    ensures Same(x[i].value, y[j].value)
  {
    SameObjects(x, y);
    hide Same;
    assert Occurs(x[i], y);
    var k :| 0 <= k < |y| && x[i].key == y[k].key && Same(x[i].value, y[k].value);
  }

  lemma ObjectIsJson(x: seq<Entry>)
    requires IsJson(Object(x))
    ensures DistinctKeys(x) && Listed(Keys(x)) && Distinct(Keys(x))
  {
    hide ArrayIndex, NumeralKey;
  }

  /** Sorting lines up objects that are equal up to key order. */
  lemma SameObjectsSortAlike(collation: string -> seq<int>, x: seq<Entry>, y: seq<Entry>)
    requires Same(Object(x), Object(y)) && IsJson(Object(x)) && IsJson(Object(y))
    requires KeysSeparated(collation, Keys(x)) && KeysSeparated(collation, Keys(y))
    ensures SamePairs(Sorted(collation, x), Sorted(collation, y))
  {
    hide KeysSeparated, Listed, IsJson, Occurs, Sorted, SortBy, DistinctKeys;
    SameObjects(x, y);
    ObjectIsJson(x);
    ObjectIsJson(y);
    SortedKeys(collation, x);
    SortedKeys(collation, y);
    SameKeys(x, y);
    SameKeysSortAlike(collation, Keys(x), Keys(y));
    LinedUp(x, y, Sorted(collation, x), Sorted(collation, y));
  }

  lemma LinedUp(x: seq<Entry>, y: seq<Entry>, xs: seq<Entry>, ys: seq<Entry>)
    requires Same(Object(x), Object(y)) && DistinctKeys(y)
    requires multiset(xs) == multiset(x) && multiset(ys) == multiset(y) && Keys(xs) == Keys(ys)
    ensures SamePairs(xs, ys)
  {
    hide Same;
    SameContents(xs, x);
    SameContents(ys, y);
    forall i | 0 <= i < |xs| ensures xs[i].key == ys[i].key && Same(xs[i].value, ys[i].value) {
      assert xs[i].key == Keys(xs)[i] == Keys(ys)[i] == ys[i].key;
      assert xs[i] in x && ys[i] in y;
      var k :| 0 <= k < |x| && x[k] == xs[i];
      var l :| 0 <= l < |y| && y[l] == ys[i];
      PartnerOf(x, y, k, l);
    }
  }

  lemma {:induction false} ItemsPrintAlike(collation: string -> seq<int>, x: seq<Json>, y: seq<Json>, first: bool, wholeX: Json, wholeY: Json)
    requires |x| == |y| && forall i | 0 <= i < |x| ::
      x[i] < wholeX && y[i] < wholeY && Stable(collation, x[i]) == Stable(collation, y[i])
    ensures Items(collation, x, first, wholeX) == Items(collation, y, first, wholeY)
    decreases |x|
  {
    hide Stable;
    if |x| > 0 {
      ItemsPrintAlike(collation, x[1..], y[1..], false, wholeX, wholeY);
    }
  }

  lemma {:induction false} EntriesPrintAlike(collation: string -> seq<int>, x: seq<Entry>, y: seq<Entry>, first: bool, wholeX: Json, wholeY: Json)
    requires |x| == |y| && forall i | 0 <= i < |x| ::
      x[i].value < wholeX && y[i].value < wholeY && x[i].key == y[i].key
      && Stable(collation, x[i].value) == Stable(collation, y[i].value)
    ensures Entries(collation, x, first, wholeX) == Entries(collation, y, first, wholeY)
    decreases |x|
  {
    hide Stable, Quote;
    if |x| > 0 {
      EntriesPrintAlike(collation, x[1..], y[1..], false, wholeX, wholeY);
    }
  }

  lemma SortedAreSeparated(collation: string -> seq<int>, v: Json)
    requires v.Object? && Separated(collation, v)
    ensures forall i | 0 <= i < |v.entries| :: Separated(collation, Sorted(collation, v.entries)[i].value)
  {
    var sorted := Sorted(collation, v.entries);
    SameContents(sorted, v.entries);
    forall i | 0 <= i < |sorted| ensures Separated(collation, sorted[i].value) {
      assert sorted[i] in v.entries;
    }
  }

  lemma {:induction false} PrintsAlike(collation: string -> seq<int>, a: Json, b: Json)
    requires IsJson(a) && IsJson(b) && Same(a, b) && Separated(collation, a) && Separated(collation, b)
    ensures Stable(collation, a) == Stable(collation, b)
    decreases a
  {
    if a.Array? {
      hide Stable;
      forall i | 0 <= i < |a.items| ensures Stable(collation, a.items[i]) == Stable(collation, b.items[i]) {
        PrintsAlike(collation, a.items[i], b.items[i]);
      }
      ItemsPrintAlike(collation, a.items, b.items, true, a, b);
      ArrayText(collation, a);
      ArrayText(collation, b);
    } else if a.Object? {
      hide Stable, Sorted;
      SameObjectsSortAlike(collation, a.entries, b.entries);
      var x, y := Sorted(collation, a.entries), Sorted(collation, b.entries);
      SortedAreSmaller(collation, a);
      SortedAreSmaller(collation, b);
      SortedAreSeparated(collation, a);
      SortedAreSeparated(collation, b);
      SortedAreJson(collation, a);
      SortedAreJson(collation, b);
      forall i | 0 <= i < |x| ensures Stable(collation, x[i].value) == Stable(collation, y[i].value) {
        PrintsAlike(collation, x[i].value, y[i].value);
      }
      EntriesPrintAlike(collation, x, y, true, a, b);
      ObjectText(collation, a);
      ObjectText(collation, b);
    }
  }

  lemma ArrayText(collation: string -> seq<int>, v: Json)
    requires v.Array?
    ensures Stable(collation, v) == "[" + Items(collation, v.items, true, v) + "]"
  {
  }

  lemma ObjectText(collation: string -> seq<int>, v: Json)
    requires v.Object?
    ensures forall i | 0 <= i < |v.entries| :: Sorted(collation, v.entries)[i].value < v
    ensures Stable(collation, v) == "{" + Entries(collation, Sorted(collation, v.entries), true, v) + "}"
  {
    SortedAreSmaller(collation, v);
  }

  /** Faithful: where the key order tells a's keys apart, a value prints like a exactly when it is equal up to key order. */
  lemma SerializerIsFaithful(collation: string -> seq<int>, a: Json, b: Json)
    requires IsJson(a) && IsJson(b) && Separated(collation, a)
    ensures Stable(collation, a) == Stable(collation, b) <==> Same(a, b)
  {
    hide Stable, Same, IsJson, Separated;
    if Stable(collation, a) == Stable(collation, b) {
      Decodes(collation, a, b, "", "");
    }
    if Same(a, b) {
      SameKeepsSeparated(collation, a, b);
      PrintsAlike(collation, a, b);
    }
  }

  /** Whatever the key order, equal text means equal values: a hash input is never ambiguous. */
  lemma EqualTextMeansEqualValue(collation: string -> seq<int>, a: Json, b: Json)
    requires IsJson(a) && IsJson(b) && Stable(collation, a) == Stable(collation, b)
    ensures Same(a, b)
  {
    hide Stable, Same, IsJson;
    Decodes(collation, a, b, "", "");
  }

  lemma EqualObjectsPairUp(collation: string -> seq<int>, x: seq<Entry>, y: seq<Entry>)
    requires IsJson(Object(x)) && IsJson(Object(y)) && Stable(collation, Object(x)) == Stable(collation, Object(y))
    ensures SamePairs(Sorted(collation, x), Sorted(collation, y))
    ensures SameTexts(collation, Values(Sorted(collation, x)), Values(Sorted(collation, y)))
  {
    hide Sorted;
    StableParts(collation, Object(x), "");
    StableParts(collation, Object(y), "");
    SortedAreJson(collation, Object(x));
    SortedAreJson(collation, Object(y));
    hide Stable;
    EntriesDecode(collation, Sorted(collation, x), Sorted(collation, y), true, Object(x), Object(y), "", "");
  }

  // ---------- exactly when the text is canonical ----------

  lemma {:induction false} SameIsReflexive(v: Json)
    ensures Same(v, v)
  {
    match v
    case Array(items) =>
      forall i | 0 <= i < |items| ensures Same(items[i], items[i]) {
        SameIsReflexive(items[i]);
      }
    case Object(entries) =>
      forall i | 0 <= i < |entries| ensures Occurs(entries[i], entries) {
        SameIsReflexive(entries[i].value);
      }
    case _ =>
  }

  lemma SeparatedKeys(collation: string -> seq<int>, x: seq<string>, y: seq<string>)
    requires Elements(x) == Elements(y) && Distinct(y) && KeysSeparated(collation, x)
    ensures KeysSeparated(collation, y)
  {
    hide ArrayIndex;
    forall i, j | 0 <= i < j < |y| && !ArrayIndex(y[i]) && !ArrayIndex(y[j]) ensures collation(y[i]) != collation(y[j]) {
      assert y[i] in Elements(x) && y[j] in Elements(x);
      if collation(y[i]) == collation(y[j]) {
        TiedKeysHaveIndex(collation, x, y[i], y[j]);
        assert false;
      }
    }
  }

  /** Whether keys are told apart does not depend on their order. */
  lemma {:induction false} SameKeepsSeparated(collation: string -> seq<int>, a: Json, b: Json)
    requires IsJson(a) && IsJson(b) && Same(a, b) && Separated(collation, a)
    ensures Separated(collation, b)
    decreases a
  {
    if a.Array? {
      hide Listed, KeysSeparated;
      forall i | 0 <= i < |b.items| ensures Separated(collation, b.items[i]) {
        SameKeepsSeparated(collation, a.items[i], b.items[i]);
      }
    } else if a.Object? {
      var x, y := a.entries, b.entries;
      SameObjects(x, y);
      ObjectIsJson(x);
      ObjectIsJson(y);
      hide Listed, KeysSeparated, Same, Occurs;
      SameKeys(x, y);
      SeparatedKeys(collation, Keys(x), Keys(y));
      forall j | 0 <= j < |y| ensures Separated(collation, y[j].value) {
        assert Keys(y)[j] in Elements(Keys(x));
        var i :| 0 <= i < |x| && Keys(x)[i] == y[j].key;
        PartnerOf(x, y, i, j);
        SameKeepsSeparated(collation, x[i].value, y[j].value);
      }
    }
  }

  /** Entry j moved up to position i. */
  function Moved(x: seq<Entry>, i: nat, j: nat): (r: seq<Entry>)
    requires i < j < |x|
  {
    x[..i] + [x[j]] + x[i..j] + x[j + 1..]
  }

  function Origin(i: nat, j: nat, m: nat): nat
    requires i < j
  {
    if m < i || m > j then m else if m == i then j else m - 1
  }

  lemma MovedAt(x: seq<Entry>, i: nat, j: nat)
    requires i < j < |x|
    ensures |Moved(x, i, j)| == |x|
    ensures forall m: nat | m < |x| :: Moved(x, i, j)[m] == x[Origin(i, j, m)]
  {
  }

  lemma MovedIsJson(x: seq<Entry>, i: nat, j: nat)
    requires IsJson(Object(x)) && i < j < |x| && !ArrayIndex(x[i].key)
    ensures IsJson(Object(Moved(x, i, j)))
  {
    hide ArrayIndex, NumeralKey, Moved;
    var y := Moved(x, i, j);
    MovedAt(x, i, j);
    assert forall m | 0 <= m < |x| :: Keys(x)[m] == x[m].key;
    forall m, n | 0 <= m < n < |y| && ArrayIndex(Keys(y)[n])
      ensures ArrayIndex(Keys(y)[m]) && KeyLess(NumeralKey(Keys(y)[m]), NumeralKey(Keys(y)[n]))
    {
      assert n < i;
      assert Keys(y)[m] == Keys(x)[m] && Keys(y)[n] == Keys(x)[n];
    }
  }

  lemma MovedIsSame(x: seq<Entry>, i: nat, j: nat)
    requires i < j < |x|
    ensures Same(Object(x), Object(Moved(x, i, j)))
  {
    var y := Moved(x, i, j);
    MovedAt(x, i, j);
    hide Moved, Same;
    forall m | 0 <= m < |x| ensures Occurs(x[m], y) {
      var n := if m < i || m > j then m else if m == j then i else m + 1;
      assert y[n] == x[m];
      SameIsReflexive(x[m].value);
    }
    SameObjects(x, y);
  }

  /** Moving an entry up before another one that ties with it shows in the text. */
  lemma MovedPrintsOtherwise(collation: string -> seq<int>, x: seq<Entry>, i: nat, j: nat)
    requires i < j < |x| && collation(x[i].key) == collation(x[j].key)
    requires IsJson(Object(x)) && IsJson(Object(Moved(x, i, j)))
    ensures Stable(collation, Object(x)) != Stable(collation, Object(Moved(x, i, j)))
  {
    if Stable(collation, Object(x)) == Stable(collation, Object(Moved(x, i, j))) {
      ObjectIsJson(x);
      hide IsJson, Stable, Sorted, SamePairs, Moved, SortBy;
      EqualObjectsPairUp(collation, x, Moved(x, i, j));
      PairedKeys(Sorted(collation, x), Sorted(collation, Moved(x, i, j)));
      SortedKeys(collation, x);
      SortedKeys(collation, Moved(x, i, j));
      SortIsStable(Keys(x), collation, collation(x[i].key));
      SortIsStable(Keys(Moved(x, i, j)), collation, collation(x[i].key));
      MovedKeys(x, i, j);
      TiedOrderShows(Keys(x)[..i], Keys(x)[i], Keys(x)[i + 1..j], Keys(x)[j], Keys(x)[j + 1..], HasKey(collation, collation(x[i].key)));
      assert false;
    }
  }

  lemma PairedKeys(x: seq<Entry>, y: seq<Entry>)
    requires SamePairs(x, y)
    ensures Keys(x) == Keys(y)
  {
  }

  lemma MovedKeys(x: seq<Entry>, i: nat, j: nat)
    requires i < j < |x|
    ensures var k := Keys(x);
      && k == k[..i] + [k[i]] + k[i + 1..j] + [k[j]] + k[j + 1..]
      && Keys(Moved(x, i, j)) == k[..i] + [k[j]] + ([k[i]] + k[i + 1..j]) + k[j + 1..]
  {
  }

  lemma TiedOrderShows<T>(before: seq<T>, a: T, between: seq<T>, b: T, after: seq<T>, p: T -> bool)
    requires p(a) && p(b) && a != b
    ensures Filter(before + [a] + between + [b] + after, p) != Filter(before + [b] + ([a] + between) + after, p)
  {
    var rest, rest' := between + [b] + after, [a] + between + after;
    assert before + [a] + between + [b] + after == before + [a] + rest;
    assert before + [b] + ([a] + between) + after == before + [b] + rest';
    FilterAppend(before + [a], rest, p);
    FilterAppend(before + [b], rest', p);
    FilterOneMore(before, a, p);
    FilterOneMore(before, b, p);
    hide Filter;
    var m := |Filter(before, p)|;
    assert Filter(before + [a] + rest, p)[m] == a && Filter(before + [b] + rest', p)[m] == b;
  }

  ghost predicate IsTwin(collation: string -> seq<int>, a: Json, b: Json) {
    IsJson(b) && Same(a, b) && Stable(collation, a) != Stable(collation, b)
  }

  lemma ItemTwin(collation: string -> seq<int>, items: seq<Json>, i: nat, item: Json)
    requires IsJson(Array(items)) && i < |items| && IsTwin(collation, items[i], item)
    ensures IsTwin(collation, Array(items), Array(items[i := item]))
  {
    var other := items[i := item];
    forall j | 0 <= j < |items| ensures Same(items[j], other[j]) {
      SameIsReflexive(items[j]);
    }
    hide Same;
    SameItemsAreSame(items, other);
    if Stable(collation, Array(items)) == Stable(collation, Array(other)) {
      StableParts(collation, Array(items), "");
      StableParts(collation, Array(other), "");
      hide Stable;
      ItemsDecode(collation, items, other, true, Array(items), Array(other), "", "");
      assert false;
    }
  }

  lemma SameItemsAreSame(x: seq<Json>, y: seq<Json>)
    requires SameItems(x, y)
    ensures Same(Array(x), Array(y))
  {
  }

  lemma EntryTwin(collation: string -> seq<int>, x: seq<Entry>, i: nat, value: Json)
    requires IsJson(Object(x)) && i < |x| && IsTwin(collation, x[i].value, value)
    ensures IsTwin(collation, Object(x), Object(x[i := Entry(x[i].key, value)]))
  {
    hide IsJson, Same, Stable, Sorted;
    var y := x[i := Entry(x[i].key, value)];
    ReplacedIsJson(x, i, value);
    ReplacedIsSame(x, i, value);
    if Stable(collation, Object(x)) == Stable(collation, Object(y)) {
      EqualObjectsPairUp(collation, x, y);
      ObjectIsJson(x);
      ReplacedText(collation, x, y, Sorted(collation, x), Sorted(collation, y), i);
      assert false;
    }
  }

  lemma ReplacedIsJson(x: seq<Entry>, i: nat, value: Json)
    requires IsJson(Object(x)) && i < |x| && IsJson(value)
    ensures IsJson(Object(x[i := Entry(x[i].key, value)]))
  {
    hide Listed;
    assert Keys(x[i := Entry(x[i].key, value)]) == Keys(x);
  }

  lemma ReplacedIsSame(x: seq<Entry>, i: nat, value: Json)
    requires i < |x| && Same(x[i].value, value)
    ensures Same(Object(x), Object(x[i := Entry(x[i].key, value)]))
  {
    var y := x[i := Entry(x[i].key, value)];
    forall m | 0 <= m < |x| ensures Occurs(x[m], y) {
      SameIsReflexive(x[m].value);
      assert x[m].key == y[m].key;
    }
    hide Occurs;
    SameObjects(x, y);
  }

  /** Equal texts of the sorted entries are equal texts of the entries with one key. */
  lemma ReplacedText(collation: string -> seq<int>, x: seq<Entry>, y: seq<Entry>, xs: seq<Entry>, ys: seq<Entry>, i: nat)
    requires |x| == |y| && i < |x| && DistinctKeys(x) && forall m | 0 <= m < |x| :: x[m].key == y[m].key
    requires multiset(xs) == multiset(x) && multiset(ys) == multiset(y)
    requires SamePairs(xs, ys) && SameTexts(collation, Values(xs), Values(ys))
    ensures Stable(collation, x[i].value) == Stable(collation, y[i].value)
  {
    hide Stable, Same;
    SameContents(xs, x);
    SameContents(ys, y);
    assert x[i] in xs;
    var m :| 0 <= m < |xs| && xs[m] == x[i];
    assert ys[m] in ys && ys[m] in y;
    var n :| 0 <= n < |y| && y[n] == ys[m];
    assert n == i;
    assert Values(xs)[m] == x[i].value && Values(ys)[m] == y[i].value;
  }

  /** If some object ties two keys that are listed as inserted, an equal value prints differently. */
  lemma {:induction false} TiedHasTwin(collation: string -> seq<int>, a: Json) returns (b: Json)
    requires IsJson(a) && !Separated(collation, a)
    ensures IsTwin(collation, a, b)
  {
    hide Stable, Same, ArrayIndex, Listed;
    match a
    case Array(items) =>
      var i :| 0 <= i < |items| && !Separated(collation, items[i]);
      var item := TiedHasTwin(collation, items[i]);
      hide IsTwin;
      ItemTwin(collation, items, i, item);
      b := Array(items[i := item]);
    case Object(entries) =>
      if !KeysSeparated(collation, Keys(entries)) {
        var keys := Keys(entries);
        var i, j :| 0 <= i < j < |keys| && !ArrayIndex(keys[i]) && !ArrayIndex(keys[j]) && collation(keys[i]) == collation(keys[j]);
        hide IsJson;
        MovedIsJson(entries, i, j);
        MovedIsSame(entries, i, j);
        MovedPrintsOtherwise(collation, entries, i, j);
        b := Object(Moved(entries, i, j));
      } else {
        var i :| 0 <= i < |entries| && !Separated(collation, entries[i].value);
        var value := TiedHasTwin(collation, entries[i].value);
        hide IsTwin;
        EntryTwin(collation, entries, i, value);
        b := Object(entries[i := Entry(entries[i].key, value)]);
      }
    case _ => assert false;
  }

  /** Values that are equal to a print like a. */
  ghost predicate PrintsCanonically(collation: string -> seq<int>, a: Json) {
    forall b :: IsJson(b) && Same(a, b) ==> Stable(collation, a) == Stable(collation, b)
  }

  lemma TwinIsNotCanonical(collation: string -> seq<int>, a: Json, b: Json)
    requires IsTwin(collation, a, b)
    ensures !PrintsCanonically(collation, a)
  {
  }

  /** The exact condition, for every value: all equal values print alike exactly when the key order tells the keys apart that are
      listed as inserted. */
  lemma CanonicalExactlyWhenSeparated(collation: string -> seq<int>, a: Json)
    requires IsJson(a)
    ensures PrintsCanonically(collation, a) <==> Separated(collation, a)
  {
    hide IsJson, Same, Stable, Separated;
    if Separated(collation, a) {
      forall b | IsJson(b) && Same(a, b) ensures Stable(collation, a) == Stable(collation, b) {
        SameKeepsSeparated(collation, a, b);
        PrintsAlike(collation, a, b);
      }
    } else {
      hide PrintsCanonically;
      var b := TiedHasTwin(collation, a);
      TwinIsNotCanonical(collation, a, b);
    }
  }

  function Pair(k: string, l: string): seq<Entry> {
    [Entry(k, Null), Entry(l, Null)]
  }

  lemma PairIsJson(k: string, l: string)
    requires k != l && !ArrayIndex(l)
    ensures IsJson(Object(Pair(k, l)))
  {
    hide ArrayIndex;
    assert Keys(Pair(k, l)) == [k, l];
  }

  /** If the key order ties two different keys, equal objects can print differently: the text then depends on insertion order. */
  lemma TiedKeysBreakCanonicity(collation: string -> seq<int>, k: string, l: string)
    requires k != l && collation(k) == collation(l) && !ArrayIndex(k) && !ArrayIndex(l)
    ensures var a, b := Object(Pair(k, l)), Object(Pair(l, k));
      IsJson(a) && IsJson(b) && Same(a, b) && Stable(collation, a) != Stable(collation, b)
  {
    hide ArrayIndex, Stable;
    PairIsJson(k, l);
    PairIsJson(l, k);
    assert Moved(Pair(k, l), 0, 1) == Pair(l, k);
    hide IsJson, Moved;
    MovedIsSame(Pair(k, l), 0, 1);
    MovedPrintsOtherwise(collation, Pair(k, l), 0, 1);
  }

  lemma {:induction false} InjectiveSeparates(collation: string -> seq<int>, v: Json)
    requires IsJson(v) && forall k, l | !ArrayIndex(k) && !ArrayIndex(l) && collation(k) == collation(l) :: k == l
    ensures Separated(collation, v)
  {
    hide ArrayIndex, Listed;
    match v
    case Array(items) =>
      forall i | 0 <= i < |items| ensures Separated(collation, items[i]) {
        InjectiveSeparates(collation, items[i]);
      }
    case Object(entries) =>
      forall i | 0 <= i < |entries| ensures Separated(collation, entries[i].value) {
        InjectiveSeparates(collation, entries[i].value);
      }
    case _ =>
  }

  /** The exact condition for all values together. */
  lemma AllCanonicalExactly(collation: string -> seq<int>)
    ensures (forall a | IsJson(a) :: PrintsCanonically(collation, a))
      <==> forall k, l | !ArrayIndex(k) && !ArrayIndex(l) && collation(k) == collation(l) :: k == l
  {
    hide IsJson, Same, Stable, Separated, ArrayIndex, PrintsCanonically;
    if forall k, l | !ArrayIndex(k) && !ArrayIndex(l) && collation(k) == collation(l) :: k == l {
      forall a | IsJson(a) ensures PrintsCanonically(collation, a) {
        InjectiveSeparates(collation, a);
        CanonicalExactlyWhenSeparated(collation, a);
      }
    } else {
      var k, l :| !ArrayIndex(k) && !ArrayIndex(l) && collation(k) == collation(l) && k != l;
      TiedKeysBreakCanonicity(collation, k, l);
      TwinIsNotCanonical(collation, Object(Pair(k, l)), Object(Pair(l, k)));
    }
  }
}
