/** A reader of JSON text after `serde_json::from_str`: the grammar of RFC 8259, a counter of open
    arrays and objects, and objects kept as sorted maps. */
module JsonReader {
  import opened Strings
  import opened SortedMap
  import opened Options
  import opened Json
  import opened JsonCanonical

  /** The reader starts with this many levels and refuses to open the container that uses up the
      last one. */
  const RECURSION_LIMIT := 128

  predicate IsSpace(c: char) {
    c == ' ' || c == '\t' || c == '\n' || c == '\r'
  }

  function SkipSpace(s: string): (r: string)
    ensures |r| <= |s|
  {
    if s != [] && IsSpace(s[0]) then SkipSpace(s[1..]) else s
  }

  function DropSpace(s: string): string {
    if s != [] && IsSpace(s[|s| - 1]) then DropSpace(s[..|s| - 1]) else s
  }

  /** The rest of a text behind a fixed beginning. */
  function Expect(s: string, p: string): (r: Option<string>)
    ensures r.Some? ==> s == p + r.value
  {
    if p <= s then Some(s[|p|..]) else None
  }

  // ----- Strings -----

  function HexValue(c: char): (r: Option<nat>)
    ensures r.Some? ==> r.value < 16
  {
    if '0' <= c <= '9' then Some(c as int - '0' as int)
    else if 'a' <= c <= 'f' then Some(c as int - 'a' as int + 10)
    else if 'A' <= c <= 'F' then Some(c as int - 'A' as int + 10)
    else None
  }

  /** Four hexadecimal digits. */
  function ReadHex4(s: string): (r: Option<(nat, string)>)
    ensures r.Some? ==> r.value.0 < 0x10000 && |r.value.1| < |s|
  {
    if |s| < 4 then None
    else
      var a :- HexValue(s[0]);
      var b :- HexValue(s[1]);
      var c :- HexValue(s[2]);
      var d :- HexValue(s[3]);
      Some((((a * 16 + b) * 16 + c) * 16 + d, s[4..]))
  }

  /** What follows `\\u`: one scalar value, or a pair of surrogates. */
  function ReadUnicode(s: string): (r: Option<(char, string)>)
    ensures r.Some? ==> |r.value.1| < |s|
  {
    var (n, rest) :- ReadHex4(s);
    if 0xD800 <= n < 0xDC00 then
      var low :- Expect(rest, "\\u");
      var (m, tail) :- ReadHex4(low);
      if 0xDC00 <= m < 0xE000 then
        Some(((0x10000 + (n - 0xD800) * 0x400 + (m - 0xDC00)) as char, tail))
      else None
    else if 0xDC00 <= n < 0xE000 then None
    else Some((n as char, rest))
  }

  /** What follows a backslash. */
  function ReadEscape(s: string): (r: Option<(char, string)>)
    ensures r.Some? ==> |r.value.1| < |s|
  {
    if s == [] then None
    else
      match s[0]
      case '\"' => Some(('\"', s[1..]))
      case '\\' => Some(('\\', s[1..]))
      case '/' => Some(('/', s[1..]))
      case 'b' => Some(('\U{8}', s[1..]))
      case 'f' => Some(('\U{C}', s[1..]))
      case 'n' => Some(('\n', s[1..]))
      case 'r' => Some(('\r', s[1..]))
      case 't' => Some(('\t', s[1..]))
      case 'u' => ReadUnicode(s[1..])
      case _ => None
  }

  /** The characters up to the closing quote. */
  function ReadString(s: string): (r: Option<(string, string)>)
    ensures r.Some? ==> |r.value.1| < |s|
    decreases |s|
  {
    if s == [] || s[0] < ' ' then None
    else if s[0] == '\"' then Some(([], s[1..]))
    else
      var (c, rest) :- if s[0] == '\\' then ReadEscape(s[1..]) else Some((s[0], s[1..]));
      var (tail, end) :- ReadString(rest);
      Some(([c] + tail, end))
  }

  // ----- Numbers -----

  function DigitRun(s: string): (n: nat)
    ensures n <= |s|
    ensures forall i :: 0 <= i < n ==> IsDigit(s[i])
    ensures n < |s| ==> !IsDigit(s[n])
  {
    if s == [] || !IsDigit(s[0]) then 0 else 1 + DigitRun(s[1..])
  }

  /** Where a number that has used up `n` characters ends if a fraction and an exponent follow. */
  function NumberEnd(s: string, n: nat): (r: Option<nat>)
    requires n <= |s|
    ensures r.Some? ==> n <= r.value <= |s|
  {
    if n < |s| && s[n] == '.' then
      var d := DigitRun(s[n + 1..]);
      if d == 0 then None else ExponentEnd(s, n + 1 + d)
    else ExponentEnd(s, n)
  }

  function ExponentEnd(s: string, n: nat): (r: Option<nat>)
    requires n <= |s|
    ensures r.Some? ==> n <= r.value <= |s|
  {
    if n < |s| && (s[n] == 'e' || s[n] == 'E') then
      var m := if n + 1 < |s| && (s[n + 1] == '+' || s[n + 1] == '-') then n + 2 else n + 1;
      var d := DigitRun(s[m..]);
      if d == 0 then None else Some(m + d)
    else Some(n)
  }

  function ToNumber(negative: bool, digits: string, whole: bool, text: string): Value {
    var n := if negative then -NatValue(digits) else NatValue(digits);
    if whole && !(negative && n == 0) && LEAST_INTEGER <= n <= GREATEST_INTEGER then Int(n) else Float(text)
  }

  /** A number: an integer when it is written as one and fits, and its text otherwise. */
  function ReadNumber(s: string): (r: Option<(Value, string)>)
    ensures r.Some? ==> |r.value.1| < |s|
  {
    var sign := if s != [] && s[0] == '-' then 1 else 0;
    var digits := DigitRun(s[sign..]);
    if digits == 0 || (digits > 1 && s[sign] == '0') then None
    else
      var n := sign + digits;
      var end :- NumberEnd(s, n);
      Some((ToNumber(sign == 1, s[sign..n], end == n, s[..end]), s[end..]))
  }

  // ----- Values -----

  /** One value, with the levels that remain to be opened. */
  function ReadValue(text: string, remaining: nat): (r: Option<(Value, string)>)
    ensures r.Some? ==> |r.value.1| < |text|
    decreases |text|, 1
  {
    var s := SkipSpace(text);
    if s == [] then None
    else if s[0] == 'n' then
      var rest :- Expect(s, "null");
      Some((Null, rest))
    else if s[0] == 't' then
      var rest :- Expect(s, "true");
      Some((Bool(true), rest))
    else if s[0] == 'f' then
      var rest :- Expect(s, "false");
      Some((Bool(false), rest))
    else if s[0] == '\"' then
      var (str, rest) :- ReadString(s[1..]);
      Some((Str(str), rest))
    else if s[0] == '[' then
      if remaining <= 1 then None
      else
        var (items, rest) :- ReadItems(s[1..], true, remaining - 1);
        Some((Arr(items), rest))
    else if s[0] == '{' then
      if remaining <= 1 then None
      else
        var (fields, rest) :- ReadFields(s[1..], true, remaining - 1, []);
        Some((Obj(fields), rest))
    else ReadNumber(s)
  }

  /** The rest of an array. */
  function ReadItems(text: string, first: bool, remaining: nat): (r: Option<(seq<Value>, string)>)
    ensures r.Some? ==> |r.value.1| < |text|
    decreases |text|, 2
  {
    var s := SkipSpace(text);
    if s == [] then None
    else if s[0] == ']' then Some(([], s[1..]))
    else
      var item :- if first then Some(s) else Expect(s, ",");
      var (v, rest) :- ReadValue(item, remaining);
      var (items, end) :- ReadItems(rest, false, remaining);
      Some(([v] + items, end))
  }

  /** The rest of an object, behind the entries read so far. */
  function ReadFields(text: string, first: bool, remaining: nat, sorted: seq<Entry<Value>>)
    : (r: Option<(seq<Entry<Value>>, string)>)
    requires Sorted(sorted)
    ensures r.Some? ==> |r.value.1| < |text| && Sorted(r.value.0)
    decreases |text|, 2
  {
    var s := SkipSpace(text);
    if s == [] then None
    else if s[0] == '}' then Some((sorted, s[1..]))
    else
      var field :- if first then Some(s) else Expect(s, ",");
      var quoted :- Expect(SkipSpace(field), "\"");
      var (key, behind) :- ReadString(quoted);
      var colon :- Expect(SkipSpace(behind), ":");
      var (v, rest) :- ReadValue(colon, remaining);
      InsertSorted(sorted, key, v);
      ReadFields(rest, false, remaining, Insert(sorted, key, v))
  }

  /** One document: a value with nothing but space around it. */
  function Read(text: string): Option<Value> {
    var (v, rest) :- ReadValue(DropSpace(text), RECURSION_LIMIT);
    if rest == [] then Some(v) else None
  }

  // ----- What is printed is read back -----

  lemma HexDigitRead(i: nat)
    requires i < 16
    ensures HexValue(DIGITS[i]) == Some(i)
  {
  }

  lemma ControlRead(c: char, rest: string)
    requires c < ' '
    ensures ReadUnicode("00" + [DIGITS[c as int / 16], DIGITS[c as int % 16]] + rest) == Some((c, rest))
  {
    var high, low := c as int / 16, c as int % 16;
    HexDigitRead(high);
    HexDigitRead(low);
    var s := "00" + [DIGITS[high], DIGITS[low]] + rest;
    assert s[2] == DIGITS[high] && s[3] == DIGITS[low] && s[4..] == rest;
  }

  lemma ShortEscapeRead(c: char, rest: string)
    requires |EscapeChar(c)| == 2
    ensures EscapeChar(c)[0] == '\\' && ReadEscape([EscapeChar(c)[1]] + rest) == Some((c, rest))
  {
    assert ([EscapeChar(c)[1]] + rest)[1..] == rest;
  }

  lemma LongEscapeRead(c: char, rest: string)
    requires |EscapeChar(c)| > 2
    ensures EscapeChar(c)[0] == '\\' && ReadEscape(EscapeChar(c)[1..] + rest) == Some((c, rest))
  {
    ControlRead(c, rest);
    var s := EscapeChar(c)[1..] + rest;
    assert s[0] == 'u' && s[1..] == "00" + [DIGITS[c as int / 16], DIGITS[c as int % 16]] + rest;
  }

  lemma EscapeRead(c: char, rest: string)
    ensures var s := EscapeChar(c) + rest;
      if s[0] == '\\' then ReadEscape(s[1..]) == Some((c, rest)) else s[0] == c && s[1..] == rest
  {
    var e := EscapeChar(c);
    var s := e + rest;
    assert s[0] == e[0] && s[1..] == e[1..] + rest;
    if |e| == 2 {
      assert e[1..] == [e[1]];
      ShortEscapeRead(c, rest);
    } else if |e| > 2 {
      LongEscapeRead(c, rest);
    } else {
      assert e == [c] && e[1..] + rest == rest;
    }
  }

  lemma {:induction false} QuotedRead(s: string, rest: string)
    ensures ReadString(QuotedTo(s, rest)) == Some((s, rest))
  {
    if s == [] {
      assert ("\"" + rest)[1..] == rest;
    } else {
      EscapeRead(s[0], QuotedTo(s[1..], rest));
      EscapeStarts(s[0], QuotedTo(s[1..], rest));
      EscapeOneLine(s[0]);
      QuotedRead(s[1..], rest);
      assert s == [s[0]] + s[1..];
    }
  }

  /** What can follow a printed value. */
  predicate Ends(s: string) {
    s == [] || s[0] == ',' || s[0] == ']' || s[0] == '}'
  }

  lemma {:induction false} DigitRunIs(p: string, rest: string)
    requires forall i :: 0 <= i < |p| ==> IsDigit(p[i])
    requires Ends(rest)
    ensures DigitRun(p + rest) == |p|
  {
    if p == [] {
      assert p + rest == rest;
    } else {
      assert (p + rest)[1..] == p[1..] + rest;
      DigitRunIs(p[1..], rest);
    }
  }

  lemma PrintedNumber(n: int, text: string)
    requires LEAST_INTEGER <= n <= GREATEST_INTEGER
    ensures ToNumber(n < 0, PrintNat(if n < 0 then -n else n), true, text) == Int(n)
  {
    PrintNatReads(if n < 0 then -n else n);
  }

  lemma UnsignedRead(p: string, rest: string)
    requires p != [] && (|p| == 1 || p[0] != '0') && Ends(rest)
    requires forall i :: 0 <= i < |p| ==> IsDigit(p[i])
    ensures ReadNumber(p + rest) == Some((ToNumber(false, p, true, p), rest))
  {
    var s := p + rest;
    DigitRunIs(p, rest);
    assert s[0] == p[0] && s[0..] == s && s[0..|p|] == s[..|p|] == p && s[|p|..] == rest;
    assert |p| < |s| ==> s[|p|] == rest[0];
  }

  lemma SignedRead(p: string, rest: string)
    requires p != [] && (|p| == 1 || p[0] != '0') && Ends(rest)
    requires forall i :: 0 <= i < |p| ==> IsDigit(p[i])
    ensures ReadNumber("-" + (p + rest)) == Some((ToNumber(true, p, true, "-" + p), rest))
  {
    var s := "-" + (p + rest);
    DigitRunIs(p, rest);
    assert s[1..] == p + rest && s[1] == p[0] && s[1..1 + |p|] == p && s[1 + |p|..] == rest;
    assert s[..1 + |p|] == "-" + p;
    assert 1 + |p| < |s| ==> s[1 + |p|] == rest[0];
  }

  lemma IntRead(n: int, rest: string)
    requires LEAST_INTEGER <= n <= GREATEST_INTEGER && Ends(rest)
    ensures ReadNumber(PrintIntTo(n, rest)) == Some((Int(n), rest))
  {
    var m := if n < 0 then -n else n;
    PrintNatReads(m);
    NoLeadingZero(m);
    if n < 0 {
      SignedRead(PrintNat(m), rest);
      PrintedNumber(n, "-" + PrintNat(m));
    } else {
      UnsignedRead(PrintNat(m), rest);
      PrintedNumber(n, PrintNat(m));
    }
  }

  lemma NoSpaceAhead(v: Value, rest: string)
    requires IntegersOnly(v)
    ensures SkipSpace(PrintTo(v, rest)) == PrintTo(v, rest) != []
  {
    PrintStarts(v, rest);
  }

  lemma ExpectAt(p: string, rest: string)
    ensures Expect(p + rest, p) == Some(rest)
  {
    assert (p + rest)[|p|..] == rest;
  }

  lemma ItemsEnd(items: seq<Value>, rest: string)
    requires forall i :: 0 <= i < |items| ==> IntegersOnly(items[i])
    ensures Ends(PrintItemsTo(items, false, rest))
  {
    PrintItemsStarts(items, false, rest);
  }

  /** The result of reading a container whose contents were read. */
  function Reading<T>(fits: bool, x: Option<T>, rest: string): Option<(T, string)> {
    if fits && x.Some? then Some((x.value, rest)) else None
  }

  lemma ScalarRead(v: Value, rest: string, remaining: nat)
    requires IntegersOnly(v) && InRange(v) && Ends(rest) && !v.Arr? && !v.Obj? && remaining > 0
    ensures ReadValue(PrintTo(v, rest), remaining) == Reading(Depth(v) < remaining, Normalize(v), rest)
  {
    NoSpaceAhead(v, rest);
    PrintStarts(v, rest);
    if v.Int? {
      IntRead(v.n, rest);
    } else if v.Str? {
      QuotedRead(v.s, rest);
      CutFirst('\"', QuotedTo(v.s, rest));
    } else {
      ExpectAt(if v.Null? then "null" else if v.b then "true" else "false", rest);
    }
  }

  lemma CutFirst(c: char, s: string)
    ensures ([c] + s)[0] == c && ([c] + s)[1..] == s
  {
  }

  /** Opening an array takes one level. */
  lemma ArrayOpens(items: seq<Value>, rest: string, remaining: nat)
    requires remaining > 1 ==>
      ReadItems(PrintItemsTo(items, true, rest), true, remaining - 1)
      == Reading(ItemsDepth(items) < remaining - 1, NormalizeItems(items), rest)
    ensures ReadValue(PrintTo(Arr(items), rest), remaining)
      == Reading(Depth(Arr(items)) < remaining, Normalize(Arr(items)), rest)
  {
    var text := PrintTo(Arr(items), rest);
    CutFirst('[', PrintItemsTo(items, true, rest));
    assert SkipSpace(text) == text && text[0] == '[';
  }

  /** Opening an object takes one level. */
  lemma ObjectOpens(fields: seq<Entry<Value>>, rest: string, remaining: nat)
    requires remaining > 1 ==>
      ReadFields(PrintFieldsTo(fields, true, rest), true, remaining - 1, [])
      == Reading(FieldsDepth(fields) < remaining - 1, NormalizeFields(fields, []), rest)
    ensures ReadValue(PrintTo(Obj(fields), rest), remaining)
      == Reading(Depth(Obj(fields)) < remaining, Normalize(Obj(fields)), rest)
  {
    var text := PrintTo(Obj(fields), rest);
    CutFirst('{', PrintFieldsTo(fields, true, rest));
    assert SkipSpace(text) == text && text[0] == '{';
  }

  /** A printed value is read back, its objects sorted, exactly when it is not nested too deep. */
  lemma {:induction false} ValueRead(v: Value, rest: string, remaining: nat)
    requires IntegersOnly(v) && InRange(v) && Ends(rest) && remaining > 0
    ensures ReadValue(PrintTo(v, rest), remaining) == Reading(Depth(v) < remaining, Normalize(v), rest)
    decreases v
  {
    if v.Arr? {
      if remaining > 1 { ItemsRead(v.items, true, rest, remaining - 1); }
      ArrayOpens(v.items, rest, remaining);
      assert v == Arr(v.items);
    } else if v.Obj? {
      if remaining > 1 { FieldsRead(v.fields, true, rest, remaining - 1, []); }
      ObjectOpens(v.fields, rest, remaining);
      assert v == Obj(v.fields);
    } else {
      ScalarRead(v, rest, remaining);
    }
  }

  lemma {:induction false} ItemsRead(items: seq<Value>, first: bool, rest: string, remaining: nat)
    requires forall i :: 0 <= i < |items| ==> IntegersOnly(items[i]) && InRange(items[i])
    requires remaining > 0
    ensures ReadItems(PrintItemsTo(items, first, rest), first, remaining)
      == Reading(ItemsDepth(items) < remaining, NormalizeItems(items), rest)
    decreases items
  {
    PrintItemsStarts(items, first, rest);
    if items == [] {
      CutFirst(']', rest);
    } else {
      var more := PrintItemsTo(items[1..], false, rest);
      var text := PrintItemsTo(items, first, rest);
      assert SkipSpace(text) == text by { if first { NoSpaceAhead(items[0], more); } }
      ItemsEnd(items[1..], rest);
      if !first { ExpectAt(",", PrintTo(items[0], more)); }
      assert first ==> text == PrintTo(items[0], more);
      ValueRead(items[0], more, remaining);
      ItemsRead(items[1..], false, rest, remaining);
    }
  }

  /** The comma and the opening quote of a key. */
  lemma QuoteAhead(first: bool, q: string)
    ensures var s := (if first then "\"" else ",\"") + q;
      SkipSpace(s) == s && (if first then Some(s) else Expect(s, ",")) == Some("\"" + q)
    ensures SkipSpace("\"" + q) == "\"" + q && Expect("\"" + q, "\"") == Some(q)
  {
    ExpectAt("\"", q);
    if !first {
      assert ",\"" + q == "," + ("\"" + q);
      ExpectAt(",", "\"" + q);
    }
  }

  /** One key and one value are read, and the entry goes to its place. */
  lemma FieldStep(key: string, val: string, first: bool, remaining: nat, sorted: seq<Entry<Value>>)
    requires Sorted(sorted)
    ensures var text := (if first then "\"" else ",\"") + QuotedTo(key, ":" + val);
      ReadFields(text, first, remaining, sorted) ==
      var v := ReadValue(val, remaining);
      if v.None? then None
      else
        (InsertSorted(sorted, key, v.value.0);
         ReadFields(v.value.1, false, remaining, Insert(sorted, key, v.value.0)))
  {
    QuoteAhead(first, QuotedTo(key, ":" + val));
    QuotedRead(key, ":" + val);
    ExpectAt(":", val);
  }

  lemma {:induction false} FieldsRead(fields: seq<Entry<Value>>, first: bool, rest: string, remaining: nat,
      sorted: seq<Entry<Value>>)
    requires forall i :: 0 <= i < |fields| ==> IntegersOnly(fields[i].val) && InRange(fields[i].val)
    requires remaining > 0 && Sorted(sorted)
    ensures ReadFields(PrintFieldsTo(fields, first, rest), first, remaining, sorted)
      == Reading(FieldsDepth(fields) < remaining, NormalizeFields(fields, sorted), rest)
    decreases fields
  {
    PrintFieldsStarts(fields, first, rest);
    if fields == [] {
      CutFirst('}', rest);
    } else {
      var f, more := fields[0], PrintFieldsTo(fields[1..], false, rest);
      FieldStep(f.key, PrintTo(f.val, more), first, remaining, sorted);
      PrintFieldsStarts(fields[1..], false, rest);
      ValueRead(f.val, more, remaining);
      if Depth(f.val) < remaining && Normalize(f.val).Some? {
        InsertSorted(sorted, f.key, Normalize(f.val).value);
        FieldsRead(fields[1..], false, rest, remaining, Insert(sorted, f.key, Normalize(f.val).value));
      }
    }
  }

  // ----- Documents -----

  /** A text whose last character is no space. */
  predicate Visible(s: string) {
    s != [] && !IsSpace(s[|s| - 1])
  }

  lemma VisibleBehind(a: string, b: string)
    requires Visible(b)
    ensures Visible(a + b)
  {
  }

  lemma {:induction false} QuotedVisible(s: string, rest: string)
    requires rest == [] || Visible(rest)
    ensures Visible(QuotedTo(s, rest))
  {
    if s != [] {
      QuotedVisible(s[1..], rest);
      VisibleBehind(EscapeChar(s[0]), QuotedTo(s[1..], rest));
    }
  }

  lemma IntVisible(n: int, rest: string)
    requires rest == [] || Visible(rest)
    ensures Visible(PrintIntTo(n, rest))
  {
    var p := PrintNat(if n < 0 then -n else n);
    PrintNatReads(if n < 0 then -n else n);
    assert IsDigit(p[|p| - 1]);
    assert rest == [] ==> p + rest == p;
    VisibleBehind("-", p + rest);
  }

  lemma {:induction false} PrintVisible(v: Value, rest: string)
    requires IntegersOnly(v) && (rest == [] || Visible(rest))
    ensures Visible(PrintTo(v, rest))
    decreases v
  {
    match v
    case Null =>
    case Bool(_) =>
    case Int(n) => IntVisible(n, rest);
    case Str(s) =>
      QuotedVisible(s, rest);
      VisibleBehind("\"", QuotedTo(s, rest));
    case Arr(items) =>
      ItemsVisible(items, true, rest);
      VisibleBehind("[", PrintItemsTo(items, true, rest));
    case Obj(fields) =>
      FieldsVisible(fields, true, rest);
      VisibleBehind("{", PrintFieldsTo(fields, true, rest));
  }

  lemma {:induction false} ItemsVisible(items: seq<Value>, first: bool, rest: string)
    requires (rest == [] || Visible(rest)) && forall i :: 0 <= i < |items| ==> IntegersOnly(items[i])
    ensures Visible(PrintItemsTo(items, first, rest))
    decreases items
  {
    if items != [] {
      ItemsVisible(items[1..], false, rest);
      PrintVisible(items[0], PrintItemsTo(items[1..], false, rest));
    }
  }

  lemma {:induction false} FieldsVisible(fields: seq<Entry<Value>>, first: bool, rest: string)
    requires (rest == [] || Visible(rest)) && forall i :: 0 <= i < |fields| ==> IntegersOnly(fields[i].val)
    ensures Visible(PrintFieldsTo(fields, first, rest))
    decreases fields
  {
    if fields != [] {
      FieldsVisible(fields[1..], false, rest);
      var val := PrintTo(fields[0].val, PrintFieldsTo(fields[1..], false, rest));
      PrintVisible(fields[0].val, PrintFieldsTo(fields[1..], false, rest));
      VisibleBehind(":", val);
      QuotedVisible(fields[0].key, ":" + val);
    }
  }

  /** Printing and reading: an integer-only value comes back with its objects sorted exactly when
      at most 127 of its arrays and objects are nested in each other. */
  lemma PrintThenRead(v: Value)
    requires IntegersOnly(v) && InRange(v)
    ensures Read(Print(v)) == if Depth(v) < RECURSION_LIMIT then Normalize(v) else None
  {
    PrintVisible(v, "");
    ValueRead(v, "", RECURSION_LIMIT);
    FailsExactlyOnNonIntegers(v);
  }

  /** A carriage return behind a document is space. */
  lemma ReadIgnoresReturn(text: string)
    ensures Read(text + "\r") == Read(text)
  {
    assert (text + "\r")[..|text|] == text;
  }

  lemma {:induction false} SkipOnlySpace(s: string)
    requires forall i :: 0 <= i < |s| ==> IsWhitespace(s[i])
    ensures SkipSpace(s) == [] || IsWhitespace(SkipSpace(s)[0])
  {
    if s != [] && IsSpace(s[0]) {
      SkipOnlySpace(s[1..]);
    }
  }

  lemma {:induction false} TrimmedAway(s: string)
    requires TrimEnd(s) == []
    ensures forall i :: 0 <= i < |s| ==> IsWhitespace(s[i])
  {
    if s != [] {
      TrimmedAway(s[..|s| - 1]);
      assert s == s[..|s| - 1] + [s[|s| - 1]];
    }
  }

  lemma {:induction false} BlankIsSpace(s: string)
    requires Blank(s)
    ensures forall i :: 0 <= i < |s| ==> IsWhitespace(s[i])
  {
    if s != [] && IsWhitespace(s[0]) {
      BlankIsSpace(s[1..]);
      assert s == [s[0]] + s[1..];
    } else {
      TrimmedAway(s);
    }
  }

  lemma {:induction false} DropSpacePrefix(s: string)
    ensures DropSpace(s) <= s
  {
    if s != [] && IsSpace(s[|s| - 1]) {
      DropSpacePrefix(s[..|s| - 1]);
    }
  }

  /** A blank text is no document. */
  lemma BlankIsNoDocument(text: string)
    requires Blank(text)
    ensures Read(text) == None
  {
    BlankIsSpace(text);
    DropSpacePrefix(text);
    SkipOnlySpace(DropSpace(text));
  }

  lemma ReadObjectSorted(text: string)
    requires Read(text).Some? && Read(text).value.Obj?
    ensures Sorted(Read(text).value.fields)
  {
  }
}
