/** JSON values and the compact printer of serde_json. An object is the sequence of its fields
    in insertion order; its meaning is the finite map from keys to meanings. */
module Json {
  import opened Strings
  import opened SortedMap

  datatype Value =
    | Null
    | Bool(b: bool)
    | Int(n: int)            // a number serde_json holds as i64 or u64
    | Float(digits: string)  // any other number
    | Str(s: string)
    | Arr(items: seq<Value>)
    | Obj(fields: seq<Entry<Value>>)

  /** What a value says once key order is forgotten. */
  datatype Meaning =
    | MNull
    | MBool(b: bool)
    | MInt(n: int)
    | MFloat(digits: string)
    | MStr(s: string)
    | MArr(items: seq<Meaning>)
    | MObj(fields: map<string, Meaning>)

  ghost function Denote(v: Value): Meaning
    decreases v
  {
    match v
    case Null => MNull
    case Bool(b) => MBool(b)
    case Int(n) => MInt(n)
    case Float(d) => MFloat(d)
    case Str(s) => MStr(s)
    case Arr(items) => MArr(DenoteItems(items))
    case Obj(fields) => MObj(DenoteFields(fields))
  }

  ghost function DenoteItems(items: seq<Value>): (r: seq<Meaning>)
    ensures |r| == |items|
    decreases items
  {
    if items == [] then [] else [Denote(items[0])] + DenoteItems(items[1..])
  }

  ghost function DenoteFields(fields: seq<Entry<Value>>): map<string, Meaning>
    decreases fields
  {
    if fields == [] then map[]
    else map[fields[0].key := Denote(fields[0].val)] + DenoteFields(fields[1..])
  }

  /** Every number at every depth is an integer. */
  predicate IntegersOnly(v: Value)
    decreases v
  {
    match v
    case Float(_) => false
    case Arr(items) => forall i :: 0 <= i < |items| ==> IntegersOnly(items[i])
    case Obj(fields) => forall i :: 0 <= i < |fields| ==> IntegersOnly(fields[i].val)
    case _ => true
  }

  const LEAST_INTEGER := -0x8000_0000_0000_0000
  const GREATEST_INTEGER := 0xFFFF_FFFF_FFFF_FFFF

  /** Every integer at every depth is an i64 or a u64. */
  predicate InRange(v: Value)
    decreases v
  {
    match v
    case Int(n) => LEAST_INTEGER <= n <= GREATEST_INTEGER
    case Arr(items) => forall i :: 0 <= i < |items| ==> InRange(items[i])
    case Obj(fields) => forall i :: 0 <= i < |fields| ==> InRange(fields[i].val)
    case _ => true
  }

  function Max(a: nat, b: nat): nat {
    if a < b then b else a
  }

  /** How many arrays and objects are open at once when a value is written out. */
  function Depth(v: Value): nat
    decreases v
  {
    match v
    case Arr(items) => 1 + ItemsDepth(items)
    case Obj(fields) => 1 + FieldsDepth(fields)
    case _ => 0
  }

  function ItemsDepth(items: seq<Value>): nat
    decreases items
  {
    if items == [] then 0 else Max(Depth(items[0]), ItemsDepth(items[1..]))
  }

  function FieldsDepth(fields: seq<Entry<Value>>): nat
    decreases fields
  {
    if fields == [] then 0 else Max(Depth(fields[0].val), FieldsDepth(fields[1..]))
  }

  // ----- Printing -----

  // Each printer writes its value in front of the text that follows it.

  const DIGITS := "0123456789abcdef"

  function PrintNat(n: nat): string {
    if n < 10 then [DIGITS[n]] else PrintNat(n / 10) + [DIGITS[n % 10]]
  }

  function PrintIntTo(n: int, rest: string): string {
    if n < 0 then "-" + (PrintNat(-n) + rest) else PrintNat(n) + rest
  }

  /** The escapes of section 7 of RFC 8259 that serde_json emits. */
  function EscapeChar(c: char): string {
    if c == '\"' then "\\\""
    else if c == '\\' then "\\\\"
    else if c == '\U{8}' then "\\b"
    else if c == '\t' then "\\t"
    else if c == '\n' then "\\n"
    else if c == '\U{C}' then "\\f"
    else if c == '\r' then "\\r"
    else if c < ' ' then "\\u00" + [DIGITS[c as int / 16], DIGITS[c as int % 16]]
    else [c]
  }

  /** The characters of a string and its closing quote. */
  function QuotedTo(s: string, rest: string): string {
    if s == [] then "\"" + rest else EscapeChar(s[0]) + QuotedTo(s[1..], rest)
  }

  function PrintTo(v: Value, rest: string): string
    decreases v
  {
    match v
    case Null => "null" + rest
    case Bool(b) => (if b then "true" else "false") + rest
    case Int(n) => PrintIntTo(n, rest)
    case Float(d) => d + rest
    case Str(s) => "\"" + QuotedTo(s, rest)
    case Arr(items) => "[" + PrintItemsTo(items, true, rest)
    case Obj(fields) => "{" + PrintFieldsTo(fields, true, rest)
  }

  /** The rest of an array, its closing bracket included. */
  function PrintItemsTo(items: seq<Value>, first: bool, rest: string): string
    decreases items
  {
    if items == [] then "]" + rest
    else (if first then "" else ",") + PrintTo(items[0], PrintItemsTo(items[1..], false, rest))
  }

  /** The rest of an object, its closing brace included. */
  function PrintFieldsTo(fields: seq<Entry<Value>>, first: bool, rest: string): string
    decreases fields
  {
    if fields == [] then "}" + rest
    else
      (if first then "\"" else ",\"")
      + QuotedTo(fields[0].key, ":" + PrintTo(fields[0].val, PrintFieldsTo(fields[1..], false, rest)))
  }

  /** `serde_json::to_string`. */
  function Print(v: Value): string {
    PrintTo(v, "")
  }

  // ----- Printed text is uniquely readable -----

  predicate IsDigit(c: char) { '0' <= c <= '9' }

  /** A text that cannot prolong a number. */
  predicate Closes(s: string) {
    s == [] || !IsDigit(s[0])
  }

  function NatValue(s: string): int {
    if s == [] then 0 else 10 * NatValue(s[..|s| - 1]) + (s[|s| - 1] as int - '0' as int)
  }

  lemma {:induction false} PrintNatReads(n: nat)
    ensures PrintNat(n) != []
    ensures forall i :: 0 <= i < |PrintNat(n)| ==> IsDigit(PrintNat(n)[i])
    ensures NatValue(PrintNat(n)) == n
  {
    var d := DIGITS[n % 10];
    assert IsDigit(d) && d as int - '0' as int == n % 10;
    if n < 10 {
      assert PrintNat(n)[..0] == [];
      assert NatValue(PrintNat(n)) == 10 * NatValue([]) + n;
    } else {
      PrintNatReads(n / 10);
      assert PrintNat(n)[..|PrintNat(n)| - 1] == PrintNat(n / 10);
    }
  }

  lemma CutPrefix(p: string, x: string, y: string)
    requires p + x == p + y
    ensures x == y
  {
    assert x == (p + x)[|p|..];
    assert y == (p + y)[|p|..];
  }

  /** Two digit runs in front of texts that cannot prolong them have one length. */
  lemma DigitRunLength(p: string, q: string, s: string, t: string)
    requires forall i :: 0 <= i < |p| ==> IsDigit(p[i])
    requires Closes(t)
    requires p + s == q + t
    ensures |p| <= |q|
  {
    assert forall i :: 0 <= i < |p| ==> (p + s)[i] == p[i];
    assert t != [] ==> (q + t)[|q|] == t[0];
  }

  lemma PrintNatUnique(a: nat, b: nat, s: string, t: string)
    requires Closes(s) && Closes(t)
    requires PrintNat(a) + s == PrintNat(b) + t
    ensures a == b && s == t
  {
    var p, q := PrintNat(a), PrintNat(b);
    PrintNatReads(a);
    PrintNatReads(b);
    DigitRunLength(p, q, s, t);
    DigitRunLength(q, p, t, s);
    assert p == (p + s)[..|p|];
    assert q == (q + t)[..|q|];
    CutPrefix(p, s, t);
  }

  lemma PrintIntUnique(a: int, b: int, s: string, t: string)
    requires Closes(s) && Closes(t)
    requires PrintIntTo(a, s) == PrintIntTo(b, t)
    ensures a == b && s == t
  {
    var m: nat, n: nat := if a < 0 then -a else a, if b < 0 then -b else b;
    assert a < 0 <==> b < 0 by {
      PrintIntStarts(a, s);
      PrintIntStarts(b, t);
    }
    assert PrintNat(m) + s == PrintNat(n) + t by {
      if a < 0 {
        CutPrefix("-", PrintNat(m) + s, PrintNat(n) + t);
      }
    }
    PrintNatUnique(m, n, s, t);
  }

  lemma PrintIntStarts(n: int, rest: string)
    ensures PrintIntTo(n, rest) != []
    ensures var c := PrintIntTo(n, rest)[0]; if n < 0 then c == '-' else IsDigit(c)
  {
    PrintNatReads(if n < 0 then -n else n);
  }

  lemma EscapeUnique(c: char, d: char, s: string, t: string)
    requires EscapeChar(c) + s == EscapeChar(d) + t
    ensures c == d && s == t
  {
    var e, f := EscapeChar(c), EscapeChar(d);
    var x := e + s;
    assert x[0] == e[0] && x[0] == f[0];
    if |e| > 1 {
      assert x[1] == e[1] && x[1] == f[1];
      if |e| > 2 {
        assert x[4] == e[4] && x[4] == f[4];
        assert x[5] == e[5] && x[5] == f[5];
        HexUnique(c as int / 16, d as int / 16);
        HexUnique(c as int % 16, d as int % 16);
        assert c as int == d as int;
      }
    }
    CutPrefix(e, s, t);
  }

  lemma HexUnique(i: int, j: int)
    requires 0 <= i < 16 && 0 <= j < 16 && DIGITS[i] == DIGITS[j]
    ensures i == j
  {
  }

  lemma EscapeStarts(c: char, rest: string)
    ensures EscapeChar(c) != [] && (EscapeChar(c) + rest)[0] == EscapeChar(c)[0] != '\"'
  {
  }

  lemma {:induction false} QuotedUnique(a: string, b: string, s: string, t: string)
    requires QuotedTo(a, s) == QuotedTo(b, t)
    ensures a == b && s == t
  {
    if a != [] { EscapeStarts(a[0], QuotedTo(a[1..], s)); }
    if b != [] { EscapeStarts(b[0], QuotedTo(b[1..], t)); }
    if a == [] {
      CutPrefix("\"", s, t);
    } else {
      EscapeUnique(a[0], b[0], QuotedTo(a[1..], s), QuotedTo(b[1..], t));
      QuotedUnique(a[1..], b[1..], s, t);
      assert a == [a[0]] + a[1..];
      assert b == [b[0]] + b[1..];
    }
  }

  /** The first character tells the kind of value apart. */
  predicate Starts(v: Value, c: char) {
    match v
    case Null => c == 'n'
    case Bool(b) => c == if b then 't' else 'f'
    case Int(n) => c == '-' || IsDigit(c)
    case Float(_) => false
    case Str(_) => c == '\"'
    case Arr(_) => c == '['
    case Obj(_) => c == '{'
  }

  lemma PrintStarts(v: Value, rest: string)
    requires IntegersOnly(v)
    ensures PrintTo(v, rest) != [] && Starts(v, PrintTo(v, rest)[0])
  {
    if v.Int? {
      PrintIntStarts(v.n, rest);
    }
  }

  /** No printed value is a prefix of another unless a number is cut short. */
  lemma {:induction false} PrintUnique(a: Value, b: Value, s: string, t: string)
    requires IntegersOnly(a) && IntegersOnly(b) && Closes(s) && Closes(t)
    requires PrintTo(a, s) == PrintTo(b, t)
    ensures a == b && s == t
    decreases a
  {
    PrintStarts(a, s);
    PrintStarts(b, t);
    match a
    case Null => CutPrefix("null", s, t);
    case Bool(c) => CutPrefix(if c then "true" else "false", s, t);
    case Int(n) => PrintIntUnique(n, b.n, s, t);
    case Str(u) =>
      CutPrefix("\"", QuotedTo(u, s), QuotedTo(b.s, t));
      QuotedUnique(u, b.s, s, t);
    case Arr(items) =>
      CutPrefix("[", PrintItemsTo(items, true, s), PrintItemsTo(b.items, true, t));
      PrintItemsUnique(items, b.items, true, s, t);
    case Obj(fields) =>
      CutPrefix("{", PrintFieldsTo(fields, true, s), PrintFieldsTo(b.fields, true, t));
      PrintFieldsUnique(fields, b.fields, true, s, t);
  }

  lemma {:induction false} PrintItemsUnique(a: seq<Value>, b: seq<Value>, first: bool, s: string, t: string)
    requires forall i :: 0 <= i < |a| ==> IntegersOnly(a[i])
    requires forall i :: 0 <= i < |b| ==> IntegersOnly(b[i])
    requires PrintItemsTo(a, first, s) == PrintItemsTo(b, first, t)
    ensures a == b && s == t
    decreases a
  {
    PrintItemsStarts(a, first, s);
    PrintItemsStarts(b, first, t);
    if a == [] {
      CutPrefix("]", s, t);
    } else {
      var u, v := PrintItemsTo(a[1..], false, s), PrintItemsTo(b[1..], false, t);
      PrintItemsStarts(a[1..], false, s);
      PrintItemsStarts(b[1..], false, t);
      CutPrefix(if first then "" else ",", PrintTo(a[0], u), PrintTo(b[0], v));
      PrintUnique(a[0], b[0], u, v);
      PrintItemsUnique(a[1..], b[1..], false, s, t);
      assert a == [a[0]] + a[1..];
      assert b == [b[0]] + b[1..];
    }
  }

  lemma PrintItemsStarts(a: seq<Value>, first: bool, rest: string)
    requires forall i :: 0 <= i < |a| ==> IntegersOnly(a[i])
    ensures PrintItemsTo(a, first, rest) != []
    ensures a == [] <==> PrintItemsTo(a, first, rest)[0] == ']'
    ensures a != [] && !first ==> PrintItemsTo(a, first, rest)[0] == ','
  {
    if a != [] {
      PrintStarts(a[0], PrintItemsTo(a[1..], false, rest));
    }
  }

  lemma {:induction false} PrintFieldsUnique(
      a: seq<Entry<Value>>, b: seq<Entry<Value>>, first: bool, s: string, t: string)
    requires forall i :: 0 <= i < |a| ==> IntegersOnly(a[i].val)
    requires forall i :: 0 <= i < |b| ==> IntegersOnly(b[i].val)
    requires PrintFieldsTo(a, first, s) == PrintFieldsTo(b, first, t)
    ensures a == b && s == t
    decreases a
  {
    PrintFieldsStarts(a, first, s);
    PrintFieldsStarts(b, first, t);
    if a == [] {
      CutPrefix("}", s, t);
    } else {
      var u, v := PrintFieldsTo(a[1..], false, s), PrintFieldsTo(b[1..], false, t);
      PrintFieldsStarts(a[1..], false, s);
      PrintFieldsStarts(b[1..], false, t);
      var p, q := PrintTo(a[0].val, u), PrintTo(b[0].val, v);
      CutPrefix(if first then "\"" else ",\"", QuotedTo(a[0].key, ":" + p), QuotedTo(b[0].key, ":" + q));
      QuotedUnique(a[0].key, b[0].key, ":" + p, ":" + q);
      CutPrefix(":", p, q);
      PrintUnique(a[0].val, b[0].val, u, v);
      PrintFieldsUnique(a[1..], b[1..], false, s, t);
      assert a == [a[0]] + a[1..];
      assert b == [b[0]] + b[1..];
    }
  }

  lemma PrintFieldsStarts(a: seq<Entry<Value>>, first: bool, rest: string)
    ensures PrintFieldsTo(a, first, rest) != []
    ensures PrintFieldsTo(a, first, rest)[0] == if a == [] then '}' else if first then '\"' else ','
  {
  }

  /** The printer is injective on integer-only values. */
  lemma PrintInjective(a: Value, b: Value)
    requires IntegersOnly(a) && IntegersOnly(b) && Print(a) == Print(b)
    ensures a == b
  {
    PrintUnique(a, b, "", "");
  }

  // ----- Printed text stays on one line -----

  predicate OneLine(s: string) {
    forall i :: 0 <= i < |s| ==> s[i] >= ' '
  }

  lemma OneLineConcat(a: string, b: string)
    requires OneLine(a) && OneLine(b)
    ensures OneLine(a + b)
  {
  }

  lemma EscapeOneLine(c: char)
    ensures OneLine(EscapeChar(c))
  {
  }

  lemma {:induction false} QuotedOneLine(s: string, rest: string)
    requires OneLine(rest)
    ensures OneLine(QuotedTo(s, rest))
  {
    if s == [] {
      OneLineConcat("\"", rest);
    } else {
      EscapeOneLine(s[0]);
      QuotedOneLine(s[1..], rest);
      OneLineConcat(EscapeChar(s[0]), QuotedTo(s[1..], rest));
    }
  }

  lemma IntOneLine(n: int, rest: string)
    requires OneLine(rest)
    ensures OneLine(PrintIntTo(n, rest))
  {
    var digits := PrintNat(if n < 0 then -n else n);
    PrintNatReads(if n < 0 then -n else n);
    OneLineConcat(digits, rest);
    OneLineConcat("-", digits + rest);
  }

  /** Control characters are escaped, so an integer-only value prints without a line break. */
  lemma {:induction false} PrintOneLine(v: Value, rest: string)
    requires IntegersOnly(v) && OneLine(rest)
    ensures OneLine(PrintTo(v, rest))
    decreases v
  {
    match v
    case Null => OneLineConcat("null", rest);
    case Bool(b) => OneLineConcat(if b then "true" else "false", rest);
    case Int(n) => IntOneLine(n, rest);
    case Str(s) =>
      QuotedOneLine(s, rest);
      OneLineConcat("\"", QuotedTo(s, rest));
    case Arr(items) =>
      PrintItemsOneLine(items, true, rest);
      OneLineConcat("[", PrintItemsTo(items, true, rest));
    case Obj(fields) =>
      PrintFieldsOneLine(fields, true, rest);
      OneLineConcat("{", PrintFieldsTo(fields, true, rest));
  }

  lemma {:induction false} PrintItemsOneLine(items: seq<Value>, first: bool, rest: string)
    requires OneLine(rest) && forall i :: 0 <= i < |items| ==> IntegersOnly(items[i])
    ensures OneLine(PrintItemsTo(items, first, rest))
    decreases items
  {
    if items == [] {
      OneLineConcat("]", rest);
    } else {
      var tail := PrintItemsTo(items[1..], false, rest);
      PrintItemsOneLine(items[1..], false, rest);
      PrintOneLine(items[0], tail);
      OneLineConcat(if first then "" else ",", PrintTo(items[0], tail));
    }
  }

  lemma {:induction false} PrintFieldsOneLine(fields: seq<Entry<Value>>, first: bool, rest: string)
    requires OneLine(rest) && forall i :: 0 <= i < |fields| ==> IntegersOnly(fields[i].val)
    ensures OneLine(PrintFieldsTo(fields, first, rest))
    decreases fields
  {
    if fields == [] {
      OneLineConcat("}", rest);
    } else {
      var tail := PrintFieldsTo(fields[1..], false, rest);
      PrintFieldsOneLine(fields[1..], false, rest);
      PrintOneLine(fields[0].val, tail);
      OneLineConcat(":", PrintTo(fields[0].val, tail));
      QuotedOneLine(fields[0].key, ":" + PrintTo(fields[0].val, tail));
      OneLineConcat(if first then "\"" else ",\"", QuotedTo(fields[0].key, ":" + PrintTo(fields[0].val, tail)));
    }
  }

  // ----- Layout -----

  /** A text with its escapes. */
  function Escaped(s: string): string {
    if s == "" then "" else EscapeChar(s[0]) + Escaped(s[1..])
  }

  /** The printed items, separated by commas. */
  function Listed(items: seq<Value>): string
    decreases items
  {
    if items == [] then "" else Print(items[0]) + MoreItems(items[1..])
  }

  function MoreItems(items: seq<Value>): string
    decreases items
  {
    if items == [] then "" else "," + (Print(items[0]) + MoreItems(items[1..]))
  }

  /** A printed key and value. */
  function Pair(f: Entry<Value>): string {
    "\"" + (Escaped(f.key) + ("\":" + Print(f.val)))
  }

  /** The printed fields, separated by commas. */
  function Paired(fields: seq<Entry<Value>>): string {
    if fields == [] then "" else Pair(fields[0]) + MoreFields(fields[1..])
  }

  function MoreFields(fields: seq<Entry<Value>>): string {
    if fields == [] then "" else "," + (Pair(fields[0]) + MoreFields(fields[1..]))
  }

  lemma Regroup(a: string, b: string, c: string)
    ensures a + (b + c) == (a + b) + c
  {
  }

  /** The print of a value does not depend on what follows it. */
  lemma {:induction false} PrintInFront(v: Value, rest: string)
    ensures PrintTo(v, rest) == Print(v) + rest
    decreases v
  {
    match v
    case Int(n) =>
      var digits := PrintNat(if n < 0 then -n else n);
      assert digits + "" == digits;
      Regroup("-", digits, rest);
    case Str(s) =>
      QuotedInFront(s, rest);
      QuotedInFront(s, "");
      Around("\"", Escaped(s), "\"", rest);
    case Arr(items) =>
      ItemsInFront(items, rest);
      ItemsInFront(items, "");
      Around("[", Listed(items), "]", rest);
    case Obj(fields) =>
      FieldsInFront(fields, rest);
      FieldsInFront(fields, "");
      Around("{", Paired(fields), "}", rest);
    case _ =>
  }

  lemma Around(open: string, middle: string, close: string, rest: string)
    ensures open + (middle + (close + rest)) == (open + (middle + (close + ""))) + rest
    ensures open + (middle + (close + "")) == open + middle + close
  {
  }

  lemma {:induction false} QuotedInFront(s: string, rest: string)
    ensures QuotedTo(s, rest) == Escaped(s) + ("\"" + rest)
  {
    if s != "" {
      QuotedInFront(s[1..], rest);
      Regroup(EscapeChar(s[0]), Escaped(s[1..]), "\"" + rest);
    }
  }

  lemma {:induction false} ItemsInFront(items: seq<Value>, rest: string)
    ensures PrintItemsTo(items, true, rest) == Listed(items) + ("]" + rest)
    decreases items, 1
  {
    if items != [] {
      MoreInFront(items[1..], rest);
      var behind := PrintItemsTo(items[1..], false, rest);
      PrintInFront(items[0], behind);
      Regroup(Print(items[0]), MoreItems(items[1..]), "]" + rest);
    }
  }

  lemma {:induction false} MoreInFront(items: seq<Value>, rest: string)
    ensures PrintItemsTo(items, false, rest) == MoreItems(items) + ("]" + rest)
    decreases items, 1
  {
    if items != [] {
      MoreInFront(items[1..], rest);
      var behind := PrintItemsTo(items[1..], false, rest);
      PrintInFront(items[0], behind);
      Regroup(Print(items[0]), MoreItems(items[1..]), "]" + rest);
      Regroup(",", Print(items[0]) + MoreItems(items[1..]), "]" + rest);
    }
  }

  lemma {:induction false} PairInFront(f: Entry<Value>, behind: string)
    requires PrintTo(f.val, behind) == Print(f.val) + behind
    ensures "\"" + QuotedTo(f.key, ":" + PrintTo(f.val, behind)) == Pair(f) + behind
  {
    QuotedInFront(f.key, ":" + PrintTo(f.val, behind));
    PairParts(Escaped(f.key), Print(f.val), behind);
  }

  lemma PairParts(key: string, val: string, behind: string)
    ensures "\"" + (key + ("\"" + (":" + (val + behind)))) == ("\"" + (key + ("\":" + val))) + behind
  {
  }

  lemma {:induction false} FieldsInFront(fields: seq<Entry<Value>>, rest: string)
    ensures PrintFieldsTo(fields, true, rest) == Paired(fields) + ("}" + rest)
    decreases fields, 1
  {
    if fields != [] {
      MoreFieldsInFront(fields[1..], rest);
      var behind := PrintFieldsTo(fields[1..], false, rest);
      PrintInFront(fields[0].val, behind);
      PairInFront(fields[0], behind);
      Regroup(Pair(fields[0]), MoreFields(fields[1..]), "}" + rest);
    }
  }

  lemma {:induction false} MoreFieldsInFront(fields: seq<Entry<Value>>, rest: string)
    ensures PrintFieldsTo(fields, false, rest) == MoreFields(fields) + ("}" + rest)
    decreases fields, 1
  {
    if fields != [] {
      MoreFieldsInFront(fields[1..], rest);
      var behind := PrintFieldsTo(fields[1..], false, rest);
      PrintInFront(fields[0].val, behind);
      PairInFront(fields[0], behind);
      Comma(QuotedTo(fields[0].key, ":" + PrintTo(fields[0].val, behind)));
      Regroup(Pair(fields[0]), MoreFields(fields[1..]), "}" + rest);
      Regroup(",", Pair(fields[0]) + MoreFields(fields[1..]), "}" + rest);
    }
  }

  lemma Comma(q: string)
    ensures ",\"" + q == "," + ("\"" + q)
  {
  }

  /** The layout of section 2 of RFC 8259 without any space: brackets and braces around items and
      pairs, commas between them, a colon between a quoted key and its value. */
  lemma PrintLayout(v: Value)
    ensures v.Null? ==> Print(v) == "null"
    ensures v.Bool? ==> Print(v) == if v.b then "true" else "false"
    ensures v.Str? ==> Print(v) == "\"" + Escaped(v.s) + "\""
    ensures v.Arr? ==> Print(v) == "[" + Listed(v.items) + "]"
    ensures v.Obj? ==> Print(v) == "{" + Paired(v.fields) + "}"
  {
    match v
    case Str(s) =>
      QuotedInFront(s, "");
      Around("\"", Escaped(s), "\"", "");
    case Arr(items) =>
      ItemsInFront(items, "");
      Around("[", Listed(items), "]", "");
    case Obj(fields) =>
      FieldsInFront(fields, "");
      Around("{", Paired(fields), "}", "");
    case _ =>
  }

  /** An integer prints as its decimal digits, most significant first and without a leading zero,
      behind a minus sign if it is negative. */
  lemma PrintDecimal(n: int)
    ensures var digits := if n < 0 then Print(Int(n))[1..] else Print(Int(n));
      && (n < 0 ==> Print(Int(n))[0] == '-')
      && digits != "" && (forall i :: 0 <= i < |digits| ==> '0' <= digits[i] <= '9')
      && NatValue(digits) == (if n < 0 then -n else n)
      && (|digits| == 1 || digits[0] != '0')
  {
    var m := if n < 0 then -n else n;
    PrintNatReads(m);
    NoLeadingZero(m);
    assert PrintNat(m) + "" == PrintNat(m);
    assert n < 0 ==> ("-" + PrintNat(m))[1..] == PrintNat(m);
  }

  /** No leading zero is printed. */
  lemma {:induction false} NoLeadingZero(n: nat)
    ensures |PrintNat(n)| == 1 || PrintNat(n)[0] != '0'
    ensures n > 0 ==> PrintNat(n)[0] != '0'
  {
    if n >= 10 {
      NoLeadingZero(n / 10);
      PrintNatReads(n / 10);
    } else {
      assert n > 0 ==> DIGITS[n] != '0';
    }
  }

  /** Quotes, backslashes and control characters are escaped, the latter by their short form where
      there is one and otherwise by four lower-case hexadecimal digits; nothing else is. */
  lemma EscapeSamples()
    ensures EscapeChar('\"') == "\\\"" && EscapeChar('\\') == "\\\\" && EscapeChar('/') == "/"
    ensures EscapeChar('\U{8}') == "\\b" && EscapeChar('\t') == "\\t" && EscapeChar('\n') == "\\n"
    ensures EscapeChar('\U{C}') == "\\f" && EscapeChar('\r') == "\\r"
    ensures EscapeChar('\U{0}') == "\\u0000" && EscapeChar('\U{1F}') == "\\u001f"
    ensures forall c :: c >= ' ' && c != '\"' && c != '\\' ==> EscapeChar(c) == [c]
  {
  }
}
