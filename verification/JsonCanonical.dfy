/** Canonical JSON: integer-only values with object keys sorted at every depth. */
module JsonCanonical {
  import opened Strings
  import opened SortedMap
  import opened Options
  import opened Json

  /** The value `normalize_value` builds, or nothing when a number is not an integer. */
  function Normalize(v: Value): Option<Value>
    decreases v
  {
    match v
    case Float(_) => None
    case Arr(items) =>
      var out :- NormalizeItems(items);
      Some(Arr(out))
    case Obj(fields) =>
      var out :- NormalizeFields(fields, []);
      Some(Obj(out))
    case _ => Some(v)
  }

  function NormalizeItems(items: seq<Value>): Option<seq<Value>>
    decreases items
  {
    if items == [] then Some([])
    else
      var head :- Normalize(items[0]);
      var tail :- NormalizeItems(items[1..]);
      Some([head] + tail)
  }

  /** Insert the remaining fields, one by one, into the sorted map built so far. */
  function NormalizeFields(fields: seq<Entry<Value>>, sorted: seq<Entry<Value>>): Option<seq<Entry<Value>>>
    decreases fields
  {
    if fields == [] then Some(sorted)
    else
      var val :- Normalize(fields[0].val);
      NormalizeFields(fields[1..], Insert(sorted, fields[0].key, val))
  }

  /** `to_canonical_bytes`. */
  function Canonical(v: Value): Option<string> {
    var n :- Normalize(v);
    Some(Print(n))
  }

  /** `normalize_value`: a sorted map filled entry by entry, a vector filled item by item. */
  method NormalizeValue(v: Value) returns (r: Option<Value>)
    ensures r == Normalize(v)
    ensures r.Some? <==> IntegersOnly(v)
    ensures r.Some? ==> CanonicalOf(v, r.value)
    decreases v
  {
    NormalizeMeans(v);
    match v {
      case Float(_) => return None;
      case Obj(fields) =>
        var sorted: seq<Entry<Value>> := [];
        var i := 0;
        while i < |fields|
          invariant 0 <= i <= |fields|
          invariant NormalizeFields(fields, []) == NormalizeFields(fields[i..], sorted)
        {
          var val := NormalizeValue(fields[i].val);
          assert fields[i..][0] == fields[i] && fields[i..][1..] == fields[i + 1..];
          if val.None? {
            return None;
          }
          sorted := Insert(sorted, fields[i].key, val.value);
          i := i + 1;
        }
        assert fields[i..] == [];
        return Some(Obj(sorted));
      case Arr(items) =>
        var out: seq<Value> := [];
        var i := 0;
        assert items[0..] == items;
        PrependNothing(NormalizeItems(items));
        while i < |items|
          invariant 0 <= i <= |items|
          invariant NormalizeItems(items) == Prepend(out, NormalizeItems(items[i..]))
        {
          var val := NormalizeValue(items[i]);
          assert items[i..][0] == items[i] && items[i..][1..] == items[i + 1..];
          if val.None? {
            return None;
          }
          PrependSnoc(out, val.value, NormalizeItems(items[i + 1..]));
          out := out + [val.value];
          i := i + 1;
        }
        assert items[i..] == [] && out + [] == out;
        return Some(Arr(out));
      case _ => return Some(v);
    }
  }

  ghost function Prepend(out: seq<Value>, rest: Option<seq<Value>>): Option<seq<Value>> {
    if rest.None? then None else Some(out + rest.value)
  }

  lemma PrependNothing(rest: Option<seq<Value>>)
    ensures Prepend([], rest) == rest
  {
    if rest.Some? {
      assert [] + rest.value == rest.value;
    }
  }

  lemma PrependSnoc(out: seq<Value>, v: Value, rest: Option<seq<Value>>)
    ensures Prepend(out + [v], rest) == Prepend(out, Prepend([v], rest))
  {
    if rest.Some? {
      assert out + [v] + rest.value == out + ([v] + rest.value);
    }
  }

  // ----- Failure -----

  /** Canonicalisation fails exactly when some nested number is not an integer. */
  lemma {:induction false} FailsExactlyOnNonIntegers(v: Value)
    ensures Canonical(v).Some? <==> IntegersOnly(v)
    decreases v
  {
    match v
    case Arr(items) => ItemsFail(items);
    case Obj(fields) => FieldsFail(fields, []);
    case _ =>
  }

  lemma {:induction false} ItemsFail(items: seq<Value>)
    ensures NormalizeItems(items).Some? <==> forall i :: 0 <= i < |items| ==> IntegersOnly(items[i])
    decreases items
  {
    if items != [] {
      FailsExactlyOnNonIntegers(items[0]);
      ItemsFail(items[1..]);
      assert items == [items[0]] + items[1..];
    }
  }

  lemma {:induction false} FieldsFail(fields: seq<Entry<Value>>, sorted: seq<Entry<Value>>)
    ensures NormalizeFields(fields, sorted).Some?
      <==> forall i :: 0 <= i < |fields| ==> IntegersOnly(fields[i].val)
    decreases fields
  {
    if fields != [] {
      var f := fields[0];
      FailsExactlyOnNonIntegers(f.val);
      if Normalize(f.val).Some? {
        FieldsFail(fields[1..], Insert(sorted, f.key, Normalize(f.val).value));
      }
      assert fields == [f] + fields[1..];
    }
  }

  // ----- Normal forms -----

  ghost predicate IsNormal(v: Value)
    decreases v
  {
    match v
    case Float(_) => false
    case Arr(items) => forall i :: 0 <= i < |items| ==> IsNormal(items[i])
    case Obj(fields) => Sorted(fields) && forall i :: 0 <= i < |fields| ==> IsNormal(fields[i].val)
    case _ => true
  }

  /** The keys of every object at every depth ascend in dictionary order. */
  ghost predicate Ascending(v: Value)
    decreases v
  {
    match v
    case Arr(items) => forall i :: 0 <= i < |items| ==> Ascending(items[i])
    case Obj(fields) =>
      && (forall i, j :: 0 <= i < j < |fields| ==> Precedes(fields[i].key, fields[j].key))
      && forall i :: 0 <= i < |fields| ==> Ascending(fields[i].val)
    case _ => true
  }

  /** Normal is: integers only, and keys in dictionary order. */
  lemma {:induction false} NormalIffAscending(v: Value)
    ensures IsNormal(v) <==> IntegersOnly(v) && Ascending(v)
    decreases v
  {
    match v
    case Arr(items) =>
      forall i | 0 <= i < |items| ensures IsNormal(items[i]) <==> IntegersOnly(items[i]) && Ascending(items[i]) {
        NormalIffAscending(items[i]);
      }
    case Obj(fields) =>
      forall i | 0 <= i < |fields|
        ensures IsNormal(fields[i].val) <==> IntegersOnly(fields[i].val) && Ascending(fields[i].val)
      {
        NormalIffAscending(fields[i].val);
      }
      SortedIffPrecedes(fields);
    case _ =>
  }

  lemma SortedIffPrecedes(fields: seq<Entry<Value>>)
    ensures Sorted(fields)
      <==> forall i, j :: 0 <= i < j < |fields| ==> Precedes(fields[i].key, fields[j].key)
  {
    forall i, j | 0 <= i < j < |fields|
      ensures Less(fields[i].key, fields[j].key) <==> Precedes(fields[i].key, fields[j].key)
    {
      LessIsPrecedes(fields[i].key, fields[j].key);
    }
  }

  lemma {:induction false} NormalIsIntegersOnly(v: Value)
    requires IsNormal(v)
    ensures IntegersOnly(v)
    decreases v
  {
    match v
    case Arr(items) =>
      forall i | 0 <= i < |items| ensures IntegersOnly(items[i]) { NormalIsIntegersOnly(items[i]); }
    case Obj(fields) =>
      forall i | 0 <= i < |fields| ensures IntegersOnly(fields[i].val) { NormalIsIntegersOnly(fields[i].val); }
    case _ =>
  }

  /** What a `serde_json::Value` can hold: objects are maps in key order, whole numbers fit. */
  ghost predicate Held(v: Value)
    decreases v
  {
    match v
    case Int(n) => LEAST_INTEGER <= n <= GREATEST_INTEGER
    case Arr(items) => forall i :: 0 <= i < |items| ==> Held(items[i])
    case Obj(fields) => Sorted(fields) && forall i :: 0 <= i < |fields| ==> Held(fields[i].val)
    case _ => true
  }

  lemma {:induction false} HeldIntegers(v: Value)
    requires Held(v) && IntegersOnly(v)
    ensures IsNormal(v) && InRange(v)
    decreases v
  {
    match v
    case Arr(items) =>
      forall i | 0 <= i < |items| ensures IsNormal(items[i]) && InRange(items[i]) { HeldIntegers(items[i]); }
    case Obj(fields) =>
      forall i | 0 <= i < |fields| ensures IsNormal(fields[i].val) && InRange(fields[i].val) {
        HeldIntegers(fields[i].val);
      }
    case _ =>
  }

  lemma {:induction false} DenoteKeys(fields: seq<Entry<Value>>)
    ensures forall k :: k in DenoteFields(fields) <==> HasKey(fields, k)
    decreases fields
  {
    if fields != [] {
      DenoteKeys(fields[1..]);
      HasKeyCons(fields[0], fields[1..]);
      assert fields == [fields[0]] + fields[1..];
    }
  }

  /** In a sorted map the first key does not come back. */
  lemma HeadKeyIsFresh(fields: seq<Entry<Value>>)
    requires Sorted(fields) && fields != []
    ensures fields[0].key !in DenoteFields(fields[1..])
  {
    DenoteKeys(fields[1..]);
    if HasKey(fields[1..], fields[0].key) {
      var i :| 0 <= i < |fields[1..]| && fields[1..][i].key == fields[0].key;
      LessIrreflexive(fields[i + 1].key);
    }
  }

  lemma DenoteCons(f: Entry<Value>, rest: seq<Entry<Value>>)
    ensures DenoteFields([f] + rest) == map[f.key := Denote(f.val)] + DenoteFields(rest)
  {
    assert ([f] + rest)[1..] == rest;
  }

  /** Writing a key in front of a map that lacks it, and behind one. */
  lemma UpdateFront(key: string, x: Meaning, y: Meaning, m: map<string, Meaning>, other: string)
    requires key !in m
    ensures (map[key := x] + m)[key := y] == map[key := y] + m
    ensures other != key ==> (map[key := x] + m)[other := y] == map[key := x] + m[other := y]
  {
  }

  lemma {:induction false} InsertMeaning(m: seq<Entry<Value>>, key: string, val: Value)
    requires Sorted(m)
    ensures DenoteFields(Insert(m, key, val)) == DenoteFields(m)[key := Denote(val)]
    decreases m
  {
    if m == [] {
      DenoteCons(Entry(key, val), []);
    } else {
      HeadKeyIsFresh(m);
      UpdateFront(m[0].key, Denote(m[0].val), Denote(val), DenoteFields(m[1..]), key);
      if key == m[0].key {
        DenoteCons(Entry(key, val), m[1..]);
      } else if Less(key, m[0].key) {
        DenoteCons(Entry(key, val), m);
        FrontKeyIsFresh(m, key);
      } else {
        DenoteCons(m[0], Insert(m[1..], key, val));
        InsertMeaning(m[1..], key, val);
      }
    }
  }

  lemma FrontKeyIsFresh(m: seq<Entry<Value>>, key: string)
    requires Sorted(m) && m != [] && Less(key, m[0].key)
    ensures key !in DenoteFields(m)
  {
    DenoteKeys(m);
    if HasKey(m, key) {
      var i :| 0 <= i < |m| && m[i].key == key;
      LessAsymmetric(key, m[0].key);
    }
  }

  lemma {:induction false} InsertNormal(m: seq<Entry<Value>>, key: string, val: Value)
    requires IsNormal(Obj(m)) && IsNormal(val)
    ensures IsNormal(Obj(Insert(m, key, val)))
  {
    InsertSorted(m, key, val);
    InsertVals(m, key, val);
  }

  lemma {:induction false} InsertVals(m: seq<Entry<Value>>, key: string, val: Value)
    requires IsNormal(val) && forall i :: 0 <= i < |m| ==> IsNormal(m[i].val)
    ensures forall i :: 0 <= i < |Insert(m, key, val)| ==> IsNormal(Insert(m, key, val)[i].val)
  {
    if m != [] && key != m[0].key && !Less(key, m[0].key) {
      InsertVals(m[1..], key, val);
    }
  }

  /** Normalising keeps the meaning and sorts every object. */
  lemma {:induction false} NormalizeCorrect(v: Value)
    requires Normalize(v).Some?
    ensures IsNormal(Normalize(v).value)
    ensures Denote(Normalize(v).value) == Denote(v)
    decreases v
  {
    match v
    case Arr(items) => NormalizeItemsCorrect(items);
    case Obj(fields) => NormalizeFieldsCorrect(fields, []);
    case _ =>
  }

  /** What canonicalising makes: the same value up to key order, integers only, with the keys of
      every object in dictionary order; and nothing if there is another number. */
  ghost predicate CanonicalOf(v: Value, n: Value) {
    Denote(n) == Denote(v) && IntegersOnly(n) && Ascending(n)
  }

  lemma NormalizeMeans(v: Value)
    ensures Normalize(v).Some? <==> IntegersOnly(v)
    ensures Normalize(v).Some? ==> CanonicalOf(v, Normalize(v).value)
  {
    FailsExactlyOnNonIntegers(v);
    if Normalize(v).Some? {
      NormalizeCorrect(v);
      NormalIffAscending(Normalize(v).value);
    }
  }

  lemma {:induction false} NormalizeItemsCorrect(items: seq<Value>)
    requires NormalizeItems(items).Some?
    ensures IsNormal(Arr(NormalizeItems(items).value))
    ensures DenoteItems(NormalizeItems(items).value) == DenoteItems(items)
    decreases items
  {
    if items != [] {
      NormalizeCorrect(items[0]);
      NormalizeItemsCorrect(items[1..]);
      assert NormalizeItems(items).value[1..] == NormalizeItems(items[1..]).value;
    }
  }

  lemma {:induction false} NormalizeFieldsCorrect(fields: seq<Entry<Value>>, sorted: seq<Entry<Value>>)
    requires IsNormal(Obj(sorted)) && NormalizeFields(fields, sorted).Some?
    ensures IsNormal(Obj(NormalizeFields(fields, sorted).value))
    ensures DenoteFields(NormalizeFields(fields, sorted).value) == DenoteFields(sorted) + DenoteFields(fields)
    decreases fields
  {
    if fields != [] {
      var f := fields[0];
      var val := Normalize(f.val).value;
      NormalizeCorrect(f.val);
      InsertNormal(sorted, f.key, val);
      InsertMeaning(sorted, f.key, val);
      NormalizeFieldsCorrect(fields[1..], Insert(sorted, f.key, val));
      MoveKey(DenoteFields(sorted), f.key, Denote(f.val), DenoteFields(fields[1..]));
    }
  }

  lemma MoveKey(m: map<string, Meaning>, key: string, val: Meaning, n: map<string, Meaning>)
    ensures m[key := val] + n == m + (map[key := val] + n)
  {
  }

  /** Two normal values with one meaning are one value. */
  lemma {:induction false} NormalUnique(a: Value, b: Value)
    requires IsNormal(a) && IsNormal(b) && Denote(a) == Denote(b)
    ensures a == b
    decreases a
  {
    match a
    case Arr(items) => NormalItemsUnique(items, b.items);
    case Obj(fields) => NormalFieldsUnique(fields, b.fields);
    case _ =>
  }

  lemma {:induction false} NormalItemsUnique(a: seq<Value>, b: seq<Value>)
    requires IsNormal(Arr(a)) && IsNormal(Arr(b)) && DenoteItems(a) == DenoteItems(b)
    ensures a == b
    decreases a
  {
    assert |a| == |DenoteItems(a)| == |b|;
    if a != [] {
      assert DenoteItems(a)[0] == Denote(a[0]) && DenoteItems(b)[0] == Denote(b[0]);
      assert DenoteItems(a)[1..] == DenoteItems(a[1..]) && DenoteItems(b)[1..] == DenoteItems(b[1..]);
      NormalUnique(a[0], b[0]);
      NormalItemsUnique(a[1..], b[1..]);
      assert a == [a[0]] + a[1..];
      assert b == [b[0]] + b[1..];
    }
  }

  /** The least key of a sorted map is the key of its first entry. */
  lemma SameFirstKey(a: seq<Entry<Value>>, b: seq<Entry<Value>>)
    requires Sorted(a) && Sorted(b) && a != [] && b != []
    requires DenoteFields(a).Keys == DenoteFields(b).Keys
    ensures a[0].key == b[0].key
  {
    DenoteKeys(a);
    DenoteKeys(b);
    assert HasKey(a, a[0].key) && HasKey(b, b[0].key);
    assert HasKey(b, a[0].key) && HasKey(a, b[0].key);
    var i :| 0 <= i < |b| && b[i].key == a[0].key;
    var j :| 0 <= j < |a| && a[j].key == b[0].key;
    if i > 0 && j > 0 {
      LessAsymmetric(a[0].key, a[j].key);
    }
  }

  lemma OnlyEmptyMeansEmpty(fields: seq<Entry<Value>>)
    ensures DenoteFields(fields) == map[] <==> fields == []
  {
    assert fields != [] ==> fields[0].key in DenoteFields(fields);
  }

  /** Equal maps that start with one fresh key have equal first values and equal rests. */
  lemma SplitFront(key: string, x: Meaning, m: map<string, Meaning>, y: Meaning, n: map<string, Meaning>)
    requires key !in m && key !in n && map[key := x] + m == map[key := y] + n
    ensures x == y && m == n
  {
    var p, q := map[key := x] + m, map[key := y] + n;
    assert p[key] == x && q[key] == y;
    assert m == p - {key};
    assert n == q - {key};
  }

  lemma {:induction false} NormalFieldsUnique(a: seq<Entry<Value>>, b: seq<Entry<Value>>)
    requires IsNormal(Obj(a)) && IsNormal(Obj(b)) && DenoteFields(a) == DenoteFields(b)
    ensures a == b
    decreases a
  {
    OnlyEmptyMeansEmpty(a);
    OnlyEmptyMeansEmpty(b);
    if a != [] {
      SameFirstKey(a, b);
      HeadKeyIsFresh(a);
      HeadKeyIsFresh(b);
      SplitFront(a[0].key, Denote(a[0].val), DenoteFields(a[1..]), Denote(b[0].val), DenoteFields(b[1..]));
      NormalUnique(a[0].val, b[0].val);
      NormalFieldsUnique(a[1..], b[1..]);
      assert a == [a[0]] + a[1..];
      assert b == [b[0]] + b[1..];
    }
  }

  // ----- Main results -----

  /** The canonical bytes are the print of the one value with integers only and ordered keys that
      means the same. */
  lemma CanonicalBytes(v: Value, n: Value)
    requires CanonicalOf(v, n)
    ensures IntegersOnly(v) ==> Canonical(v) == Some(Print(n))
  {
    if IntegersOnly(v) {
      NormalizeMeans(v);
      NormalIffAscending(n);
      NormalIffAscending(Normalize(v).value);
      NormalUnique(n, Normalize(v).value);
    }
  }

  /** Two integer-only values have the same canonical bytes exactly when they are equal up to
      object key order at every depth. */
  lemma CanonicalIsNormalForm(a: Value, b: Value)
    requires IntegersOnly(a) && IntegersOnly(b)
    ensures Canonical(a) == Canonical(b) <==> Denote(a) == Denote(b)
  {
    FailsExactlyOnNonIntegers(a);
    FailsExactlyOnNonIntegers(b);
    var m, n := Normalize(a).value, Normalize(b).value;
    NormalizeCorrect(a);
    NormalizeCorrect(b);
    if Denote(a) == Denote(b) {
      NormalUnique(m, n);
    }
    if Print(m) == Print(n) {
      NormalIsIntegersOnly(m);
      NormalIsIntegersOnly(n);
      PrintInjective(m, n);
    }
  }

  /** Canonicalising a normalised value changes neither the value nor its bytes. */
  lemma CanonicalIdempotent(v: Value)
    requires IntegersOnly(v)
    ensures Normalize(v).Some?
    ensures Normalize(Normalize(v).value) == Normalize(v)
    ensures Canonical(Normalize(v).value) == Canonical(v)
  {
    FailsExactlyOnNonIntegers(v);
    var n := Normalize(v).value;
    NormalizeCorrect(v);
    NormalIsIntegersOnly(n);
    FailsExactlyOnNonIntegers(n);
    NormalizeCorrect(n);
    NormalUnique(Normalize(n).value, n);
  }
}
