/** A `BTreeMap<String, T>` as the sequence of its entries in key order. */
module SortedMap {
  import opened Strings
  import opened Options

  datatype Entry<T> = Entry(key: string, val: T)

  predicate Sorted<T>(m: seq<Entry<T>>) {
    forall i, j :: 0 <= i < j < |m| ==> Less(m[i].key, m[j].key)
  }

  predicate HasKey<T>(m: seq<Entry<T>>, key: string) {
    exists i :: 0 <= i < |m| && m[i].key == key
  }

  /** `BTreeMap::insert`: the entry goes to its place in key order and replaces an equal key. */
  function Insert<T>(m: seq<Entry<T>>, key: string, val: T): (r: seq<Entry<T>>)
    ensures forall k :: HasKey(r, k) <==> k == key || HasKey(m, k)
  {
    if m == [] then
      var r := [Entry(key, val)];
      assert r[0].key == key;
      r
    else if key == m[0].key then
      var r := [Entry(key, val)] + m[1..];
      assert forall i :: 0 < i < |m| ==> r[i] == m[i];
      assert r[0].key == key;
      r
    else if Less(key, m[0].key) then
      var r := [Entry(key, val)] + m;
      assert r[0].key == key;
      assert forall i :: 0 <= i < |m| ==> r[i + 1] == m[i];
      r
    else
      var t := Insert(m[1..], key, val);
      var r := [m[0]] + t;
      assert forall k :: HasKey(r, k) <==> k == m[0].key || HasKey(t, k) by { HasKeyCons(m[0], t); }
      assert forall k :: HasKey(m, k) <==> k == m[0].key || HasKey(m[1..], k) by {
        HasKeyCons(m[0], m[1..]);
        assert m == [m[0]] + m[1..];
      }
      r
  }

  lemma HasKeyCons<T>(e: Entry<T>, m: seq<Entry<T>>)
    ensures forall k :: HasKey([e] + m, k) <==> k == e.key || HasKey(m, k)
  {
    var r := [e] + m;
    forall k
      ensures HasKey(r, k) <==> k == e.key || HasKey(m, k)
    {
      assert r[0] == e;
      if HasKey(m, k) {
        var i :| 0 <= i < |m| && m[i].key == k;
        assert r[i + 1].key == k;
      }
      if HasKey(r, k) && k != e.key {
        var i :| 0 <= i < |r| && r[i].key == k;
        assert m[i - 1].key == k;
      }
    }
  }

  lemma {:induction false} InsertSorted<T>(m: seq<Entry<T>>, key: string, val: T)
    requires Sorted(m)
    ensures Sorted(Insert(m, key, val))
  {
    if m != [] && key != m[0].key {
      LessTotal(key, m[0].key);
      if Less(key, m[0].key) {
        forall j | 0 <= j < |m| ensures Less(key, m[j].key) {
          if j > 0 { LessTransitive(key, m[0].key, m[j].key); }
        }
      } else {
        var t := Insert(m[1..], key, val);
        InsertSorted(m[1..], key, val);
        forall j | 0 <= j < |t| ensures Less(m[0].key, t[j].key) {
          assert HasKey(t, t[j].key);
          if t[j].key != key {
            var i :| 0 <= i < |m[1..]| && m[1..][i].key == t[j].key;
            assert m[i + 1].key == t[j].key;
          }
        }
      }
    }
  }

  /** `BTreeMap::get`. */
  function Get<T>(m: seq<Entry<T>>, key: string): Option<T> {
    if m == [] then None
    else if m[0].key == key then Some(m[0].val)
    else Get(m[1..], key)
  }

  lemma {:induction false} GetInsert<T>(m: seq<Entry<T>>, key: string, val: T, k: string)
    ensures Get(Insert(m, key, val), k) == if k == key then Some(val) else Get(m, k)
  {
    if m != [] && key != m[0].key && !Less(key, m[0].key) {
      GetInsert(m[1..], key, val, k);
    }
  }

  lemma {:induction false} GetAt<T>(m: seq<Entry<T>>, i: nat)
    requires Sorted(m) && i < |m|
    ensures Get(m, m[i].key) == Some(m[i].val)
  {
    if i > 0 {
      LessAsymmetric(m[0].key, m[i].key);
      GetAt(m[1..], i - 1);
    }
  }

  lemma {:induction false} GetFinds<T>(m: seq<Entry<T>>, key: string)
    requires Get(m, key).Some?
    ensures exists i :: 0 <= i < |m| && m[i].key == key && m[i].val == Get(m, key).value
  {
    if m[0].key != key {
      GetFinds(m[1..], key);
      var i :| 0 <= i < |m[1..]| && m[1..][i].key == key && m[1..][i].val == Get(m, key).value;
      assert m[i + 1].key == key;
    } else {
      assert m[0].key == key;
    }
  }
}
