/** Text as the core handles it: a string is its sequence of Unicode scalar values, ordered
    as `String` keys are ordered in a `BTreeMap` (scalar order and UTF-8 byte order agree). */
module Strings {

  /** Lexicographic order, shorter first on a tie. */
  predicate Less(a: string, b: string) {
    if b == [] then false
    else if a == [] then true
    else a[0] < b[0] || (a[0] == b[0] && Less(a[1..], b[1..]))
  }

  lemma {:induction false} LessIrreflexive(a: string)
    ensures !Less(a, a)
  {
    if a != [] {
      LessIrreflexive(a[1..]);
    }
  }

  lemma {:induction false} LessTotal(a: string, b: string)
    ensures Less(a, b) || Less(b, a) || a == b
  {
    if a != [] && b != [] && a[0] == b[0] {
      LessTotal(a[1..], b[1..]);
      assert a == [a[0]] + a[1..] && b == [b[0]] + b[1..];
    }
  }

  lemma {:induction false} LessTransitive(a: string, b: string, c: string)
    requires Less(a, b) && Less(b, c)
    ensures Less(a, c)
  {
    if a != [] && a[0] == b[0] == c[0] {
      LessTransitive(a[1..], b[1..], c[1..]);
    }
  }

  lemma LessAsymmetric(a: string, b: string)
    requires Less(a, b)
    ensures !Less(b, a) && a != b
  {
    if Less(b, a) {
      LessTransitive(a, b, a);
    }
    LessIrreflexive(a);
  }

  /** Up to this position the texts agree; there the first one ends before the second, or has the
      lesser character. */
  predicate FirstDifference(a: string, b: string, k: nat) {
    && k <= |a| && k <= |b| && a[..k] == b[..k]
    && ((k == |a| && k < |b|) || (k < |a| && k < |b| && a[k] < b[k]))
  }

  /** Dictionary order by scalar value, without recursion. */
  ghost predicate Precedes(a: string, b: string) {
    exists k: nat :: FirstDifference(a, b, k)
  }

  lemma DifferenceBehind(a: string, b: string, k: nat)
    requires a != [] && b != [] && a[0] == b[0]
    ensures FirstDifference(a[1..], b[1..], k) <==> FirstDifference(a, b, k + 1)
  {
    if k <= |a[1..]| && k <= |b[1..]| {
      assert a[..k + 1] == [a[0]] + a[1..][..k] && b[..k + 1] == [b[0]] + b[1..][..k];
      assert a[..k + 1] == b[..k + 1] <==> a[1..][..k] == b[1..][..k] by {
        assert a[..k + 1][1..] == a[1..][..k] && b[..k + 1][1..] == b[1..][..k];
      }
    }
  }

  lemma AgreeFirst(a: string, b: string, k: nat)
    requires FirstDifference(a, b, k) && k > 0
    ensures a != [] && b != [] && a[0] == b[0]
  {
    assert a[..k][0] == a[0] && b[..k][0] == b[0];
  }

  /** The order is dictionary order. */
  lemma {:induction false} LessIsPrecedes(a: string, b: string)
    ensures Less(a, b) <==> Precedes(a, b)
  {
    if a == [] || b == [] || a[0] != b[0] {
      assert Less(a, b) <==> FirstDifference(a, b, 0);
      if Precedes(a, b) {
        var k: nat :| FirstDifference(a, b, k);
        if k > 0 { AgreeFirst(a, b, k); }
      }
    } else {
      LessIsPrecedes(a[1..], b[1..]);
      if Precedes(a[1..], b[1..]) {
        var k: nat :| FirstDifference(a[1..], b[1..], k);
        DifferenceBehind(a, b, k);
      }
      if Precedes(a, b) {
        var k: nat :| FirstDifference(a, b, k);
        DifferenceBehind(a, b, k - 1);
      }
    }
  }

  /** The scalar values `char::is_whitespace` accepts (the Unicode White_Space property). */
  predicate IsWhitespace(c: char) {
    || '\t' <= c <= '\r' || c == ' '
    || c == '\U{85}' || c == '\U{A0}' || c == '\U{1680}'
    || '\U{2000}' <= c <= '\U{200A}'
    || c == '\U{2028}' || c == '\U{2029}' || c == '\U{202F}' || c == '\U{205F}' || c == '\U{3000}'
  }

  function TrimStart(s: string): string {
    if s != [] && IsWhitespace(s[0]) then TrimStart(s[1..]) else s
  }

  function TrimEnd(s: string): string {
    if s != [] && IsWhitespace(s[|s| - 1]) then TrimEnd(s[..|s| - 1]) else s
  }

  /** `str::trim`. */
  function Trim(s: string): string {
    TrimEnd(TrimStart(s))
  }

  /** `line.trim().is_empty()`. */
  predicate Blank(s: string) {
    Trim(s) == []
  }

  /** These are the ends of the text without the whitespace around it. */
  ghost predicate TrimmedAt(s: string, i: nat, j: nat) {
    && i <= j <= |s|
    && (forall k :: 0 <= k < i || j <= k < |s| ==> IsWhitespace(s[k]))
    && (i < j ==> !IsWhitespace(s[i]) && !IsWhitespace(s[j - 1]))
  }

  ghost predicate Trimmed(s: string, t: string) {
    exists i: nat, j: nat :: TrimmedAt(s, i, j) && t == s[i..j]
  }

  lemma {:induction false} TrimStartAt(s: string) returns (i: nat)
    ensures i <= |s| && TrimStart(s) == s[i..]
    ensures (forall k :: 0 <= k < i ==> IsWhitespace(s[k])) && (i < |s| ==> !IsWhitespace(s[i]))
  {
    if s != [] && IsWhitespace(s[0]) {
      var j := TrimStartAt(s[1..]);
      i := j + 1;
      assert s[1..][j..] == s[i..];
      assert forall k :: 0 < k < i ==> s[k] == s[1..][k - 1];
    } else {
      i := 0;
      assert s[0..] == s;
    }
  }

  lemma {:induction false} TrimEndAt(s: string) returns (j: nat)
    ensures j <= |s| && TrimEnd(s) == s[..j]
    ensures (forall k :: j <= k < |s| ==> IsWhitespace(s[k])) && (j > 0 ==> !IsWhitespace(s[j - 1]))
  {
    if s != [] && IsWhitespace(s[|s| - 1]) {
      var front := s[..|s| - 1];
      j := TrimEndAt(front);
      assert front[..j] == s[..j];
      assert forall k :: 0 <= k < |s| - 1 ==> s[k] == front[k];
    } else {
      j := |s|;
      assert s[..j] == s;
    }
  }

  /** Trimming takes the whitespace off both ends and nothing else, so that no other text is trimmed so;
      blank is what is all whitespace. */
  lemma TrimIsTrimmed(s: string)
    ensures forall t :: t == Trim(s) <==> Trimmed(s, t)
    ensures Blank(s) <==> forall k :: 0 <= k < |s| ==> IsWhitespace(s[k])
  {
    var i := TrimStartAt(s);
    var j := TrimEndAt(s[i..]);
    assert s[i..][..j] == s[i..i + j];
    assert forall k :: i <= k < |s| ==> s[k] == s[i..][k - i];
    assert TrimmedAt(s, i, i + j);
    assert Trimmed(s, Trim(s));
    forall t | Trimmed(s, t) ensures t == Trim(s) {
      var m: nat, n: nat :| TrimmedAt(s, m, n) && t == s[m..n];
      TrimmedOnce(s, i, i + j, m, n);
    }
  }

  lemma TrimmedOnce(s: string, i: nat, j: nat, m: nat, n: nat)
    requires TrimmedAt(s, i, j) && TrimmedAt(s, m, n)
    ensures s[i..j] == s[m..n]
  {
    assert i < j ==> m <= i < n && m <= j - 1 < n;
    assert m < n ==> i <= m < j && i <= n - 1 < j;
  }

  /** A line that shows a printed character on its first column is not blank. */
  lemma {:induction false} NotBlank(s: string)
    requires s != [] && !IsWhitespace(s[0])
    ensures !Blank(s)
  {
    TrimEndKeepsFirst(s);
  }

  lemma {:induction false} TrimEndKeepsFirst(s: string)
    requires s != [] && !IsWhitespace(s[0])
    ensures TrimEnd(s) != [] && TrimEnd(s)[0] == s[0]
  {
    if IsWhitespace(s[|s| - 1]) {
      TrimEndKeepsFirst(s[..|s| - 1]);
    }
  }

  /** The position of the first newline, or the length when there is none. */
  function LineEnd(s: string): (n: nat)
    ensures n <= |s|
    ensures forall i :: 0 <= i < n ==> s[i] != '\n'
    ensures n < |s| ==> s[n] == '\n'
  {
    if s == [] || s[0] == '\n' then 0 else 1 + LineEnd(s[1..])
  }

  /** `str::lines` drops one carriage return in front of a newline and no other. */
  function StripCR(line: string): string {
    if line != [] && line[|line| - 1] == '\r' then line[..|line| - 1] else line
  }

  /** `str::lines`: a final unterminated line counts, a final empty one does not. */
  function Lines(s: string): seq<string> {
    if s == [] then []
    else
      var n := LineEnd(s);
      if n == |s| then [s] else [StripCR(s[..n])] + Lines(s[n + 1..])
  }

  predicate Terminated(s: string) {
    s == [] || s[|s| - 1] == '\n'
  }

  lemma LineEndUnique(s: string, n: nat)
    requires n <= |s| && (n < |s| ==> s[n] == '\n')
    requires forall i :: 0 <= i < n ==> s[i] != '\n'
    ensures LineEnd(s) == n
  {
  }

  lemma SplitConcat(a: string, b: string, n: nat)
    requires n < |a|
    ensures (a + b)[..n] == a[..n] && (a + b)[n + 1..] == a[n + 1..] + b
  {
  }

  lemma LineEndConcat(a: string, b: string)
    requires LineEnd(a) < |a|
    ensures LineEnd(a + b) == LineEnd(a)
  {
    LineEndUnique(a + b, LineEnd(a));
  }

  lemma LinesHead(s: string, n: nat, head: string, rest: string)
    requires LineEnd(s) == n < |s| && head == s[..n] && rest == s[n + 1..]
    ensures Lines(s) == [StripCR(head)] + Lines(rest)
  {
  }

  lemma TerminatedRest(a: string)
    requires a != [] && Terminated(a)
    ensures LineEnd(a) < |a| && Terminated(a[LineEnd(a) + 1..])
  {
    assert a[|a| - 1] == '\n';
  }

  lemma Assoc<T>(a: seq<T>, b: seq<T>, c: seq<T>)
    ensures a + (b + c) == (a + b) + c
  {
  }

  /** Lines of a newline-terminated text are unaffected by what follows it. */
  lemma {:induction false} LinesConcat(a: string, b: string)
    requires Terminated(a)
    ensures Lines(a + b) == Lines(a) + Lines(b)
  {
    if a == [] {
      assert a + b == b;
    } else {
      TerminatedRest(a);
      LinesConcatStep(a, b, LineEnd(a), a[..LineEnd(a)], a[LineEnd(a) + 1..]);
      LinesConcat(a[LineEnd(a) + 1..], b);
      Assoc([StripCR(a[..LineEnd(a)])], Lines(a[LineEnd(a) + 1..]), Lines(b));
    }
  }

  lemma LinesConcatStep(a: string, b: string, n: nat, head: string, rest: string)
    requires LineEnd(a) == n < |a| && head == a[..n] && rest == a[n + 1..]
    ensures Lines(a) == [StripCR(head)] + Lines(rest)
    ensures Lines(a + b) == [StripCR(head)] + Lines(rest + b)
  {
    LineEndConcat(a, b);
    SplitConcat(a, b, n);
    LinesHead(a, n, head, rest);
    LinesHead(a + b, n, head, rest + b);
  }

  /** One record: a text without newline or final carriage return, then a newline. */
  lemma LinesOfRecord(line: string)
    requires '\n' !in line && (line != [] ==> line[|line| - 1] != '\r')
    ensures Lines(line + "\n") == [line]
  {
    FirstLine(line, "");
    assert line + "\n" + "" == line + "\n";
  }

  /** What `str::lines` makes of the first line: a newline ends it, a carriage return in front of the
      newline goes with it, and a last line needs no newline. */
  lemma LinesEquations(line: string, rest: string)
    requires '\n' !in line
    ensures Lines("") == [] && (line != "" ==> Lines(line) == [line])
    ensures line == "" || line[|line| - 1] != '\r' ==> Lines(line + "\n" + rest) == [line] + Lines(rest)
    ensures Lines(line + "\r\n" + rest) == [line] + Lines(rest)
  {
    LastLineAlone(line);
    FirstLine(line, rest);
    FirstLine(line + "\r", rest);
    assert "\r" + "\n" == "\r\n";
    JoinText(line, "\r", "\n", rest);
    assert StripCR(line + "\r") == line;
  }

  lemma JoinText(a: string, b: string, c: string, d: string)
    ensures (a + b) + c + d == a + (b + c) + d
  {
  }

  lemma LastLineAlone(line: string)
    requires '\n' !in line
    ensures line != "" ==> Lines(line) == [line]
  {
    LineEndUnique(line, |line|);
  }

  lemma FirstLine(line: string, rest: string)
    requires '\n' !in line
    ensures Lines(line + "\n" + rest) == [StripCR(line)] + Lines(rest)
  {
    var s := line + "\n" + rest;
    assert s[..|line|] == line && s[|line| + 1..] == rest && s[|line|] == '\n';
    LineEndUnique(s, |line|);
    LinesHead(s, |line|, line, rest);
  }
}
