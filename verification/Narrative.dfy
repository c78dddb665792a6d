/** The narrative printer and the validator's scanner for the claim markers it prints. */
module Narrative {
  import opened Strings
  import opened Options

  datatype Claim = Claim(id: string, text: string)

  datatype ClaimLineRange = ClaimLineRange(claimId: string, startLine: nat, endLine: nat, textSha256: string)

  const OPENER := "<!-- CLAIM:"
  const CLOSER := "-->"

  const HEADER_TEXT := "All claims below require citation support under strict mode."

  const HEADER: seq<string> := ["# Evidence Narrative", "", HEADER_TEXT, ""]

  // The opening and closing text of a marker is passed to the functions below, so that only
  // the entry points and the final theorems mention the literals.

  function Marker(opener: string, closer: string, id: string): string {
    opener + (id + (" " + closer))
  }

  // ----- Printing -----

  /** The lines one claim adds. */
  function ClaimLines(opener: string, closer: string, c: Claim): seq<string> {
    [Marker(opener, closer, c.id)] + (Lines(c.text) + [""])
  }

  /** The lines after the claims have been added behind a header. */
  function LinesAfter(opener: string, closer: string, header: seq<string>, claims: seq<Claim>): seq<string> {
    if claims == [] then header
    else
      LinesAfter(opener, closer, header, claims[..|claims| - 1])
      + ClaimLines(opener, closer, claims[|claims| - 1])
  }

  function NarrativeLines(claims: seq<Claim>): seq<string> {
    LinesAfter(OPENER, CLOSER, HEADER, claims)
  }

  /** `lines.join("\n")`. */
  function Join(lines: seq<string>): string {
    if lines == [] then ""
    else if |lines| == 1 then lines[0]
    else lines[0] + ("\n" + Join(lines[1..]))
  }

  /** What is recorded for a claim whose marker stands behind `before` lines. */
  function RangeAt(sha256Hex: string -> string, c: Claim, before: nat): ClaimLineRange {
    ClaimLineRange(c.id, before + 2, before + 1 + |Lines(c.text)|, sha256Hex(c.text))
  }

  function RangesAfter(sha256Hex: string -> string, opener: string, closer: string, header: seq<string>,
                       claims: seq<Claim>): seq<ClaimLineRange>
  {
    if claims == [] then []
    else
      var front := claims[..|claims| - 1];
      RangesAfter(sha256Hex, opener, closer, header, front)
      + [RangeAt(sha256Hex, claims[|claims| - 1], |LinesAfter(opener, closer, header, front)|)]
  }

  lemma AddClaim(sha256Hex: string -> string, opener: string, closer: string, header: seq<string>,
                 claims: seq<Claim>, i: nat)
    requires i < |claims|
    ensures LinesAfter(opener, closer, header, claims[..i + 1])
         == LinesAfter(opener, closer, header, claims[..i]) + ClaimLines(opener, closer, claims[i])
    ensures RangesAfter(sha256Hex, opener, closer, header, claims[..i + 1])
         == RangesAfter(sha256Hex, opener, closer, header, claims[..i])
          + [RangeAt(sha256Hex, claims[i], |LinesAfter(opener, closer, header, claims[..i])|)]
  {
    assert claims[..i + 1][..i] == claims[..i];
  }

  lemma Regroup(lines: seq<string>, marker: string, content: seq<string>)
    ensures ((lines + [marker]) + content) + [""] == lines + ([marker] + (content + [""]))
    ensures |(lines + [marker]) + content| == |lines| + 1 + |content|
  {
  }

  /** The inner loop: the marker, the lines of the text, a blank line, and the range between. */
  method RenderClaim(sha256Hex: string -> string, opener: string, closer: string, before: seq<string>, claim: Claim)
    returns (lines: seq<string>, range: ClaimLineRange)
    ensures lines == before + ClaimLines(opener, closer, claim)
    ensures range == RangeAt(sha256Hex, claim, |before|)
  {
    var marker := Marker(opener, closer, claim.id);
    var content := Lines(claim.text);
    lines := before + [marker];
    var startLine := |lines| + 1;
    var j := 0;
    while j < |content|
      invariant 0 <= j <= |content|
      invariant lines == (before + [marker]) + content[..j]
    {
      lines := lines + [content[j]];
      j := j + 1;
    }
    assert content[..j] == content;
    Regroup(before, marker, content);
    range := ClaimLineRange(claim.id, startLine, |lines|, sha256Hex(claim.text));
    lines := lines + [""];
  }

  /** The outer loop. */
  method RenderLines(sha256Hex: string -> string, opener: string, closer: string, header: seq<string>,
                     claims: seq<Claim>)
    returns (lines: seq<string>, ranges: seq<ClaimLineRange>)
    ensures lines == LinesAfter(opener, closer, header, claims)
    ensures ranges == RangesAfter(sha256Hex, opener, closer, header, claims)
  {
    lines := header;
    ranges := [];
    var i := 0;
    while i < |claims|
      invariant 0 <= i <= |claims|
      invariant lines == LinesAfter(opener, closer, header, claims[..i])
      invariant ranges == RangesAfter(sha256Hex, opener, closer, header, claims[..i])
    {
      AddClaim(sha256Hex, opener, closer, header, claims, i);
      var range;
      lines, range := RenderClaim(sha256Hex, opener, closer, lines, claims[i]);
      ranges := ranges + [range];
      i := i + 1;
    }
    assert claims[..i] == claims;
  }

  /** `render_narrative_markdown`. */
  method RenderNarrativeMarkdown(sha256Hex: string -> string, claims: seq<Claim>)
    returns (markdown: string, ranges: seq<ClaimLineRange>)
    ensures markdown == Join(NarrativeLines(claims))
    ensures ranges == RangesAfter(sha256Hex, OPENER, CLOSER, HEADER, claims)
    ensures exists lines :: markdown == Join(lines) && Narrated(sha256Hex, claims, lines, ranges)
  {
    NarrativeNarrated(sha256Hex, claims);
    var lines;
    lines, ranges := RenderLines(sha256Hex, OPENER, CLOSER, HEADER, claims);
    markdown := Join(lines);
  }

  // ----- Scanning -----

  predicate OccursAt(s: string, needle: string, p: nat) {
    p + |needle| <= |s| && forall i :: 0 <= i < |needle| ==> s[p + i] == needle[i]
  }

  ghost predicate Contains(s: string, needle: string) {
    exists p :: OccursAt(s, needle, p)
  }

  /** `s[from..].find(needle)`, as a position of `s`. */
  function Find(s: string, needle: string, from: nat): (r: Option<nat>)
    ensures r.Some? ==> from <= r.value && r.value + |needle| <= |s|
    decreases |s| - from
  {
    if OccursAt(s, needle, from) then Some(from)
    else if from < |s| then Find(s, needle, from + 1)
    else None
  }

  /** What the scan meets next: a marker with this trimmed text, continuing at `next`. */
  datatype Hit = Miss | Hit(id: string, next: nat)

  function MarkerAt(closer: string, s: string, start: nat): (r: Hit)
    ensures r.Hit? ==> start <= r.next <= |s|
  {
    var end := Find(s, closer, start);
    if end.None? then Miss else Hit(Trim(s[start..end.value]), end.value + |closer|)
  }

  function NextMarker(opener: string, closer: string, s: string, idx: nat): (r: Hit)
    ensures r.Hit? ==> idx + |opener| <= r.next <= |s|
  {
    var p := Find(s, opener, idx);
    if p.None? then Miss else MarkerAt(closer, s, p.value + |opener|)
  }

  /** The marker ids from a position on; only ids that start with C count. */
  function Scan(opener: string, closer: string, s: string, idx: nat): seq<string>
    requires opener != [] && idx <= |s|
    decreases |s| - idx
  {
    var m := NextMarker(opener, closer, s, idx);
    if m.Miss? then []
    else (if m.id != [] && m.id[0] == 'C' then [m.id] else []) + Scan(opener, closer, s, m.next)
  }

  lemma ScanStep(opener: string, closer: string, s: string, idx: nat, out: seq<string>)
    requires opener != [] && idx <= |s| && NextMarker(opener, closer, s, idx).Hit?
    ensures var m := NextMarker(opener, closer, s, idx);
      out + Scan(opener, closer, s, idx)
      == (if m.id != [] && m.id[0] == 'C' then out + [m.id] else out) + Scan(opener, closer, s, m.next)
  {
  }

  /** One round of the loop: the two searches and the trimmed text between them. */
  method ReadMarker(opener: string, closer: string, s: string, idx: nat) returns (m: Hit)
    ensures m == NextMarker(opener, closer, s, idx)
  {
    var pos := Find(s, opener, idx);
    if pos.None? {
      return Miss;
    }
    var start := pos.value + |opener|;
    var end := Find(s, closer, start);
    if end.None? {
      return Miss;
    }
    m := Hit(Trim(s[start..end.value]), end.value + |closer|);
  }

  method FindMarkers(opener: string, closer: string, s: string) returns (out: seq<string>)
    requires opener != []
    ensures out == Scan(opener, closer, s, 0)
  {
    out := [];
    var idx := 0;
    var m := ReadMarker(opener, closer, s, idx);
    while m.Hit?
      invariant 0 <= idx <= |s| && m == NextMarker(opener, closer, s, idx)
      invariant out + Scan(opener, closer, s, idx) == Scan(opener, closer, s, 0)
      decreases |s| - idx
    {
      ScanStep(opener, closer, s, idx, out);
      if m.id != [] && m.id[0] == 'C' {
        out := out + [m.id];
      }
      idx := m.next;
      m := ReadMarker(opener, closer, s, idx);
    }
  }

  /** `regex_find_claim_markers`. */
  method FindClaimMarkers(s: string) returns (out: seq<string>)
    ensures out == Scan(OPENER, CLOSER, s, 0)
    ensures exists spans :: Spans("<!-- CLAIM:", "-->", s, 0, spans) && out == ClaimIds(s, spans)
  {
    var _ := SpansScanned(OPENER, CLOSER, s, 0);
    out := FindMarkers(OPENER, CLOSER, s);
  }

  // ----- What the scan finds -----

  /** The text of a marker, between its opener and its closer. */
  datatype Span = Span(start: nat, end: nat)

  /** The first place at or behind this position where the text occurs. */
  ghost predicate FirstFrom(s: string, needle: string, from: nat, p: nat) {
    from <= p && OccursAt(s, needle, p) && forall q :: from <= q < p ==> !OccursAt(s, needle, q)
  }

  ghost predicate Absent(s: string, needle: string, from: nat) {
    forall q :: from <= q ==> !OccursAt(s, needle, q)
  }

  /** The marker behind a position: its text begins behind the first opener and ends at the first closer
      behind that. */
  ghost predicate SpanFrom(opener: string, closer: string, s: string, from: nat, span: Span) {
    && |opener| <= span.start <= span.end <= |s|
    && FirstFrom(s, opener, from, span.start - |opener|) && FirstFrom(s, closer, span.start, span.end)
  }

  /** No opener follows, or no closer follows the next one. */
  ghost predicate NoSpan(opener: string, closer: string, s: string, from: nat) {
    || Absent(s, opener, from)
    || exists p: nat :: FirstFrom(s, opener, from, p) && Absent(s, closer, p + |opener|)
  }

  /** All markers behind a position, each looked for where the one before has ended. */
  ghost predicate Spans(opener: string, closer: string, s: string, from: nat, spans: seq<Span>)
    decreases |spans|
  {
    if spans == [] then NoSpan(opener, closer, s, from)
    else SpanFrom(opener, closer, s, from, spans[0])
         && Spans(opener, closer, s, spans[0].end + |closer|, spans[1..])
  }

  /** The trimmed texts that begin with a C. */
  function ClaimIds(s: string, spans: seq<Span>): seq<string> {
    if spans == [] then []
    else
      var id := if spans[0].start <= spans[0].end <= |s| then Trim(s[spans[0].start..spans[0].end]) else "";
      (if "C" <= id then [id] else []) + ClaimIds(s, spans[1..])
  }

  lemma {:induction false} FindIsFirst(s: string, needle: string, from: nat)
    ensures var r := Find(s, needle, from);
      if r.Some? then FirstFrom(s, needle, from, r.value) else Absent(s, needle, from)
    decreases |s| - from
  {
    if !OccursAt(s, needle, from) && from < |s| {
      FindIsFirst(s, needle, from + 1);
    }
  }

  lemma NextSpan(opener: string, closer: string, s: string, idx: nat) returns (found: Option<Span>)
    requires opener != [] && idx <= |s|
    ensures match found
      case None => NoSpan(opener, closer, s, idx) && NextMarker(opener, closer, s, idx).Miss?
      case Some(span) =>
        && SpanFrom(opener, closer, s, idx, span)
        && NextMarker(opener, closer, s, idx) == Hit(Trim(s[span.start..span.end]), span.end + |closer|)
  {
    FindIsFirst(s, opener, idx);
    var p := Find(s, opener, idx);
    if p.None? {
      return None;
    }
    FindIsFirst(s, closer, p.value + |opener|);
    var end := Find(s, closer, p.value + |opener|);
    found := if end.None? then None else Some(Span(p.value + |opener|, end.value));
  }

  lemma SpansCons(opener: string, closer: string, s: string, from: nat, span: Span, more: seq<Span>)
    requires SpanFrom(opener, closer, s, from, span) && Spans(opener, closer, s, span.end + |closer|, more)
    ensures Spans(opener, closer, s, from, [span] + more)
  {
    assert ([span] + more)[1..] == more;
  }

  lemma ClaimIdsCons(s: string, span: Span, more: seq<Span>)
    requires span.start <= span.end <= |s|
    ensures var id := Trim(s[span.start..span.end]);
      ClaimIds(s, [span] + more) == (if id != [] && id[0] == 'C' then [id] else []) + ClaimIds(s, more)
  {
    assert ([span] + more)[1..] == more;
    var id := Trim(s[span.start..span.end]);
    assert id != [] && id[0] == 'C' <==> "C" <= id;
  }

  lemma ScanNext(opener: string, closer: string, s: string, idx: nat, id: string, next: nat)
    requires opener != [] && idx <= |s| && NextMarker(opener, closer, s, idx) == Hit(id, next)
    ensures idx < next <= |s|
    ensures Scan(opener, closer, s, idx)
      == (if id != [] && id[0] == 'C' then [id] else []) + Scan(opener, closer, s, next)
  {
  }

  lemma {:induction false} SpansScanned(opener: string, closer: string, s: string, idx: nat) returns (spans: seq<Span>)
    requires opener != [] && idx <= |s|
    ensures Spans(opener, closer, s, idx, spans) && Scan(opener, closer, s, idx) == ClaimIds(s, spans)
    decreases |s| - idx
  {
    var found := NextSpan(opener, closer, s, idx);
    if found.None? {
      return [];
    }
    var span := found.value;
    var next := span.end + |closer|;
    ScanNext(opener, closer, s, idx, Trim(s[span.start..span.end]), next);
    var more := SpansScanned(opener, closer, s, next);
    spans := [span] + more;
    SpansCons(opener, closer, s, idx, span, more);
    ClaimIdsCons(s, span, more);
  }

  // ----- The scan of a tail -----

  predicate TailAt(s: string, n: nat, b: string) {
    |s| == n + |b| && forall k :: 0 <= k < |b| ==> s[n + k] == b[k]
  }

  predicate LeadsAt(s: string, a: string) {
    |a| <= |s| && forall k :: 0 <= k < |a| ==> s[k] == a[k]
  }

  lemma OccursInTail(s: string, n: nat, b: string, needle: string, p: nat)
    requires TailAt(s, n, b)
    ensures OccursAt(s, needle, n + p) <==> OccursAt(b, needle, p)
  {
    if p + |needle| <= |b| {
      assert s[n + p..n + p + |needle|] == b[p..p + |needle|];
    }
  }

  lemma {:induction false} FindInTail(s: string, n: nat, b: string, needle: string, from: nat)
    requires TailAt(s, n, b)
    ensures var r := Find(b, needle, from);
      Find(s, needle, n + from) == if r.None? then None else Some(n + r.value)
    decreases |b| - from
  {
    OccursInTail(s, n, b, needle, from);
    if !OccursAt(b, needle, from) && from < |b| {
      FindInTail(s, n, b, needle, from + 1);
    }
  }

  lemma SliceInTail(s: string, n: nat, b: string, i: nat, j: nat)
    requires TailAt(s, n, b) && i <= j <= |b|
    ensures s[n + i..n + j] == b[i..j]
  {
  }

  function Later(m: Hit, n: nat): Hit {
    if m.Miss? then Miss else Hit(m.id, n + m.next)
  }

  lemma MarkerInTail(closer: string, s: string, n: nat, b: string, start: nat)
    requires TailAt(s, n, b)
    ensures MarkerAt(closer, s, n + start) == Later(MarkerAt(closer, b, start), n)
  {
    FindInTail(s, n, b, closer, start);
    var end := Find(b, closer, start);
    if end.Some? {
      SliceInTail(s, n, b, start, end.value);
    }
  }

  lemma NextMarkerInTail(opener: string, closer: string, s: string, n: nat, b: string, idx: nat)
    requires TailAt(s, n, b)
    ensures NextMarker(opener, closer, s, n + idx) == Later(NextMarker(opener, closer, b, idx), n)
  {
    FindInTail(s, n, b, opener, idx);
    var p := Find(b, opener, idx);
    if p.Some? {
      MarkerInTail(closer, s, n, b, p.value + |opener|);
    }
  }

  /** Two scans that meet the same marker, and agree behind it, agree. */
  lemma ScanAgrees(opener: string, closer: string, s: string, k: nat, b: string, idx: nat, n: nat)
    requires opener != [] && k <= |s| && idx <= |b|
    requires var m := NextMarker(opener, closer, b, idx);
      && NextMarker(opener, closer, s, k) == Later(m, n)
      && (m.Hit? ==> n + m.next <= |s| && Scan(opener, closer, s, n + m.next) == Scan(opener, closer, b, m.next))
    ensures Scan(opener, closer, s, k) == Scan(opener, closer, b, idx)
  {
  }

  lemma {:induction false} ScanFromTail(opener: string, closer: string, s: string, n: nat, b: string, idx: nat)
    requires opener != [] && idx <= |b| && TailAt(s, n, b)
    ensures Scan(opener, closer, s, n + idx) == Scan(opener, closer, b, idx)
    decreases |b| - idx
  {
    NextMarkerInTail(opener, closer, s, n, b, idx);
    var m := NextMarker(opener, closer, b, idx);
    if m.Hit? {
      ScanFromTail(opener, closer, s, n, b, m.next);
    }
    ScanAgrees(opener, closer, s, n + idx, b, idx, n);
  }

  lemma ScanInTail(opener: string, closer: string, s: string, n: nat, b: string)
    requires opener != [] && TailAt(s, n, b)
    ensures Scan(opener, closer, s, n) == Scan(opener, closer, b, 0)
  {
    ScanFromTail(opener, closer, s, n, b, 0);
  }

  // ----- Lines in front of a tail -----

  /** Nothing is found before a position that no occurrence precedes. */
  lemma {:induction false} FindSkips(s: string, needle: string, from: nat, to: nat)
    requires from <= to <= |s| && forall q: nat :: from <= q < to ==> !OccursAt(s, needle, q)
    ensures Find(s, needle, from) == Find(s, needle, to)
    decreases |s| - from
  {
    if from < to {
      FindSkips(s, needle, from + 1, to);
    }
  }

  lemma {:induction false} FindNothing(s: string, needle: string, from: nat)
    requires !Contains(s, needle)
    ensures Find(s, needle, from) == None
    decreases |s| - from
  {
    if from < |s| {
      FindNothing(s, needle, from + 1);
    }
  }

  /** An occurrence cannot reach over a character the needle lacks. */
  lemma NoOccurrenceAcross(s: string, a: string, needle: string, p: nat)
    requires |a| < |s| && LeadsAt(s, a) && s[|a|] !in needle && needle != []
    requires !OccursAt(a, needle, p) && p <= |a|
    ensures !OccursAt(s, needle, p)
  {
    if |a| < p + |needle| <= |s| {
      assert needle[|a| - p] in needle && s[p + (|a| - p)] == s[|a|];
    }
  }

  /** Behind a text without the needle and a character the needle lacks, the search starts over. */
  lemma FindPast(s: string, a: string, needle: string)
    requires |a| < |s| && LeadsAt(s, a) && s[|a|] !in needle && needle != []
    requires !Contains(a, needle)
    ensures Find(s, needle, 0) == Find(s, needle, |a| + 1)
  {
    forall q: nat | q < |a| + 1 ensures !OccursAt(s, needle, q) {
      NoOccurrenceAcross(s, a, needle, q);
    }
    FindSkips(s, needle, 0, |a| + 1);
  }

  lemma NextMarkerFrom(opener: string, closer: string, s: string, i: nat, j: nat)
    requires opener != [] && i <= |s| && j <= |s| && Find(s, opener, i) == Find(s, opener, j)
    ensures Scan(opener, closer, s, i) == Scan(opener, closer, s, j)
  {
    assert NextMarker(opener, closer, s, i) == NextMarker(opener, closer, s, j);
  }

  /** A line without a marker opener adds nothing. */
  lemma ScanPlainLine(opener: string, closer: string, s: string, line: string, rest: string)
    requires opener != [] && '\n' !in opener && !Contains(line, opener)
    requires |line| < |s| && LeadsAt(s, line) && s[|line|] == '\n' && TailAt(s, |line| + 1, rest)
    ensures Scan(opener, closer, s, 0) == Scan(opener, closer, rest, 0)
  {
    FindPast(s, line, opener);
    NextMarkerFrom(opener, closer, s, 0, |line| + 1);
    ScanInTail(opener, closer, s, |line| + 1, rest);
  }

  lemma LastPlainLine(opener: string, closer: string, line: string)
    requires opener != [] && !Contains(line, opener)
    ensures Scan(opener, closer, line, 0) == []
  {
    FindNothing(line, opener, 0);
  }

  // ----- A marker in front of a tail -----

  lemma {:induction false} TrimEndLonger(id: string)
    requires id != [] && !IsWhitespace(id[0])
    ensures TrimEnd(id + " ") == TrimEnd(id)
  {
    assert (id + " ")[..|id|] == id;
  }

  /** A trimmed id that starts with C survives the trimming of the marker's inner text. */
  lemma TrimId(id: string)
    requires id != [] && id[0] == 'C' && Trim(id) == id
    ensures Trim(id + " ") == id
  {
    TrimEndLonger(id);
  }

  ghost predicate GoodId(closer: string, id: string) {
    id != [] && id[0] == 'C' && Trim(id) == id && !Contains(id, closer)
  }

  /** Behind the opener the text up to the closer is the id and a blank. */
  lemma MarkerRead(closer: string, s: string, id: string)
    requires closer != [] && ' ' !in closer && GoodId(closer, id)
    requires |id| < |s| && s[..|id| + 1] == id + " " && LeadsAt(s, id) && s[|id|] == ' '
    requires OccursAt(s, closer, |id| + 1)
    ensures MarkerAt(closer, s, 0) == Hit(id, |id| + 1 + |closer|)
  {
    FindPast(s, id, closer);
    TrimId(id);
  }

  /** The marker of a claim with a text behind it. */
  function MarkerInner(closer: string, id: string, tail: string): string {
    id + (" " + (closer + tail))
  }

  lemma InnerShape(closer: string, id: string, tail: string)
    ensures var s := MarkerInner(closer, id, tail);
      && |id| < |s| && s[..|id| + 1] == id + " " && LeadsAt(s, id) && s[|id|] == ' '
      && OccursAt(s, closer, |id| + 1) && TailAt(s, |id| + 1 + |closer|, tail)
  {
    var s := MarkerInner(closer, id, tail);
    assert forall k :: 0 <= k < |closer| ==> s[|id| + 1 + k] == closer[k];
    assert forall k :: 0 <= k < |tail| ==> s[|id| + 1 + |closer| + k] == tail[k];
  }

  lemma TailOfTail(s: string, n: nat, b: string, m: nat, c: string)
    requires TailAt(s, n, b) && TailAt(b, m, c)
    ensures TailAt(s, n + m, c)
  {
    assert forall k :: 0 <= k < |c| ==> s[n + (m + k)] == b[m + k] == c[k];
  }

  lemma OpenerFound(opener: string, closer: string, s: string, inner: string, id: string, n: nat)
    requires OccursAt(s, opener, 0) && TailAt(s, |opener|, inner) && MarkerAt(closer, inner, 0) == Hit(id, n)
    ensures NextMarker(opener, closer, s, 0) == Hit(id, |opener| + n)
  {
    MarkerInTail(closer, s, |opener|, inner, 0);
  }

  lemma ScanHit(opener: string, closer: string, s: string, id: string, next: nat, tail: string)
    requires opener != [] && NextMarker(opener, closer, s, 0) == Hit(id, next) && TailAt(s, next, tail)
    requires id != [] && id[0] == 'C'
    ensures Scan(opener, closer, s, 0) == [id] + Scan(opener, closer, tail, 0)
  {
    ScanInTail(opener, closer, s, next, tail);
  }

  lemma MarkerShape(opener: string, closer: string, id: string, tail: string)
    ensures var inner := MarkerInner(closer, id, tail);
      Marker(opener, closer, id) + tail == opener + inner
  {
  }

  lemma Leads(a: string, b: string)
    ensures OccursAt(a + b, a, 0) && TailAt(a + b, |a|, b)
  {
  }

  /** A marker adds its id. */
  lemma ScanMarkerLine(opener: string, closer: string, id: string, tail: string)
    requires opener != [] && closer != [] && ' ' !in closer && GoodId(closer, id)
    ensures Scan(opener, closer, Marker(opener, closer, id) + tail, 0) == [id] + Scan(opener, closer, tail, 0)
  {
    var inner := MarkerInner(closer, id, tail);
    InnerShape(closer, id, tail);
    MarkerRead(closer, inner, id);
    MarkerShape(opener, closer, id, tail);
    Leads(opener, inner);
    OpenerFound(opener, closer, opener + inner, inner, id, |id| + 1 + |closer|);
    TailOfTail(opener + inner, |opener|, inner, |id| + 1 + |closer|, tail);
    ScanHit(opener, closer, opener + inner, id, |opener| + (|id| + 1 + |closer|), tail);
  }

  // ----- Printing and scanning are inverse -----

  /** The lines show exactly these ids in their markers, and nothing else that opens a marker. */
  ghost predicate Carries(opener: string, closer: string, lines: seq<string>, ids: seq<string>)
    decreases |lines|
  {
    if lines == [] then ids == []
    else
      || (!Contains(lines[0], opener) && Carries(opener, closer, lines[1..], ids))
      || (ids != [] && GoodId(closer, ids[0]) && lines[0] == Marker(opener, closer, ids[0])
          && Carries(opener, closer, lines[1..], ids[1..]))
  }

  lemma {:induction false} CarriesConcat(opener: string, closer: string, a: seq<string>, ia: seq<string>,
                                         b: seq<string>, ib: seq<string>)
    requires Carries(opener, closer, a, ia) && Carries(opener, closer, b, ib)
    ensures Carries(opener, closer, a + b, ia + ib)
    decreases |a|
  {
    if a == [] {
      assert a + b == b && ia + ib == ib;
    } else {
      assert (a + b)[1..] == a[1..] + b;
      if !Contains(a[0], opener) && Carries(opener, closer, a[1..], ia) {
        CarriesConcat(opener, closer, a[1..], ia, b, ib);
      } else {
        CarriesConcat(opener, closer, a[1..], ia[1..], b, ib);
        assert (ia + ib)[1..] == ia[1..] + ib;
      }
    }
  }

  lemma {:induction false} PlainLines(opener: string, closer: string, lines: seq<string>)
    requires forall i :: 0 <= i < |lines| ==> !Contains(lines[i], opener)
    ensures Carries(opener, closer, lines, [])
  {
    if lines != [] {
      PlainLines(opener, closer, lines[1..]);
    }
  }

  lemma OccursInWhole(s: string, from: nat, to: nat, needle: string, p: nat)
    requires from <= to <= |s|
    ensures OccursAt(s[from..to], needle, p) ==> OccursAt(s, needle, from + p)
  {
    if OccursAt(s[from..to], needle, p) {
      assert forall i :: 0 <= i < |needle| ==> needle[i] == s[from..to][p + i] == s[from + p + i];
    }
  }

  lemma ContainsPart(s: string, from: nat, to: nat, needle: string)
    requires from <= to <= |s| && !Contains(s, needle)
    ensures !Contains(s[from..to], needle)
  {
    forall p: nat ensures !OccursAt(s[from..to], needle, p) {
      OccursInWhole(s, from, to, needle, p);
    }
  }

  /** A text without the opener has no line with it. */
  lemma {:induction false} LinesLack(text: string, opener: string)
    requires !Contains(text, opener)
    ensures forall i :: 0 <= i < |Lines(text)| ==> !Contains(Lines(text)[i], opener)
  {
    if text != [] {
      var n := LineEnd(text);
      if n < |text| {
        ContainsPart(text, 0, n, opener);
        ContainsPart(text[..n], 0, if n > 0 then n - 1 else 0, opener);
        ContainsPart(text, n + 1, |text|, opener);
        assert text[n + 1..|text|] == text[n + 1..];
        LinesLack(text[n + 1..], opener);
      }
    }
  }

  function Ids(claims: seq<Claim>): seq<string> {
    if claims == [] then [] else Ids(claims[..|claims| - 1]) + [claims[|claims| - 1].id]
  }

  lemma ClaimCarries(opener: string, closer: string, c: Claim)
    requires opener != [] && GoodId(closer, c.id) && !Contains(c.text, opener)
    ensures Carries(opener, closer, ClaimLines(opener, closer, c), [c.id])
  {
    LinesLack(c.text, opener);
    PlainLines(opener, closer, Lines(c.text) + [""]);
    assert [c.id][1..] == [];
  }

  ghost predicate Scannable(opener: string, closer: string, claims: seq<Claim>) {
    forall i :: 0 <= i < |claims| ==> GoodId(closer, claims[i].id) && !Contains(claims[i].text, opener)
  }

  lemma {:induction false} NarrativeCarries(opener: string, closer: string, header: seq<string>, claims: seq<Claim>)
    requires opener != [] && Scannable(opener, closer, claims) && Carries(opener, closer, header, [])
    ensures Carries(opener, closer, LinesAfter(opener, closer, header, claims), Ids(claims))
  {
    if claims != [] {
      var front, c := claims[..|claims| - 1], claims[|claims| - 1];
      NarrativeCarries(opener, closer, header, front);
      ClaimCarries(opener, closer, c);
      CarriesConcat(opener, closer, LinesAfter(opener, closer, header, front), Ids(front),
                    ClaimLines(opener, closer, c), [c.id]);
    }
  }

  /** What follows the first line in the joined text. */
  function AfterFirst(lines: seq<string>): string
    requires lines != []
  {
    if |lines| == 1 then "" else "\n" + Join(lines[1..])
  }

  lemma JoinFirst(lines: seq<string>)
    requires lines != []
    ensures Join(lines) == lines[0] + AfterFirst(lines)
  {
    assert lines[0] + "" == lines[0];
  }

  lemma PlainShape(line: string, rest: string)
    ensures var s := line + ("\n" + rest);
      |line| < |s| && LeadsAt(s, line) && s[|line|] == '\n' && TailAt(s, |line| + 1, rest)
  {
  }

  lemma ScanAfterFirst(opener: string, closer: string, lines: seq<string>)
    requires lines != [] && opener != [] && '\n' !in opener
    ensures Scan(opener, closer, AfterFirst(lines), 0) == Scan(opener, closer, Join(lines[1..]), 0)
  {
    if |lines| > 1 {
      PlainShape("", Join(lines[1..]));
      assert "" + ("\n" + Join(lines[1..])) == "\n" + Join(lines[1..]);
      ScanPlainLine(opener, closer, AfterFirst(lines), "", Join(lines[1..]));
    }
  }

  lemma ScanPlainFirst(opener: string, closer: string, lines: seq<string>)
    requires lines != [] && opener != [] && '\n' !in opener && !Contains(lines[0], opener)
    ensures Scan(opener, closer, Join(lines), 0) == Scan(opener, closer, Join(lines[1..]), 0)
  {
    if |lines| == 1 {
      LastPlainLine(opener, closer, lines[0]);
      LastPlainLine(opener, closer, "");
    } else {
      PlainShape(lines[0], Join(lines[1..]));
      ScanPlainLine(opener, closer, Join(lines), lines[0], Join(lines[1..]));
    }
  }

  /** The scan of joined lines returns the ids they carry. */
  lemma {:induction false} ScanLines(opener: string, closer: string, lines: seq<string>, ids: seq<string>)
    requires opener != [] && '\n' !in opener && closer != [] && ' ' !in closer
    requires Carries(opener, closer, lines, ids)
    ensures Scan(opener, closer, Join(lines), 0) == ids
    decreases |lines|
  {
    if lines == [] {
      LastPlainLine(opener, closer, "");
    } else if !Contains(lines[0], opener) && Carries(opener, closer, lines[1..], ids) {
      ScanPlainFirst(opener, closer, lines);
      ScanLines(opener, closer, lines[1..], ids);
    } else {
      JoinFirst(lines);
      ScanMarkerLine(opener, closer, ids[0], AfterFirst(lines));
      ScanAfterFirst(opener, closer, lines);
      ScanLines(opener, closer, lines[1..], ids[1..]);
      assert ids == [ids[0]] + ids[1..];
    }
  }

  lemma LacksFirst(s: string, opener: string)
    requires opener != [] && opener[0] !in s
    ensures !Contains(s, opener)
  {
    forall p: nat ensures !OccursAt(s, opener, p) {
      if p + |opener| <= |s| {
        assert s[p + 0] in s && s[p + 0] != opener[0];
      }
    }
  }

  lemma TitleLacks()
    ensures '<' !in HEADER[0] && '\n' !in HEADER[0]
  {
  }

  lemma TextParts()
    ensures HEADER_TEXT == "All claims below require citation " + "support under strict mode."
  {
  }

  lemma TextNoMarker()
    ensures '<' !in HEADER_TEXT
  {
    TextParts();
  }

  lemma TextOneLine()
    ensures '\n' !in HEADER_TEXT
  {
    TextParts();
  }

  lemma HeaderText()
    ensures forall i :: 0 <= i < |HEADER| ==> '<' !in HEADER[i] && '\n' !in HEADER[i]
  {
    TitleLacks();
    TextNoMarker();
    TextOneLine();
  }

  lemma HeaderPlain()
    ensures Carries(OPENER, CLOSER, HEADER, [])
  {
    HeaderText();
    forall i | 0 <= i < |HEADER| ensures !Contains(HEADER[i], OPENER) {
      LacksFirst(HEADER[i], OPENER);
    }
    PlainLines(OPENER, CLOSER, HEADER);
  }

  /** The scanner returns the ids of a printed narrative in order. */
  lemma PrintThenScan(claims: seq<Claim>)
    requires Scannable(OPENER, CLOSER, claims)
    ensures Scan(OPENER, CLOSER, Join(NarrativeLines(claims)), 0) == Ids(claims)
  {
    HeaderPlain();
    NarrativeCarries(OPENER, CLOSER, HEADER, claims);
    ScanLines(OPENER, CLOSER, NarrativeLines(claims), Ids(claims));
  }

  // ----- The line ranges -----

  /** `str::split('\n')`. */
  function Split(s: string): seq<string>
    decreases |s|
  {
    var n := LineEnd(s);
    if n == |s| then [s] else [s[..n]] + Split(s[n + 1..])
  }

  ghost predicate OneLine(s: string) {
    '\n' !in s
  }

  /** Splitting a joined text gives the lines back. */
  lemma {:induction false} SplitJoin(lines: seq<string>)
    requires lines != [] && forall i :: 0 <= i < |lines| ==> OneLine(lines[i])
    ensures Split(Join(lines)) == lines
  {
    var s := Join(lines);
    LineEndUnique(s, |lines[0]|);
    if |lines| > 1 {
      assert s[..|lines[0]|] == lines[0];
      assert s[|lines[0]| + 1..] == Join(lines[1..]);
      SplitJoin(lines[1..]);
    }
  }

  lemma {:induction false} LinesOneLine(text: string)
    ensures forall i :: 0 <= i < |Lines(text)| ==> OneLine(Lines(text)[i])
  {
    if text != [] && LineEnd(text) < |text| {
      LinesOneLine(text[LineEnd(text) + 1..]);
    }
  }

  lemma {:induction false} NarrativeOneLine(opener: string, closer: string, header: seq<string>, claims: seq<Claim>)
    requires forall i :: 0 <= i < |header| ==> OneLine(header[i])
    requires forall i :: 0 <= i < |claims| ==> OneLine(Marker(opener, closer, claims[i].id))
    ensures forall i :: 0 <= i < |LinesAfter(opener, closer, header, claims)| ==>
      OneLine(LinesAfter(opener, closer, header, claims)[i])
  {
    if claims != [] {
      var front, c := claims[..|claims| - 1], claims[|claims| - 1];
      NarrativeOneLine(opener, closer, header, front);
      LinesOneLine(c.text);
    }
  }

  /** The narrative grows claim by claim: the part up to claim `i` stands at its start. */
  lemma {:induction false} NarrativePrefix(opener: string, closer: string, header: seq<string>,
                                           claims: seq<Claim>, i: nat)
    requires i <= |claims|
    ensures LinesAfter(opener, closer, header, claims[..i]) <= LinesAfter(opener, closer, header, claims)
  {
    if i < |claims| {
      var front := claims[..|claims| - 1];
      NarrativePrefix(opener, closer, header, front, i);
      assert front[..i] == claims[..i];
    } else {
      assert claims[..i] == claims;
    }
  }

  lemma {:induction false} RangeOf(sha256Hex: string -> string, opener: string, closer: string,
                                   header: seq<string>, claims: seq<Claim>, i: nat)
    requires i < |claims|
    ensures var ranges := RangesAfter(sha256Hex, opener, closer, header, claims);
      && |ranges| == |claims|
      && ranges[i] == RangeAt(sha256Hex, claims[i], |LinesAfter(opener, closer, header, claims[..i])|)
  {
    var front := claims[..|claims| - 1];
    if i < |front| {
      RangeOf(sha256Hex, opener, closer, header, front, i);
      assert front[..i] == claims[..i];
    } else if front != [] {
      RangeOf(sha256Hex, opener, closer, header, front, |front| - 1);
    }
  }

  /** The range names the claim and covers exactly the lines of its text. */
  predicate Selects(lines: seq<string>, range: ClaimLineRange, c: Claim) {
    && range.claimId == c.id
    && 1 <= range.startLine <= range.endLine + 1 <= |lines| + 1
    && lines[range.startLine - 1..range.endLine] == Lines(c.text)
  }

  lemma SliceOfLines(before: seq<string>, marker: string, content: seq<string>, lines: seq<string>)
    requires before + ([marker] + (content + [""])) <= lines
    ensures |before| + 1 + |content| <= |lines|
    ensures lines[|before| + 1..|before| + 1 + |content|] == content
  {
    var part := before + ([marker] + (content + [""]));
    assert forall k :: 0 <= k < |content| ==> part[|before| + 1 + k] == content[k];
  }

  lemma SelectsAt(sha256Hex: string -> string, opener: string, closer: string, before: seq<string>, c: Claim,
                  lines: seq<string>)
    requires before + ClaimLines(opener, closer, c) <= lines
    ensures Selects(lines, RangeAt(sha256Hex, c, |before|), c)
  {
    SliceOfLines(before, Marker(opener, closer, c.id), Lines(c.text), lines);
  }

  /** Range `i` selects the text of claim `i`. */
  lemma RangeSelects(sha256Hex: string -> string, opener: string, closer: string,
                     header: seq<string>, claims: seq<Claim>, i: nat)
    requires i < |claims|
    ensures var ranges := RangesAfter(sha256Hex, opener, closer, header, claims);
      |ranges| == |claims| && Selects(LinesAfter(opener, closer, header, claims), ranges[i], claims[i])
  {
    RangeOf(sha256Hex, opener, closer, header, claims, i);
    AddClaim(sha256Hex, opener, closer, header, claims, i);
    NarrativePrefix(opener, closer, header, claims, i + 1);
    SelectsAt(sha256Hex, opener, closer, LinesAfter(opener, closer, header, claims[..i]), claims[i],
              LinesAfter(opener, closer, header, claims));
  }

  lemma NextRange(sha256Hex: string -> string, opener: string, closer: string,
                  header: seq<string>, claims: seq<Claim>, i: nat)
    requires i + 1 < |claims|
    ensures var ranges := RangesAfter(sha256Hex, opener, closer, header, claims);
      |ranges| == |claims| && ranges[i + 1].startLine == ranges[i].endLine + 3
  {
    RangeOf(sha256Hex, opener, closer, header, claims, i);
    RangeOf(sha256Hex, opener, closer, header, claims, i + 1);
    AddClaim(sha256Hex, opener, closer, header, claims, i);
  }

  /** Later ranges lie strictly behind earlier ones. */
  lemma {:induction false} RangesIncrease(sha256Hex: string -> string, opener: string, closer: string,
                                          header: seq<string>, claims: seq<Claim>, i: nat, j: nat)
    requires i < j < |claims|
    ensures var ranges := RangesAfter(sha256Hex, opener, closer, header, claims);
      |ranges| == |claims| && ranges[i].endLine + 3 <= ranges[j].startLine
  {
    NextRange(sha256Hex, opener, closer, header, claims, j - 1);
    if i < j - 1 {
      RangeSelects(sha256Hex, opener, closer, header, claims, j - 1);
      RangesIncrease(sha256Hex, opener, closer, header, claims, i, j - 1);
    }
  }

  lemma NarrativeSplits(claims: seq<Claim>)
    requires forall i :: 0 <= i < |claims| ==> OneLine(claims[i].id)
    ensures Split(Join(NarrativeLines(claims))) == NarrativeLines(claims)
  {
    HeaderText();
    assert OneLine(OPENER) && OneLine(CLOSER);
    NarrativeOneLine(OPENER, CLOSER, HEADER, claims);
    NarrativePrefix(OPENER, CLOSER, HEADER, claims, 0);
    SplitJoin(NarrativeLines(claims));
  }

  /** Split at its newlines, the printed narrative holds the text of every claim exactly in the
      recorded range, and the ranges are disjoint and increasing. */
  lemma RangesCorrect(sha256Hex: string -> string, claims: seq<Claim>, i: nat)
    requires i < |claims| && forall k :: 0 <= k < |claims| ==> OneLine(claims[k].id)
    ensures var printed := Split(Join(NarrativeLines(claims)));
      var ranges := RangesAfter(sha256Hex, OPENER, CLOSER, HEADER, claims);
      && |ranges| == |claims| && Selects(printed, ranges[i], claims[i])
      && forall j :: i < j < |ranges| ==> ranges[i].endLine + 3 <= ranges[j].startLine
  {
    NarrativeSplits(claims);
    RangeSelects(sha256Hex, OPENER, CLOSER, HEADER, claims, i);
    forall j | i < j < |claims|
      ensures var ranges := RangesAfter(sha256Hex, OPENER, CLOSER, HEADER, claims);
        |ranges| == |claims| && ranges[i].endLine + 3 <= ranges[j].startLine
    {
      RangesIncrease(sha256Hex, OPENER, CLOSER, HEADER, claims, i, j);
    }
  }

  // ----- The printed text -----

  /** A claim in the printed lines: its marker, right behind that its text, in the recorded range and with
      the recorded hash, and a blank line. */
  predicate NarratedClaim(sha256Hex: string -> string, c: Claim, lines: seq<string>, range: ClaimLineRange) {
    && Selects(lines, range, c) && range.textSha256 == sha256Hex(c.text)
    && 2 <= range.startLine && lines[range.startLine - 2] == "<!-- CLAIM:" + c.id + " -->"
    && range.endLine < |lines| && lines[range.endLine] == ""
  }

  /** A narrative: the four lines of its header and then claim behind claim, with nothing in between. */
  ghost predicate Narrated(sha256Hex: string -> string, claims: seq<Claim>, lines: seq<string>,
                           ranges: seq<ClaimLineRange>)
  {
    && |ranges| == |claims| && |lines| >= 4
    && lines[0] == "# Evidence Narrative" && lines[1] == "" && lines[2] == HEADER_TEXT && lines[3] == ""
    && (forall i :: 0 <= i < |claims| ==> NarratedClaim(sha256Hex, claims[i], lines, ranges[i]))
    && (forall i :: 0 <= i < |claims| ==> ranges[i].startLine == if i == 0 then 6 else ranges[i - 1].endLine + 3)
    && |lines| == if claims == [] then 4 else ranges[|claims| - 1].endLine + 1
  }

  lemma MarkerText(id: string)
    ensures Marker(OPENER, CLOSER, id) == "<!-- CLAIM:" + id + " -->"
  {
    assert " " + CLOSER == " -->";
    assert OPENER + (id + " -->") == OPENER + id + " -->";
  }

  lemma ClaimStands(sha256Hex: string -> string, before: seq<string>, marker: string, c: Claim, lines: seq<string>)
    requires before + ([marker] + (Lines(c.text) + [""])) <= lines
    ensures var range := RangeAt(sha256Hex, c, |before|);
      && Selects(lines, range, c) && 2 <= range.startLine && lines[range.startLine - 2] == marker
      && range.endLine < |lines| && lines[range.endLine] == ""
  {
    var part := before + ([marker] + (Lines(c.text) + [""]));
    SliceOfLines(before, marker, Lines(c.text), lines);
    assert part[|before|] == marker && part[|before| + 1 + |Lines(c.text)|] == "";
  }

  lemma NarratedAt(sha256Hex: string -> string, claims: seq<Claim>, i: nat)
    requires i < |claims|
    ensures var ranges := RangesAfter(sha256Hex, OPENER, CLOSER, HEADER, claims);
      |ranges| == |claims| && NarratedClaim(sha256Hex, claims[i], NarrativeLines(claims), ranges[i])
  {
    RangeOf(sha256Hex, OPENER, CLOSER, HEADER, claims, i);
    AddClaim(sha256Hex, OPENER, CLOSER, HEADER, claims, i);
    NarrativePrefix(OPENER, CLOSER, HEADER, claims, i + 1);
    MarkerText(claims[i].id);
    ClaimStands(sha256Hex, LinesAfter(OPENER, CLOSER, HEADER, claims[..i]), Marker(OPENER, CLOSER, claims[i].id),
                claims[i], NarrativeLines(claims));
  }

  lemma NarrativeNarrated(sha256Hex: string -> string, claims: seq<Claim>)
    ensures Narrated(sha256Hex, claims, NarrativeLines(claims), RangesAfter(sha256Hex, OPENER, CLOSER, HEADER, claims))
  {
    var lines, ranges := NarrativeLines(claims), RangesAfter(sha256Hex, OPENER, CLOSER, HEADER, claims);
    NarrativePrefix(OPENER, CLOSER, HEADER, claims, 0);
    RangesLength(sha256Hex, OPENER, CLOSER, HEADER, claims);
    forall i | 0 <= i < |claims| ensures NarratedClaim(sha256Hex, claims[i], lines, ranges[i]) {
      NarratedAt(sha256Hex, claims, i);
    }
    forall i | 0 <= i < |claims|
      ensures ranges[i].startLine == if i == 0 then 6 else ranges[i - 1].endLine + 3
    {
      if i == 0 {
        RangeOf(sha256Hex, OPENER, CLOSER, HEADER, claims, 0);
      } else {
        NextRange(sha256Hex, OPENER, CLOSER, HEADER, claims, i - 1);
      }
    }
    if claims != [] {
      RangeOf(sha256Hex, OPENER, CLOSER, HEADER, claims, |claims| - 1);
    }
  }

  lemma RangesLength(sha256Hex: string -> string, opener: string, closer: string, header: seq<string>,
                     claims: seq<Claim>)
    ensures |RangesAfter(sha256Hex, opener, closer, header, claims)| == |claims|
  {
    if claims != [] {
      RangeOf(sha256Hex, opener, closer, header, claims, 0);
    }
  }
}
