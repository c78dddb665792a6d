/** The validator's bounds on archive work: declared sizes first, then the bytes that really
    come out of the decompressor. */
module ArchiveLimits {
  import opened Options

  type u64 = n: int | 0 <= n < 0x1_0000_0000_0000_0000

  const MAX_ARCHIVE_BYTES: u64 := 256 * 1024 * 1024
  const MAX_ARCHIVE_ENTRIES := 4096
  const MAX_ENTRY_BYTES: u64 := 64 * 1024 * 1024
  const MAX_TOTAL_UNCOMPRESSED_BYTES: u64 := 256 * 1024 * 1024
  const MAX_COMPRESSION_RATIO := 1000
  const U64_MAX: u64 := 0xFFFF_FFFF_FFFF_FFFF

  /** An entry as its header declares it, the number of bytes it inflates to, and the position at
      which its stream turns out to be unreadable, if any. */
  datatype ArchiveEntry = ArchiveEntry(
    name: string, size: u64, compressedSize: u64, actual: nat, failsAt: Option<nat>)

  datatype LimitError =
    | ArchiveSize
    | EntryCount
    | EntrySize(name: string)
    | TotalOverflow
    | TotalSize
    | CompressionRatio(name: string)
    | EntryReadFailed(name: string)
    | EntrySizeMismatch(name: string)

  datatype Verdict = Accepted | Rejected(error: LimitError)

  // ----- Declared sizes -----

  function DeclaredTotal(entries: seq<ArchiveEntry>): nat {
    if entries == [] then 0 else DeclaredTotal(entries[..|entries| - 1]) + entries[|entries| - 1].size
  }

  function Max1(n: nat): nat {
    if n == 0 then 1 else n
  }

  predicate EntryWithinLimits(e: ArchiveEntry) {
    && e.size <= 67108864
    && (e.size > 1024 ==>
          if e.compressedSize == 0 then e.size <= 1000 else e.size <= e.compressedSize * 1000)
  }

  /** The published limits, stated without an order on the entries. */
  ghost predicate WithinLimits(archiveBytes: u64, entries: seq<ArchiveEntry>) {
    && archiveBytes <= 268435456
    && |entries| <= 4096
    && (forall e :: e in entries ==> EntryWithinLimits(e))
    && DeclaredTotal(entries) <= 268435456
  }

  function CheckedAdd(a: u64, b: u64): Option<u64> {
    if a + b <= U64_MAX then Some(a + b) else None
  }

  function SaturatingAdd(a: u64, b: u64): u64 {
    if a + b <= U64_MAX then a + b else U64_MAX
  }

  lemma {:induction false} PrefixTotal(entries: seq<ArchiveEntry>, i: nat)
    requires i < |entries|
    ensures DeclaredTotal(entries[..i + 1]) == DeclaredTotal(entries[..i]) + entries[i].size
    ensures DeclaredTotal(entries[..i + 1]) <= DeclaredTotal(entries)
    decreases |entries| - i
  {
    assert entries[..i + 1][..i] == entries[..i];
    if i + 1 < |entries| {
      PrefixTotal(entries, i + 1);
    } else {
      assert entries[..i + 1] == entries;
    }
  }

  /** `validate_archive_limits` accepts exactly when all limits hold; the checked addition never
      overflows. */
  method ValidateArchiveLimits(archiveBytes: u64, entries: seq<ArchiveEntry>) returns (r: Verdict)
    ensures r.Accepted? <==> WithinLimits(archiveBytes, entries)
    ensures r.Rejected? ==> match r.error
      case ArchiveSize => archiveBytes > 268435456
      case EntryCount => |entries| > 4096
      case EntrySize(name) => exists e :: e in entries && e.name == name && e.size > 67108864
      case TotalSize => DeclaredTotal(entries) > 268435456
      case CompressionRatio(name) =>
        exists e :: e in entries && e.name == name && e.size > 1000 * e.compressedSize && e.size > 1024
      case _ => false
  {
    if archiveBytes > MAX_ARCHIVE_BYTES {
      return Rejected(ArchiveSize);
    }
    if |entries| > MAX_ARCHIVE_ENTRIES {
      return Rejected(EntryCount);
    }
    var totalUncompressed: u64 := 0;
    var i := 0;
    while i < |entries|
      invariant 0 <= i <= |entries|
      invariant totalUncompressed == DeclaredTotal(entries[..i]) <= MAX_TOTAL_UNCOMPRESSED_BYTES
      invariant forall j :: 0 <= j < i ==> EntryWithinLimits(entries[j])
    {
      var e := entries[i];
      PrefixTotal(entries, i);
      if e.size > MAX_ENTRY_BYTES {
        assert e in entries && !EntryWithinLimits(e);
        return Rejected(EntrySize(e.name));
      }
      var sum := CheckedAdd(totalUncompressed, e.size);
      if sum.None? {
        return Rejected(TotalOverflow);
      }
      totalUncompressed := sum.value;
      if totalUncompressed > MAX_TOTAL_UNCOMPRESSED_BYTES {
        return Rejected(TotalSize);
      }
      if e.size > 1024 && e.size > Max1(e.compressedSize) * MAX_COMPRESSION_RATIO {
        assert e in entries && !EntryWithinLimits(e);
        return Rejected(CompressionRatio(e.name));
      }
      i := i + 1;
    }
    assert entries[..i] == entries;
    return Accepted;
  }

  lemma {:induction false} TotalWithout(entries: seq<ArchiveEntry>, i: nat)
    requires i < |entries|
    ensures DeclaredTotal(entries) == DeclaredTotal(entries[..i] + entries[i + 1..]) + entries[i].size
  {
    var n := |entries| - 1;
    var rest := entries[..i] + entries[i + 1..];
    if i == n {
      assert rest == entries[..n];
    } else {
      TotalWithout(entries[..n], i);
      assert rest[..n - 1] == entries[..n][..i] + entries[..n][i + 1..];
      assert rest[n - 1] == entries[n];
    }
  }

  lemma RemoveFromBoth(a: seq<ArchiveEntry>, b: seq<ArchiveEntry>, i: nat)
    requires multiset(a) == multiset(b) && a != [] && i < |b| && b[i] == a[|a| - 1]
    ensures multiset(a[..|a| - 1]) == multiset(b[..i] + b[i + 1..])
  {
    var x := multiset{b[i]};
    assert b == b[..i] + [b[i]] + b[i + 1..];
    assert a == a[..|a| - 1] + [a[|a| - 1]];
    assert multiset(b) == multiset(b[..i] + b[i + 1..]) + x;
    assert multiset(a) == multiset(a[..|a| - 1]) + x;
    assert multiset(a[..|a| - 1]) == multiset(a) - x;
    assert multiset(b[..i] + b[i + 1..]) == multiset(b) - x;
  }

  lemma {:induction false} TotalIgnoresOrder(a: seq<ArchiveEntry>, b: seq<ArchiveEntry>)
    requires multiset(a) == multiset(b)
    ensures DeclaredTotal(a) == DeclaredTotal(b) && |a| == |b|
    decreases |a|
  {
    assert |a| == |multiset(a)| == |multiset(b)| == |b|;
    if a != [] {
      assert a[|a| - 1] in multiset(b);
      var i :| 0 <= i < |b| && b[i] == a[|a| - 1];
      RemoveFromBoth(a, b, i);
      TotalIgnoresOrder(a[..|a| - 1], b[..i] + b[i + 1..]);
      TotalWithout(b, i);
    }
  }

  /** Reordering the entries of an archive does not change the verdict. */
  lemma LimitsIgnoreOrder(archiveBytes: u64, a: seq<ArchiveEntry>, b: seq<ArchiveEntry>)
    requires multiset(a) == multiset(b)
    ensures WithinLimits(archiveBytes, a) <==> WithinLimits(archiveBytes, b)
  {
    TotalIgnoresOrder(a, b);
    assert forall e :: e in a <==> e in multiset(a);
    assert forall e :: e in b <==> e in multiset(b);
  }

  // ----- Actual sizes -----

  /** How many bytes `io::copy` takes out of an entry limited to `limit` bytes. */
  function BytesTaken(e: ArchiveEntry, limit: nat): nat {
    var n := if e.actual < limit then e.actual else limit;
    if e.failsAt.Some? && e.failsAt.value < n then e.failsAt.value else n
  }

  /** The stream breaks before the limit or the end of the entry is reached. */
  predicate ReadFails(e: ArchiveEntry, limit: nat) {
    e.failsAt.Some? && e.failsAt.value < (if e.actual < limit then e.actual else limit)
  }

  predicate InflatesAsDeclared(e: ArchiveEntry) {
    e.actual <= e.size && !ReadFails(e, SaturatingAdd(e.size, 1))
  }

  /** `verify_actual_decompressed_sizes`: whatever the entries inflate to, no more bytes are read
      than the headers declare, and one; it accepts only entries no longer than declared. */
  method VerifyActualDecompressedSizes(entries: seq<ArchiveEntry>) returns (r: Verdict, ghost work: nat)
    ensures work <= DeclaredTotal(entries) + 1
    ensures r.Accepted? ==> forall e :: e in entries ==> InflatesAsDeclared(e)
    ensures DeclaredTotal(entries) <= MAX_TOTAL_UNCOMPRESSED_BYTES ==>
      (r.Accepted? <==> forall e :: e in entries ==> InflatesAsDeclared(e))
  {
    var totalRead: u64 := 0;
    work := 0;
    var i := 0;
    while i < |entries|
      invariant 0 <= i <= |entries|
      invariant work <= DeclaredTotal(entries[..i])
      invariant totalRead <= MAX_TOTAL_UNCOMPRESSED_BYTES && totalRead == work
      invariant forall j :: 0 <= j < i ==> InflatesAsDeclared(entries[j])
    {
      var e := entries[i];
      PrefixTotal(entries, i);
      var limit := SaturatingAdd(e.size, 1);
      var read := BytesTaken(e, limit);
      work := work + read;
      if ReadFails(e, limit) {
        assert e in entries && !InflatesAsDeclared(e);
        return Rejected(EntryReadFailed(e.name)), work;
      }
      if read > e.size {
        assert e in entries && !InflatesAsDeclared(e);
        return Rejected(EntrySizeMismatch(e.name)), work;
      }
      totalRead := SaturatingAdd(totalRead, read);
      if totalRead > MAX_TOTAL_UNCOMPRESSED_BYTES {
        return Rejected(TotalSize), work;
      }
      i := i + 1;
    }
    assert entries[..i] == entries;
    return Accepted, work;
  }

  /** Both passes, as the validator runs them: on every archive at most the published total and
      one byte come out of the decompressor, and an accepted archive keeps to its declared sizes. */
  method CheckArchive(archiveBytes: u64, entries: seq<ArchiveEntry>) returns (r: Verdict, ghost work: nat)
    ensures work <= MAX_TOTAL_UNCOMPRESSED_BYTES + 1
    ensures r.Accepted? <==>
      WithinLimits(archiveBytes, entries) && forall e :: e in entries ==> InflatesAsDeclared(e)
  {
    work := 0;
    r := ValidateArchiveLimits(archiveBytes, entries);
    if r.Accepted? {
      r, work := VerifyActualDecompressedSizes(entries);
    }
  }
}
