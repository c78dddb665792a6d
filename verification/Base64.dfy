/** The keychain's base64 codec (section 4 of RFC 4648). */
module Base64 {
  import opened Bits
  import opened Options

  type Byte = b: int | 0 <= b < 0x100
  type Sextet = c: int | 0 <= c < 64
  type Group24 = n: int | 0 <= n < 0x100_0000

  /** The table: upper-case letters, lower-case letters, digits, plus and slash. */
  function Symbol(c: Sextet): char {
    if c < 26 then ('A' as int + c) as char
    else if c < 52 then ('a' as int + (c - 26)) as char
    else if c < 62 then ('0' as int + (c - 52)) as char
    else if c == 62 then '+'
    else '/'
  }

  predicate InAlphabet(c: char) {
    'A' <= c <= 'Z' || 'a' <= c <= 'z' || '0' <= c <= '9' || c == '+' || c == '/'
  }

  /** `b64_val`: padding counts as zero, any other foreign character is refused. */
  function SymbolValue(c: char): Option<Sextet> {
    if 'A' <= c <= 'Z' then Some(c as int - 'A' as int)
    else if 'a' <= c <= 'z' then Some(c as int - 'a' as int + 26)
    else if '0' <= c <= '9' then Some(c as int - '0' as int + 52)
    else if c == '+' then Some(62)
    else if c == '/' then Some(63)
    else if c == '=' then Some(0)
    else None
  }

  /** Three bytes as one word. */
  function JoinBytes(b0: Byte, b1: Byte, b2: Byte): Group24 {
    b0 * 0x1_0000 + b1 * 0x100 + b2
  }

  /** Four sextets as one word. */
  function JoinSextets(c0: Sextet, c1: Sextet, c2: Sextet, c3: Sextet): Group24 {
    c0 * 0x4_0000 + c1 * 0x1000 + c2 * 0x40 + c3
  }

  function SextetsOf(n: Group24): (Sextet, Sextet, Sextet, Sextet) {
    (n / 0x4_0000 % 64, n / 0x1000 % 64, n / 0x40 % 64, n % 64)
  }

  function BytesOf(n: Group24): (Byte, Byte, Byte) {
    (n / 0x1_0000 % 0x100, n / 0x100 % 0x100, n % 0x100)
  }

  /** The byte at a position, or zero past the end. */
  function ByteAt(bytes: seq<Byte>, i: nat): Byte {
    if i < |bytes| then bytes[i] else 0
  }

  /** The character at a position, or padding past the end. */
  function CharAt(s: string, i: nat): char {
    if i < |s| then s[i] else '='
  }

  function Drop<T>(s: seq<T>, n: nat): seq<T> {
    if n < |s| then s[n..] else []
  }

  /** The four characters for the next one to three bytes. */
  function EncodeGroup(b0: Byte, b1: Byte, b2: Byte, second: bool, third: bool): string {
    var (c0, c1, c2, c3) := SextetsOf(JoinBytes(b0, b1, b2));
    [Symbol(c0), Symbol(c1), if second then Symbol(c2) else '=', if third then Symbol(c3) else '=']
  }

  function EncodeAt(bytes: seq<Byte>, i: nat): string {
    EncodeGroup(ByteAt(bytes, i), ByteAt(bytes, i + 1), ByteAt(bytes, i + 2), i + 1 < |bytes|, i + 2 < |bytes|)
  }

  function Encode(bytes: seq<Byte>): string
    decreases |bytes|
  {
    if bytes == [] then "" else EncodeAt(bytes, 0) + Encode(Drop(bytes, 3))
  }

  /** The bytes of a group; padding in the last two places drops a byte each. */
  function DecodeGroup(s0: char, s1: char, s2: char, s3: char): Option<seq<Byte>> {
    var c0 :- SymbolValue(s0);
    var c1 :- SymbolValue(s1);
    var c2 :- SymbolValue(s2);
    var c3 :- SymbolValue(s3);
    var (b0, b1, b2) := BytesOf(JoinSextets(c0, c1, c2, c3));
    Some([b0] + (if s2 != '=' then [b1] else []) + (if s3 != '=' then [b2] else []))
  }

  function DecodeAt(s: string, i: nat): Option<seq<Byte>> {
    DecodeGroup(CharAt(s, i), CharAt(s, i + 1), CharAt(s, i + 2), CharAt(s, i + 3))
  }

  function Decode(s: string): Option<seq<Byte>>
    decreases |s|
  {
    if s == [] then Some([])
    else
      var group :- DecodeAt(s, 0);
      var rest :- Decode(Drop(s, 4));
      Some(group + rest)
  }

  // ----- Shifts and masks -----

  lemma JoinBytesIsSum(b0: nat, b1: nat, b2: nat)
    requires b0 < 0x100 && b1 < 0x100 && b2 < 0x100
    ensures Or(Or(Shl(b0, 16), Shl(b1, 8)), b2) == b0 * 0x1_0000 + b1 * 0x100 + b2
  {
    assert Pow2(8) == 0x100;
    OrJoins(b0, b1, 8, 8);
    OrJoins(b0 * 0x100 + b1, b2, 8, 0);
  }

  lemma JoinSextetsIsSum(c0: nat, c1: nat, c2: nat, c3: nat)
    requires c0 < 64 && c1 < 64 && c2 < 64 && c3 < 64
    ensures Or(Or(Or(Shl(c0, 18), Shl(c1, 12)), Shl(c2, 6)), c3) == c0 * 0x4_0000 + c1 * 0x1000 + c2 * 0x40 + c3
  {
    assert Pow2(6) == 64;
    OrJoins(c0, c1, 6, 12);
    OrJoins(c0 * 64 + c1, c2, 6, 6);
    OrJoins((c0 * 64 + c1) * 64 + c2, c3, 6, 0);
  }

  lemma FieldIsRemainder(n: nat, shift: nat, width: nat, m: nat, size: nat)
    requires Pow2(shift) == m && Pow2(width) == size
    ensures And(Shr(n, shift), size - 1) == n / m % size
  {
    ShrIsQuotient(n, shift);
    AndIsRemainder(n / m, width);
  }

  lemma LowIsRemainder(n: nat, width: nat, size: nat)
    requires Pow2(width) == size
    ensures And(n, size - 1) == n % size
  {
    AndIsRemainder(n, width);
  }

  /** The body of the encoder's loop: a word from three bytes, and four characters from the word. */
  method EncodeWord(b0: Byte, b1: Byte, b2: Byte, second: bool, third: bool) returns (g: string)
    ensures g == EncodeGroup(b0, b1, b2, second, third)
  {
    JoinBytesIsSum(b0, b1, b2);
    var n := Or(Or(Shl(b0, 16), Shl(b1, 8)), b2);
    var c0, c1, c2, c3 := Sextets(n);
    g := [Symbol(c0), Symbol(c1), if second then Symbol(c2) else '=', if third then Symbol(c3) else '='];
  }

  method Sextets(n: Group24) returns (c0: Sextet, c1: Sextet, c2: Sextet, c3: Sextet)
    ensures (c0, c1, c2, c3) == SextetsOf(n)
  {
    assert Pow2(6) == 0x40 && Pow2(12) == 0x1000 && Pow2(18) == 0x4_0000;
    FieldIsRemainder(n, 18, 6, 0x4_0000, 64);
    FieldIsRemainder(n, 12, 6, 0x1000, 64);
    FieldIsRemainder(n, 6, 6, 0x40, 64);
    LowIsRemainder(n, 6, 64);
    c0, c1, c2, c3 := And(Shr(n, 18), 63), And(Shr(n, 12), 63), And(Shr(n, 6), 63), And(n, 63);
  }

  /** The body of the decoder's loop: a word from four sextets, and its bytes. */
  method DecodeWord(c0: Sextet, c1: Sextet, c2: Sextet, c3: Sextet) returns (b0: Byte, b1: Byte, b2: Byte)
    ensures (b0, b1, b2) == BytesOf(JoinSextets(c0, c1, c2, c3))
  {
    JoinSextetsIsSum(c0, c1, c2, c3);
    var n := Or(Or(Or(Shl(c0, 18), Shl(c1, 12)), Shl(c2, 6)), c3);
    b0, b1, b2 := Bytes(n);
  }

  method Bytes(n: Group24) returns (b0: Byte, b1: Byte, b2: Byte)
    ensures (b0, b1, b2) == BytesOf(n)
  {
    assert Pow2(8) == 0x100 && Pow2(16) == 0x1_0000;
    FieldIsRemainder(n, 16, 8, 0x1_0000, 0x100);
    FieldIsRemainder(n, 8, 8, 0x100, 0x100);
    LowIsRemainder(n, 8, 0x100);
    b0, b1, b2 := And(Shr(n, 16), 0xFF), And(Shr(n, 8), 0xFF), And(n, 0xFF);
  }

  /** The next group of the decoder: four values, or a foreign character. */
  method DecodeNext(s0: char, s1: char, s2: char, s3: char) returns (group: Option<seq<Byte>>)
    ensures group == DecodeGroup(s0, s1, s2, s3)
  {
    var c0, c1, c2, c3 := SymbolValue(s0), SymbolValue(s1), SymbolValue(s2), SymbolValue(s3);
    if c0.None? || c1.None? || c2.None? || c3.None? {
      return None;
    }
    var b0, b1, b2 := DecodeWord(c0.value, c1.value, c2.value, c3.value);
    return Some([b0] + (if s2 != '=' then [b1] else []) + (if s3 != '=' then [b2] else []));
  }

  // ----- The loops -----

  /** The characters of the output, four for every three bytes begun, have the value of these bytes. */
  method Base64Encode(bytes: seq<Byte>) returns (out: string)
    ensures out == Encode(bytes)
    ensures Shaped(out, |bytes|)
    ensures forall g: nat :: 3 * g < |bytes| ==> CharsValue(out, 4 * g) == BytesValue(bytes, 3 * g)
  {
    EncodeShape(bytes);
    forall g: nat | 3 * g < |bytes| ensures CharsValue(Encode(bytes), 4 * g) == BytesValue(bytes, 3 * g) {
      EncodeValue(bytes, g);
    }
    out := "";
    var i := 0;
    DropDrop(bytes, 0, 0);
    while i < |bytes|
      invariant 0 <= i
      invariant Encode(bytes) == out + Encode(Drop(bytes, i))
    {
      var b0 := bytes[i];
      var b1 := if i + 1 < |bytes| then bytes[i + 1] else 0;
      var b2 := if i + 2 < |bytes| then bytes[i + 2] else 0;
      var group := EncodeWord(b0, b1, b2, i + 1 < |bytes|, i + 2 < |bytes|);
      EncodeStep(bytes, i, out);
      out := out + group;
      i := i + 3;
    }
  }

  /** Refused exactly for a foreign character; a text of whole groups over the table is the encoding of
      what is returned. */
  method Base64Decode(s: string) returns (r: Option<seq<Byte>>)
    ensures r == Decode(s)
    ensures r.None? <==> exists i :: 0 <= i < |s| && Foreign(s[i])
    ensures |s| % 4 == 0 && (forall i :: 0 <= i < |s| ==> s[i] in ALPHABET) ==> r.Some? && Encode(r.value) == s
  {
    DecodeFailsExactly(s);
    if |s| % 4 == 0 && forall i :: 0 <= i < |s| ==> s[i] in ALPHABET {
      DecodeThenEncode(s);
    }
    var out: seq<Byte> := [];
    var i := 0;
    DropDrop(s, 0, 0);
    PrependNothing(Decode(s));
    while i < |s|
      invariant 0 <= i
      invariant Decode(s) == Prepend(out, Decode(Drop(s, i)))
    {
      var group := DecodeNext(s[i], CharAt(s, i + 1), CharAt(s, i + 2), CharAt(s, i + 3));
      DecodeStep(s, i, out);
      if group.None? {
        return None;
      }
      out := out + group.value;
      i := i + 4;
    }
    assert out + [] == out;
    return Some(out);
  }

  lemma DropDrop<T>(s: seq<T>, i: nat, n: nat)
    ensures Drop(Drop(s, i), n) == Drop(s, i + n) && Drop(s, 0) == s
  {
  }

  lemma EncodeStep(bytes: seq<Byte>, i: nat, out: string)
    requires i < |bytes|
    ensures out + Encode(Drop(bytes, i)) == (out + EncodeAt(bytes, i)) + Encode(Drop(bytes, i + 3))
  {
    var rest := Drop(bytes, i);
    DropDrop(bytes, i, 3);
    assert ByteAt(rest, 0) == ByteAt(bytes, i) && ByteAt(rest, 1) == ByteAt(bytes, i + 1);
    assert ByteAt(rest, 2) == ByteAt(bytes, i + 2);
    assert EncodeAt(rest, 0) == EncodeAt(bytes, i);
  }

  lemma DecodeStep(s: string, i: nat, out: seq<Byte>)
    requires i < |s|
    ensures Prepend(out, Decode(Drop(s, i))) ==
      if DecodeAt(s, i).None? then None
      else Prepend(out + DecodeAt(s, i).value, Decode(Drop(s, i + 4)))
  {
    var rest := Drop(s, i);
    DropDrop(s, i, 4);
    assert CharAt(rest, 0) == CharAt(s, i) && CharAt(rest, 1) == CharAt(s, i + 1);
    assert CharAt(rest, 2) == CharAt(s, i + 2) && CharAt(rest, 3) == CharAt(s, i + 3);
    var group := DecodeAt(rest, 0);
    if group.Some? {
      PrependTwice(out, group.value, Decode(Drop(s, i + 4)));
    }
  }

  ghost function Prepend(out: seq<Byte>, rest: Option<seq<Byte>>): Option<seq<Byte>> {
    if rest.None? then None else Some(out + rest.value)
  }

  lemma PrependNothing(rest: Option<seq<Byte>>)
    ensures Prepend([], rest) == rest
  {
    assert rest.Some? ==> [] + rest.value == rest.value;
  }

  lemma PrependTwice(a: seq<Byte>, b: seq<Byte>, rest: Option<seq<Byte>>)
    ensures Prepend(a + b, rest) == Prepend(a, Prepend(b, rest))
  {
    assert rest.Some? ==> a + b + rest.value == a + (b + rest.value);
  }

  // ----- Round trip -----

  lemma SymbolReads(c: Sextet)
    ensures SymbolValue(Symbol(c)) == Some(c) && InAlphabet(Symbol(c)) && Symbol(c) != '='
  {
  }

  /** Shifting by six bits once more. */
  lemma ShiftAgain(n: nat)
    ensures n / 0x40 / 0x40 == n / 0x1000 && n / 0x1000 / 0x40 == n / 0x4_0000
  {
  }

  /** Splitting a group into sextets and joining them again changes nothing. */
  lemma SextetsJoin(n: Group24)
    ensures var (c0, c1, c2, c3) := SextetsOf(n); JoinSextets(c0, c1, c2, c3) == n
  {
    ShiftAgain(n);
    var m := n / 0x40;
    assert n == 0x40 * m + n % 0x40;
    assert m == 0x40 * (n / 0x1000) + m % 0x40;
    assert n / 0x1000 == 0x40 * (n / 0x4_0000) + n / 0x1000 % 0x40;
    assert n / 0x4_0000 % 64 == n / 0x4_0000;
  }

  lemma BytesSplit(b0: Byte, b1: Byte, b2: Byte)
    ensures BytesOf(JoinBytes(b0, b1, b2)) == (b0, b1, b2)
  {
    var n := JoinBytes(b0, b1, b2);
    assert n / 0x1_0000 == b0;
    assert n / 0x100 == b0 * 0x100 + b1;
  }

  /** A byte that is not there leaves the sextets behind it zero. */
  lemma AbsentIsZero(b0: Byte, b1: Byte, b2: Byte)
    ensures var (c0, c1, c2, c3) := SextetsOf(JoinBytes(b0, b1, b2));
      (b2 == 0 ==> c3 == 0) && (b1 == 0 && b2 == 0 ==> c2 == 0)
  {
    assert b2 == 0 ==> JoinBytes(b0, b1, b2) == 64 * (b0 * 0x400 + b1 * 4);
    assert b1 == 0 && b2 == 0 ==> JoinBytes(b0, b1, b2) / 0x40 == 64 * (b0 * 0x10);
  }

  /** A group decodes to the one to three bytes it encodes. */
  lemma GroupRoundTrip(b0: Byte, b1: Byte, b2: Byte, second: bool, third: bool)
    requires (!second ==> b1 == 0 && b2 == 0) && (!third ==> b2 == 0)
    ensures var g := EncodeGroup(b0, b1, b2, second, third);
      DecodeGroup(g[0], g[1], g[2], g[3])
      == Some([b0] + (if second then [b1] else []) + (if third then [b2] else []))
  {
    var (c0, c1, c2, c3) := SextetsOf(JoinBytes(b0, b1, b2));
    SextetsJoin(JoinBytes(b0, b1, b2));
    BytesSplit(b0, b1, b2);
    AbsentIsZero(b0, b1, b2);
    SymbolReads(c0);
    SymbolReads(c1);
    SymbolReads(c2);
    SymbolReads(c3);
  }

  lemma DecodeConcat(g: string, rest: string)
    requires |g| == 4
    ensures DecodeAt(g + rest, 0) == DecodeGroup(g[0], g[1], g[2], g[3]) && Drop(g + rest, 4) == rest
  {
    assert rest != [] ==> (g + rest)[4..] == rest;
  }

  lemma DecodeStepInverts(bytes: seq<Byte>, g: string, s: string)
    requires bytes != [] && |g| == 4 && Decode(s) == Some(Drop(bytes, 3))
    requires DecodeGroup(g[0], g[1], g[2], g[3]) == Some(Present(bytes))
    ensures Decode(g + s) == Some(bytes)
  {
    DecodeConcat(g, s);
    assert Present(bytes) + Drop(bytes, 3) == bytes;
  }

  /** The bytes the first group stands for. */
  function Present(bytes: seq<Byte>): seq<Byte>
    requires bytes != []
  {
    [bytes[0]] + (if 1 < |bytes| then [ByteAt(bytes, 1)] else []) + (if 2 < |bytes| then [ByteAt(bytes, 2)] else [])
  }

  /** Decoding inverts encoding on every byte sequence. */
  lemma {:induction false} RoundTrip(bytes: seq<Byte>)
    ensures Decode(Encode(bytes)) == Some(bytes)
    decreases |bytes|
  {
    if bytes != [] {
      RoundTrip(Drop(bytes, 3));
      GroupRoundTrip(bytes[0], ByteAt(bytes, 1), ByteAt(bytes, 2), 1 < |bytes|, 2 < |bytes|);
      DecodeStepInverts(bytes, EncodeAt(bytes, 0), Encode(Drop(bytes, 3)));
    }
  }

  lemma EncodeGroupShape(b0: Byte, b1: Byte, b2: Byte, second: bool, third: bool)
    ensures var g := EncodeGroup(b0, b1, b2, second, third);
      |g| == 4 && InAlphabet(g[0]) && InAlphabet(g[1])
      && (if second then InAlphabet(g[2]) else g[2] == '=')
      && (if third then InAlphabet(g[3]) else g[3] == '=')
  {
    var (c0, c1, c2, c3) := SextetsOf(JoinBytes(b0, b1, b2));
    SymbolReads(c0);
    SymbolReads(c1);
    SymbolReads(c2);
    SymbolReads(c3);
  }

  /** How many padding characters end the encoding of `n` bytes. */
  function Padding(n: nat): nat {
    (3 - n % 3) % 3
  }

  predicate PaddedAlphabet(s: string, padding: nat) {
    forall i :: 0 <= i < |s| ==> if i < |s| - padding then InAlphabet(s[i]) else s[i] == '='
  }

  lemma PaddedConcat(g: string, s: string, padding: nat)
    requires PaddedAlphabet(g, 0) && PaddedAlphabet(s, padding) && padding <= |s|
    ensures PaddedAlphabet(g + s, padding)
  {
    assert forall i :: 0 <= i < |s| ==> (g + s)[|g| + i] == s[i];
  }

  lemma PaddedGroup(b0: Byte, b1: Byte, b2: Byte, second: bool, third: bool)
    requires third ==> second
    ensures PaddedAlphabet(EncodeGroup(b0, b1, b2, second, third), if third then 0 else if second then 1 else 2)
  {
    EncodeGroupShape(b0, b1, b2, second, third);
  }

  /** The length and the padding of an encoding of `n` bytes. */
  ghost predicate Shaped(s: string, n: nat) {
    |s| == 4 * ((n + 2) / 3) && PaddedAlphabet(s, Padding(n))
  }

  lemma ShapedStep(g: string, s: string, n: nat)
    requires n > 0 && |g| == 4 && PaddedAlphabet(g, if n > 2 then 0 else 3 - n)
    requires Shaped(s, if n > 3 then n - 3 else 0)
    ensures Shaped(g + s, n)
  {
    if n > 3 {
      PaddedConcat(g, s, Padding(n));
    } else {
      assert g + s == g;
    }
  }

  /** The encoding has four characters for every three bytes begun, all from the alphabet except
      the padding, which fills the last group up. */
  lemma {:induction false} EncodeShape(bytes: seq<Byte>)
    ensures Shaped(Encode(bytes), |bytes|)
    decreases |bytes|
  {
    if bytes != [] {
      EncodeShape(Drop(bytes, 3));
      PaddedGroup(bytes[0], ByteAt(bytes, 1), ByteAt(bytes, 2), 1 < |bytes|, 2 < |bytes|);
      ShapedStep(EncodeAt(bytes, 0), Encode(Drop(bytes, 3)), |bytes|);
    }
  }

  // ----- The table and what is refused -----

  /** Table 1 of RFC 4648. */
  const ALPHABET: string := UPPER + LOWER + "0123456789+/"
  const UPPER := "ABCDEFGHIJKLMNOPQRSTUVWXYZ"
  const LOWER := "abcdefghijklmnopqrstuvwxyz"

  lemma UpperAt(c: int)
    requires 0 <= c < 26
    ensures UPPER[c] == ('A' as int + c) as char
  {
  }

  lemma LowerAt(c: int)
    requires 0 <= c < 26
    ensures LOWER[c] == ('a' as int + c) as char
  {
  }

  lemma SymbolTable(c: Sextet)
    ensures |ALPHABET| == 64 && Symbol(c) == ALPHABET[c]
  {
    if c < 26 {
      UpperAt(c);
    } else if c < 52 {
      LowerAt(c - 26);
    } else {
      assert ALPHABET[c] == "0123456789+/"[c - 52];
    }
  }

  lemma SymbolDistinct(c: Sextet, d: Sextet)
    requires ALPHABET[c] == ALPHABET[d]
    ensures c == d
  {
    SymbolTable(c);
    SymbolTable(d);
    SymbolReads(c);
    SymbolReads(d);
  }

  /** A character of the table has its position as its value, padding has zero, and every other
      character is refused. */
  lemma ValueTable(ch: char)
    ensures forall c: Sextet :: SymbolValue(ch) == Some(c) <==> ch == ALPHABET[c] || (ch == '=' && c == 0)
    ensures SymbolValue(ch) == None <==> ch != '=' && ch !in ALPHABET
  {
    forall c: Sextet
      ensures SymbolValue(ch) == Some(c) <==> ch == ALPHABET[c] || (ch == '=' && c == 0)
    {
      SymbolTable(c);
      SymbolReads(c);
      ValueInTable(ch);
    }
    ValueInTable(ch);
    if ch in ALPHABET {
      var c :| 0 <= c < |ALPHABET| && ALPHABET[c] == ch;
      SymbolTable(c);
      SymbolReads(c);
    }
  }

  lemma ValueInTable(ch: char)
    ensures SymbolValue(ch).Some? && ch != '=' ==> ch == ALPHABET[SymbolValue(ch).value]
  {
    if SymbolValue(ch).Some? && ch != '=' {
      SymbolTable(SymbolValue(ch).value);
    }
  }

  predicate Foreign(ch: char) {
    ch != '=' && ch !in ALPHABET
  }

  lemma GroupFails(s0: char, s1: char, s2: char, s3: char)
    ensures DecodeGroup(s0, s1, s2, s3).None? <==> Foreign(s0) || Foreign(s1) || Foreign(s2) || Foreign(s3)
  {
    ValueTable(s0);
    ValueTable(s1);
    ValueTable(s2);
    ValueTable(s3);
  }

  /** Decoding fails exactly on a text with a character that is neither padding nor in the table. */
  lemma {:induction false} DecodeFailsExactly(s: string)
    ensures Decode(s).None? <==> exists i :: 0 <= i < |s| && Foreign(s[i])
    decreases |s|
  {
    if s != [] {
      DecodeFailsExactly(Drop(s, 4));
      GroupFails(CharAt(s, 0), CharAt(s, 1), CharAt(s, 2), CharAt(s, 3));
      assert Decode(s).None? <==> DecodeAt(s, 0).None? || Decode(Drop(s, 4)).None?;
      ForeignSplit(s);
    }
  }

  lemma ForeignSplit(s: string)
    requires s != []
    ensures (exists i :: 0 <= i < |s| && Foreign(s[i]))
      <==> || Foreign(CharAt(s, 0)) || Foreign(CharAt(s, 1)) || Foreign(CharAt(s, 2)) || Foreign(CharAt(s, 3))
           || exists i :: 0 <= i < |Drop(s, 4)| && Foreign(Drop(s, 4)[i])
  {
    if i: nat :| i < |s| && Foreign(s[i]) {
      if i >= 4 {
        assert Drop(s, 4)[i - 4] == s[i];
      } else {
        assert CharAt(s, i) == s[i];
      }
    }
    if i: nat :| i < |Drop(s, 4)| && Foreign(Drop(s, 4)[i]) {
      assert s[i + 4] == Drop(s, 4)[i];
    }
  }

  // ----- The value of a group -----

  /** A position of the table; padding counts as zero. */
  ghost function Position(ch: char): Sextet {
    match SymbolValue(ch)
    case Some(c) => c
    case None => 0
  }

  /** Four characters as a number in base 64, and three bytes as a number in base 256. */
  ghost function CharsValue(s: string, j: nat): int {
    262144 * Position(CharAt(s, j)) + 4096 * Position(CharAt(s, j + 1))
    + 64 * Position(CharAt(s, j + 2)) + Position(CharAt(s, j + 3))
  }

  ghost function BytesValue(bytes: seq<Byte>, i: nat): int {
    65536 * ByteAt(bytes, i) + 256 * ByteAt(bytes, i + 1) + ByteAt(bytes, i + 2)
  }

  lemma GroupValue(b0: Byte, b1: Byte, b2: Byte, second: bool, third: bool, rest: string)
    requires (!second ==> b1 == 0 && b2 == 0) && (!third ==> b2 == 0)
    ensures CharsValue(EncodeGroup(b0, b1, b2, second, third) + rest, 0) == 65536 * b0 + 256 * b1 + b2
  {
    var (c0, c1, c2, c3) := SextetsOf(JoinBytes(b0, b1, b2));
    SextetsJoin(JoinBytes(b0, b1, b2));
    AbsentIsZero(b0, b1, b2);
    SymbolReads(c0);
    SymbolReads(c1);
    SymbolReads(c2);
    SymbolReads(c3);
  }

  /** Every three bytes, and a shorter last group filled up with zeros, have the value of the four
      characters that stand for them. */
  lemma {:induction false} EncodeValue(bytes: seq<Byte>, g: nat)
    requires 3 * g < |bytes|
    ensures CharsValue(Encode(bytes), 4 * g) == BytesValue(bytes, 3 * g)
    decreases g
  {
    var rest := Drop(bytes, 3);
    var group := EncodeAt(bytes, 0);
    EncodeGroupShape(ByteAt(bytes, 0), ByteAt(bytes, 1), ByteAt(bytes, 2), 1 < |bytes|, 2 < |bytes|);
    if g == 0 {
      GroupValue(ByteAt(bytes, 0), ByteAt(bytes, 1), ByteAt(bytes, 2), 1 < |bytes|, 2 < |bytes|, Encode(rest));
    } else {
      EncodeValue(rest, g - 1);
      ShiftedBytes(bytes, 3 * g);
      ShiftedChars(group, Encode(rest), 4 * g);
    }
  }

  lemma ShiftedBytes(bytes: seq<Byte>, i: nat)
    requires i >= 3
    ensures BytesValue(Drop(bytes, 3), i - 3) == BytesValue(bytes, i)
  {
  }

  lemma ShiftedChars(g: string, s: string, j: nat)
    requires |g| == 4 && j >= 4
    ensures CharsValue(g + s, j) == CharsValue(s, j - 4)
  {
    assert forall k :: 4 <= k < |g + s| ==> (g + s)[k] == s[k - 4];
  }

  // ----- The other round trip -----

  lemma BytesJoin(n: Group24)
    ensures var (b0, b1, b2) := BytesOf(n); JoinBytes(b0, b1, b2) == n
  {
    assert n / 0x1_0000 % 0x100 == n / 0x1_0000;
    assert n / 0x100 == 0x100 * (n / 0x1_0000) + n / 0x100 % 0x100;
  }

  lemma SextetsSplit(c0: Sextet, c1: Sextet, c2: Sextet, c3: Sextet)
    ensures SextetsOf(JoinSextets(c0, c1, c2, c3)) == (c0, c1, c2, c3)
  {
    var n := JoinSextets(c0, c1, c2, c3);
    assert n / 0x40 == c0 * 0x1000 + c1 * 0x40 + c2;
    assert n / 0x1000 == c0 * 0x40 + c1;
    assert n / 0x4_0000 == c0;
  }

  lemma GroupBack(s0: char, s1: char, s2: char, s3: char)
    requires s0 in ALPHABET && s1 in ALPHABET && s2 in ALPHABET && s3 in ALPHABET
    requires s0 != '=' && s1 != '=' && s2 != '=' && s3 != '='
    ensures var r := DecodeGroup(s0, s1, s2, s3);
      r.Some? && |r.value| == 3 && EncodeGroup(r.value[0], r.value[1], r.value[2], true, true) == [s0, s1, s2, s3]
  {
    ValueTable(s0);
    ValueTable(s1);
    ValueTable(s2);
    ValueTable(s3);
    var c0, c1, c2, c3 := SymbolValue(s0).value, SymbolValue(s1).value, SymbolValue(s2).value, SymbolValue(s3).value;
    SextetsSplit(c0, c1, c2, c3);
    BytesJoin(JoinSextets(c0, c1, c2, c3));
    SymbolTable(c0);
    SymbolTable(c1);
    SymbolTable(c2);
    SymbolTable(c3);
  }

  lemma NoPadding(ch: char)
    requires ch in ALPHABET
    ensures ch != '='
  {
    var c :| 0 <= c < |ALPHABET| && ALPHABET[c] == ch;
    SymbolTable(c);
    SymbolReads(c);
  }

  lemma EncodeThree(b: seq<Byte>, rest: seq<Byte>)
    requires |b| == 3
    ensures Encode(b + rest) == EncodeGroup(b[0], b[1], b[2], true, true) + Encode(rest)
  {
    assert Drop(b + rest, 3) == rest;
  }

  lemma FirstGroupBack(s: string)
    requires |s| >= 4
    requires DecodesBack(s[0], s[1], s[2], s[3])
    ensures DecodeAt(s, 0).Some? && |DecodeAt(s, 0).value| == 3
    ensures var b := DecodeAt(s, 0).value; EncodeGroup(b[0], b[1], b[2], true, true) == s[..4]
  {
    assert s[..4] == [s[0], s[1], s[2], s[3]];
  }

  /** The group decodes to three bytes that encode to it. */
  ghost predicate DecodesBack(s0: char, s1: char, s2: char, s3: char) {
    var r := DecodeGroup(s0, s1, s2, s3);
    r.Some? && |r.value| == 3 && EncodeGroup(r.value[0], r.value[1], r.value[2], true, true) == [s0, s1, s2, s3]
  }

  lemma TableDecodesBack(s0: char, s1: char, s2: char, s3: char)
    requires s0 in ALPHABET && s1 in ALPHABET && s2 in ALPHABET && s3 in ALPHABET
    ensures DecodesBack(s0, s1, s2, s3)
  {
    NoPadding(s0);
    NoPadding(s1);
    NoPadding(s2);
    NoPadding(s3);
    GroupBack(s0, s1, s2, s3);
  }

  lemma DecodeGroups(s: string, group: seq<Byte>, rest: seq<Byte>)
    requires s != [] && DecodeAt(s, 0) == Some(group) && Decode(Drop(s, 4)) == Some(rest)
    ensures Decode(s) == Some(group + rest)
  {
  }

  lemma RestInTable(s: string)
    requires |s| >= 4 && |s| % 4 == 0 && forall i :: 0 <= i < |s| ==> s[i] in ALPHABET
    ensures |Drop(s, 4)| % 4 == 0 && forall i :: 0 <= i < |Drop(s, 4)| ==> Drop(s, 4)[i] in ALPHABET
    ensures s == s[..4] + Drop(s, 4)
  {
    assert forall i :: 0 <= i < |Drop(s, 4)| ==> Drop(s, 4)[i] == s[i + 4];
  }

  /** Encoding inverts decoding on every text of whole groups over the table. */
  lemma {:induction false} DecodeThenEncode(s: string)
    requires |s| % 4 == 0 && forall i :: 0 <= i < |s| ==> s[i] in ALPHABET
    ensures Decode(s).Some? && Encode(Decode(s).value) == s
    decreases |s|
  {
    if s != [] {
      RestInTable(s);
      DecodeThenEncode(Drop(s, 4));
      TableDecodesBack(s[0], s[1], s[2], s[3]);
      FirstGroupBack(s);
      var group, rest := DecodeAt(s, 0).value, Decode(Drop(s, 4)).value;
      EncodeThree(group, rest);
      DecodeGroups(s, group, rest);
    }
  }
}
