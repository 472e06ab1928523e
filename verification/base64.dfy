/** Base64 as RFC 4648 section 4 defines it: a streaming encoder that carries bits from byte to byte, and
    a strict decoder that refuses bad padding and stray pad bits (section 3.5). Text is bytes too. */
module Base64 {
  import opened Common

  type Bytes = seq<bv8>

  const PAD: bv8 := 61
  const INVALID: bv8 := 64

  /** The character of a six-bit value: A-Z, a-z, 0-9, + and /. */
  function CharTable(v: bv8): bv8
    requires v < 64
  {
    if v < 26 then v + 65 else if v < 52 then v + 71 else if v < 62 then v - 4 else if v == 62 then 43 else 47
  }

  /** Entry `c` of the reverse table: the six-bit value of a character, or 64. */
  function ReverseLookup(c: bv8): bv8 {
    if 65 <= c <= 90 then c - 65
    else if 97 <= c <= 122 then c - 71
    else if 48 <= c <= 57 then c + 4
    else if c == 43 then 62
    else if c == 47 then 63
    else INVALID
  }

  lemma TablesAreInverse(v: bv8, c: bv8)
    ensures v < 64 ==> ReverseLookup(CharTable(v)) == v && CharTable(v) != PAD
    ensures ReverseLookup(c) < 64 || ReverseLookup(c) == INVALID
    ensures ReverseLookup(c) < 64 ==> CharTable(ReverseLookup(c)) == c
    ensures ReverseLookup(PAD) == INVALID
  {
  }

  const UPPER: string := "ABCDEFGHIJKLMNOPQRSTUVWXYZ"
  const LOWER: string := "abcdefghijklmnopqrstuvwxyz"
  const OTHERS: string := "0123456789+/"

  /** The alphabet of section 4 of RFC 4648. */
  const ALPHABET: string := UPPER + LOWER + OTHERS

  lemma UpperAt(i: nat)
    requires i < 26
    ensures |UPPER| == 26 && UPPER[i] as int == i + 65
  {
  }

  lemma LowerAt(i: nat)
    requires i < 26
    ensures |LOWER| == 26 && LOWER[i] as int == i + 97
  {
  }

  lemma OthersAt(i: nat)
    requires i < 12
    ensures |OTHERS| == 12 && OTHERS[i] as int == if i < 10 then i + 48 else if i == 10 then 43 else 47
  {
  }

  /** The encoder's table is the alphabet of the standard, character by character. */
  lemma TableIsAlphabet(v: bv8)
    requires v < 64
    ensures |ALPHABET| == 64 && CharTable(v) as int == ALPHABET[v as int] as int
  {
    var i := v as nat;
    UpperAt(0);
    LowerAt(0);
    OthersAt(0);
    if i < 26 {
      UpperAt(i);
    } else if i < 52 {
      LowerAt(i - 26);
    } else {
      OthersAt(i - 52);
    }
  }

  const TABLE_SIZE: nat := 256

  /** Where the decoder looks a character up: a signed char widens to 32 bits with its sign, so that the
      bytes from 128 on give indices near the top of that range. */
  function TableIndex(c: bv8): nat {
    if c < 128 then c as nat else 0x1_0000_0000 - 256 + c as nat
  }

  predicate InTable(c: bv8) {
    TableIndex(c) < TABLE_SIZE
  }

  predicate InAlphabet(c: bv8) {
    ReverseLookup(c) != INVALID
  }

  /** A lookup stays inside the table exactly for the bytes below 128; these have all the alphabet and
      the pad. */
  lemma InTableExactly(c: bv8)
    ensures InTable(c) <==> c < 128
    ensures InTable(c) ==> TableIndex(c) == c as nat
    ensures InAlphabet(c) ==> InTable(c)
    ensures InTable(PAD)
  {
  }

  // ---------- six-bit values ----------

  /** The four sextets of three bytes. */
  function Sextet0(x: bv8): (v: bv8)
    ensures v < 64
  {
    x >> 2
  }

  function Sextet1(x: bv8, y: bv8): (v: bv8)
    ensures v < 64
  {
    ((x & 0x03) << 4) | (y >> 4)
  }

  function Sextet2(y: bv8, z: bv8): (v: bv8)
    ensures v < 64
  {
    ((y & 0x0f) << 2) | (z >> 6)
  }

  function Sextet3(z: bv8): (v: bv8)
    ensures v < 64
  {
    z & 0x3f
  }

  /** The three bytes of four sextets. */
  function Byte0(a: bv8, b: bv8): bv8 {
    (a << 2) | (b >> 4)
  }

  function Byte1(b: bv8, c: bv8): bv8 {
    (b << 4) | (c >> 2)
  }

  function Byte2(c: bv8, d: bv8): bv8 {
    (c << 6) | d
  }

  /** The bits of a sextet that do not belong to the last byte must be zero. */
  predicate NoStrayBits(v: bv8, mask: bv8) {
    v & mask == 0
  }

  lemma BytesOfSextets(x: bv8, y: bv8, z: bv8)
    ensures Byte0(Sextet0(x), Sextet1(x, y)) == x
    ensures Byte1(Sextet1(x, y), Sextet2(y, z)) == y
    ensures Byte2(Sextet2(y, z), Sextet3(z)) == z
    ensures NoStrayBits(Sextet1(x, 0), 0x0f) && NoStrayBits(Sextet2(y, 0), 0x03)
  {
  }

  lemma SextetsOfBytes(a: bv8, b: bv8, c: bv8, d: bv8)
    requires a < 64 && b < 64 && c < 64 && d < 64
    ensures Sextet0(Byte0(a, b)) == a && Sextet1(Byte0(a, b), Byte1(b, c)) == b
    ensures Sextet2(Byte1(b, c), Byte2(c, d)) == c && Sextet3(Byte2(c, d)) == d
    ensures NoStrayBits(b, 0x0f) ==> Sextet1(Byte0(a, b), 0) == b
    ensures NoStrayBits(c, 0x03) ==> Sextet2(Byte1(b, c), 0) == c
  {
  }

  // ---------- the definition ----------

  function Group(x: bv8, y: bv8, z: bv8): (r: Bytes)
    ensures |r| == 4
  {
    [CharTable(Sextet0(x)), CharTable(Sextet1(x, y)), CharTable(Sextet2(y, z)), CharTable(Sextet3(z))]
  }

  /** Three bytes become four characters; missing bytes count as zero bits and their characters as pads. */
  function Encoded(x: Bytes): (r: Bytes)
    ensures |r| == (|x| + 2) / 3 * 4
  {
    if |x| == 0 then []
    else if |x| == 1 then Group(x[0], 0, 0)[..2] + [PAD, PAD]
    else if |x| == 2 then Group(x[0], x[1], 0)[..3] + [PAD]
    else Group(x[0], x[1], x[2]) + Encoded(x[3..])
  }

  // ---------- the definition, bit by bit ----------

  /** Byte `i` of the input; behind its end there are zero bits. */
  function ByteAt(x: Bytes, i: nat): bv16 {
    if i < |x| then x[i] as bv16 else 0
  }

  /** Bits 6k to 6k + 5 of the input, counted from the highest bit of its first byte: they lie in two
      neighbouring bytes. */
  function SextetAt(x: Bytes, k: nat): bv16 {
    Window(ByteAt(x, 6 * k / 8), ByteAt(x, 6 * k / 8 + 1), 6 * k % 8)
  }

  /** Six bits out of two bytes, from bit `offset` on. */
  function Window(first: bv16, second: bv16, offset: nat): bv16
    requires offset < 8
  {
    (((first << 8) | second) >> (10 - offset)) & 0x3f
  }

  lemma SextetsOfWindow(x: bv8, y: bv8, z: bv8)
    ensures Sextet0(x) as bv16 == (((x as bv16 << 8) | y as bv16) >> 10) & 0x3f
    ensures Sextet1(x, y) as bv16 == (((x as bv16 << 8) | y as bv16) >> 4) & 0x3f
    ensures Sextet2(y, z) as bv16 == (((y as bv16 << 8) | z as bv16) >> 6) & 0x3f
  {
  }

  lemma LastSextetOfWindow(z: bv8, next: bv16)
    requires next < 256
    ensures Sextet3(z) as bv16 == (((z as bv16 << 8) | next) >> 8) & 0x3f
  {
  }

  /** The four sextets that begin at byte 0. */
  lemma FirstSextets(x: Bytes, a: bv8, b: bv8, c: bv8)
    requires ByteAt(x, 0) == a as bv16 && ByteAt(x, 1) == b as bv16 && ByteAt(x, 2) == c as bv16
    ensures SextetAt(x, 0) == Sextet0(a) as bv16 && SextetAt(x, 1) == Sextet1(a, b) as bv16
    ensures SextetAt(x, 2) == Sextet2(b, c) as bv16 && SextetAt(x, 3) == Sextet3(c) as bv16
  {
    SextetsOfWindow(a, b, c);
    var next := ByteAt(x, 3);
    assert next < 256 by {
      SmallByte(x, 3);
    }
    LastSextetOfWindow(c, next);
    hide Sextet0, Sextet1, Sextet2, Sextet3, ByteAt;
  }

  lemma SmallByte(x: Bytes, i: nat)
    ensures ByteAt(x, i) < 256
  {
  }

  lemma LaterPlace(k: nat)
    requires k >= 4
    ensures 6 * k / 8 == 6 * (k - 4) / 8 + 3 && 6 * k % 8 == 6 * (k - 4) % 8
  {
    var m := 6 * (k - 4);
    assert 6 * k == m + 24;
  }

  lemma LaterSextet(x: Bytes, k: nat)
    requires |x| >= 3 && k >= 4
    ensures SextetAt(x, k) == SextetAt(x[3..], k - 4)
  {
    hide Window;
    LaterPlace(k);
    LaterByte(x, 6 * (k - 4) / 8);
    LaterByte(x, 6 * (k - 4) / 8 + 1);
    hide ByteAt;
  }

  lemma LaterByte(x: Bytes, i: nat)
    requires |x| >= 3
    ensures ByteAt(x, i + 3) == ByteAt(x[3..], i)
  {
  }

  /** A character of a text as the standard's alphabet has it, or the pad. */
  predicate IsCharacter(c: bv8, sextet: bv16) {
    sextet < 64 && |ALPHABET| == 64 && c as int == ALPHABET[sextet as int] as int
  }

  lemma CharTableIs(v: bv8, sextet: bv16)
    requires v < 64 && sextet == v as bv16
    ensures IsCharacter(CharTable(v), sextet)
  {
    TableIsAlphabet(v);
    hide CharTable;
    assert sextet as int == v as int;
  }

  /** The encoding is the one of section 4 of RFC 4648, character by character: character `k` stands for bits
      6k to 6k + 5 of the input, and is a pad if the input has no such bit. */
  lemma {:induction false} EncodedAt(x: Bytes, k: nat)
    requires k < |Encoded(x)|
    ensures |Encoded(x)| == (|x| + 2) / 3 * 4
    ensures 6 * k < 8 * |x| ==> IsCharacter(Encoded(x)[k], SextetAt(x, k))
    ensures 6 * k >= 8 * |x| ==> Encoded(x)[k] as int == '=' as int
    decreases |x|
  {
    hide SextetAt, IsCharacter, CharTable, Sextet0, Sextet1, Sextet2, Sextet3;
    if k >= 4 {
      EncodedAt(x[3..], k - 4);
      LaterSextet(x, k);
    } else {
      var a := x[0];
      var b, c := if |x| > 1 then x[1] else 0, if |x| > 2 then x[2] else 0;
      FirstSextets(x, a, b, c);
      CharTableIs(Sextet0(a), SextetAt(x, 0));
      CharTableIs(Sextet1(a, b), SextetAt(x, 1));
      CharTableIs(Sextet2(b, c), SextetAt(x, 2));
      CharTableIs(Sextet3(c), SextetAt(x, 3));
    }
  }

  // ---------- the streaming encoder ----------

  /** The bits that a byte leaves for the next character. */
  function CarryAfter0(cur: bv8): bv8 {
    (cur & 0x03) << 4
  }

  function CarryAfter1(cur: bv8): bv8 {
    (cur & 0x0f) << 2
  }

  function Join1(next: bv8, cur: bv8): bv8 {
    next | (cur >> 4)
  }

  function Join2(next: bv8, cur: bv8): bv8 {
    next | (cur >> 6)
  }

  /** The bits that may be left over before position `pos`. */
  predicate Carry(pos: nat, next: bv8) {
    match pos % 3
    case 0 => next == 0
    case 1 => NoStrayBits(next, 0xcf)
    case _ => NoStrayBits(next, 0xc3)
  }

  lemma CarryFacts(x: bv8, cur: bv8, next: bv8)
    ensures NoStrayBits(CarryAfter0(x), 0xcf) && NoStrayBits(CarryAfter1(x), 0xc3)
    ensures NoStrayBits(next, 0xcf) ==> next < 64 && Join1(next, cur) < 64
    ensures NoStrayBits(next, 0xc3) ==> next < 64 && Join2(next, cur) < 64
    ensures Join1(CarryAfter0(x), cur) == Sextet1(x, cur) && CarryAfter0(x) == Sextet1(x, 0)
    ensures Join2(CarryAfter1(x), cur) == Sextet2(x, cur) && CarryAfter1(x) == Sextet2(x, 0)
  {
  }

  /** encodeBase: the characters that a byte at `pos` completes, and the bits that it leaves. */
  function EncodeBase(cur: bv8, pos: nat, next: bv8): (r: (Bytes, bv8))
    requires Carry(pos, next)
    ensures Carry(pos + 1, r.1)
  {
    CarryFacts(cur, cur, next);
    match pos % 3
    case 0 => ([CharTable(Sextet0(cur))], CarryAfter0(cur))
    case 1 => ([CharTable(Join1(next, cur))], CarryAfter1(cur))
    case _ => ([CharTable(Join2(next, cur)), CharTable(Sextet3(cur))], 0)
  }

  /** encodeLast: the left-over bits and the pads. */
  function EncodeLast(pos: nat, last: bv8): Bytes
    requires Carry(pos, last)
  {
    CarryFacts(0, 0, last);
    match pos % 3
    case 0 => []
    case 1 => [CharTable(last), PAD, PAD]
    case _ => [CharTable(last), PAD]
  }

  /** What the loop has produced and carries after all of `x`. */
  function Streamed(x: Bytes): (r: (Bytes, bv8))
    ensures Carry(|x|, r.1)
  {
    if x == [] then ([], 0)
    else
      var n := |x| - 1;
      var (ret, next) := Streamed(x[..n]);
      var (out, carry) := EncodeBase(x[n], n, next);
      (ret + out, carry)
  }

  /** Encoding splits at every multiple of three bytes. */
  lemma {:induction false} EncodedConcat(a: Bytes, b: Bytes)
    requires |a| % 3 == 0
    ensures Encoded(a + b) == Encoded(a) + Encoded(b)
    decreases |a|
  {
    hide Group;
    if a == [] {
      assert a + b == b;
    } else {
      EncodedConcat(a[3..], b);
      assert (a + b)[3..] == a[3..] + b;
    }
  }

  /** One more group. */
  lemma EncodedAppend(a: Bytes, x: bv8, y: bv8, z: bv8)
    requires |a| % 3 == 0
    ensures Encoded(a + [x, y, z]) == Encoded(a) + Group(x, y, z)
  {
    hide Group, Encoded;
    EncodedConcat(a, [x, y, z]);
    EncodedGroup(x, y, z);
  }

  lemma EncodedGroup(x: bv8, y: bv8, z: bv8)
    ensures Encoded([x, y, z]) == Group(x, y, z)
  {
    hide Group;
    assert [x, y, z][3..] == [];
  }

  /** How many of `n` bytes are in whole groups. */
  function Whole(n: nat): (q: nat)
    ensures q % 3 == 0 && q <= n < q + 3 && n % 3 == n - q
  {
    n - n % 3
  }

  /** `ret` is the encoding of the whole groups of `x` and the first characters of the next group, and
      `next` has the bits that belong to the character after these. */
  predicate Partial(x: Bytes, ret: Bytes, next: bv8) {
    var q := Whole(|x|);
    match |x| - q
    case 0 => ret == Encoded(x) && next == 0
    case 1 => ret == Encoded(x[..q]) + [CharTable(Sextet0(x[q]))] && next == CarryAfter0(x[q])
    case _ =>
      && ret == Encoded(x[..q]) + [CharTable(Sextet0(x[q])), CharTable(Sextet1(x[q], x[q + 1]))]
      && next == CarryAfter1(x[q + 1])
  }

  lemma FirstOfGroup(x: Bytes, cur: bv8, ret: Bytes, next: bv8)
    requires Partial(x, ret, next) && |x| % 3 == 0
    ensures Partial(x + [cur], ret + [CharTable(Sextet0(cur))], CarryAfter0(cur))
  {
    hide CharTable, Sextet0, Sextet1, CarryAfter0, CarryAfter1, Encoded;
    assert (x + [cur])[..|x|] == x;
  }

  lemma SecondOfGroup(x: Bytes, cur: bv8, ret: Bytes, next: bv8)
    requires Partial(x, ret, next) && |x| % 3 == 1
    ensures Join1(next, cur) < 64
    ensures Partial(x + [cur], ret + [CharTable(Join1(next, cur))], CarryAfter1(cur))
  {
    hide CharTable, Sextet0, Sextet1, CarryAfter0, CarryAfter1, Encoded, NoStrayBits, Join1, Join2;
    var q := Whole(|x|);
    CarryFacts(x[q], cur, next);
    assert (x + [cur])[..q] == x[..q];
  }

  lemma ThirdOfGroup(x: Bytes, cur: bv8, ret: Bytes, next: bv8)
    requires Partial(x, ret, next) && |x| % 3 == 2
    ensures Join2(next, cur) < 64
    ensures Partial(x + [cur], ret + [CharTable(Join2(next, cur)), CharTable(Sextet3(cur))], 0)
  {
    hide CharTable, Sextet0, Sextet1, Sextet2, Sextet3, CarryAfter0, CarryAfter1, Encoded, NoStrayBits, Join1, Join2;
    var q := Whole(|x|);
    CarryFacts(x[q + 1], cur, next);
    EncodedAppend(x[..q], x[q], x[q + 1], cur);
    assert x + [cur] == x[..q] + [x[q], x[q + 1], cur];
  }

  lemma {:induction false} StreamedPartial(x: Bytes)
    ensures Partial(x, Streamed(x).0, Streamed(x).1)
    decreases |x|
  {
    hide Partial, CharTable, Sextet0, Sextet1, Sextet2, Sextet3, CarryAfter0, CarryAfter1, NoStrayBits, Join1, Join2;
    if x == [] {
      assert Partial([], [], 0) by { EmptyPartial(); }
    } else {
      var n := |x| - 1;
      StreamedPartial(x[..n]);
      var (ret, next) := Streamed(x[..n]);
      assert x == x[..n] + [x[n]];
      if n % 3 == 0 {
        FirstOfGroup(x[..n], x[n], ret, next);
      } else if n % 3 == 1 {
        SecondOfGroup(x[..n], x[n], ret, next);
      } else {
        ThirdOfGroup(x[..n], x[n], ret, next);
      }
    }
  }

  lemma EmptyPartial()
    ensures Partial([], [], 0)
  {
  }

  /** The streaming encoder computes the RFC's encoding. */
  lemma StreamIsEncoded(x: Bytes)
    ensures Streamed(x).0 + EncodeLast(|x|, Streamed(x).1) == Encoded(x)
  {
    hide Streamed;
    StreamedPartial(x);
    LastOfGroup(x, Streamed(x).0, Streamed(x).1);
  }

  lemma EncodedShort(x: bv8, y: bv8)
    ensures Encoded([x]) == [CharTable(Sextet0(x)), CharTable(Sextet1(x, 0)), PAD, PAD]
    ensures Encoded([x, y]) == [CharTable(Sextet0(x)), CharTable(Sextet1(x, y)), CharTable(Sextet2(y, 0)), PAD]
  {
    hide CharTable, Sextet0, Sextet1, Sextet2, Sextet3;
  }

  lemma EncodeLastCases(pos: nat, last: bv8)
    requires Carry(pos, last)
    ensures last < 64
    ensures EncodeLast(pos, last)
            == match pos - Whole(pos)
               case 0 => []
               case 1 => [CharTable(last), PAD, PAD]
               case _ => [CharTable(last), PAD]
  {
    hide CharTable, NoStrayBits;
    CarryFacts(0, 0, last);
  }

  /** The pads after a group of one byte, and after a group of two. */
  lemma PadOne(a: Bytes, x: bv8)
    requires |a| % 3 == 0
    ensures CarryAfter0(x) < 64
    ensures Encoded(a) + [CharTable(Sextet0(x))] + [CharTable(CarryAfter0(x)), PAD, PAD] == Encoded(a + [x])
  {
    hide CharTable, Sextet0, Sextet1, CarryAfter0, Encoded, NoStrayBits;
    EncodedShort(x, 0);
    CarryFacts(x, 0, 0);
    EncodedConcat(a, [x]);
  }

  lemma PadTwo(a: Bytes, x: bv8, y: bv8)
    requires |a| % 3 == 0
    ensures CarryAfter1(y) < 64
    ensures Encoded(a) + [CharTable(Sextet0(x)), CharTable(Sextet1(x, y))] + [CharTable(CarryAfter1(y)), PAD]
            == Encoded(a + [x, y])
  {
    hide CharTable, Sextet0, Sextet1, Sextet2, CarryAfter1, Encoded, NoStrayBits;
    EncodedShort(x, y);
    CarryFacts(y, 0, 0);
    EncodedConcat(a, [x, y]);
  }

  lemma LastOne(x: Bytes, q: nat)
    requires |x| == q + 1
    ensures x == x[..q] + [x[q]]
  {
  }

  lemma LastTwo(x: Bytes, q: nat)
    requires |x| == q + 2
    ensures x == x[..q] + [x[q], x[q + 1]]
  {
  }

  lemma LastOfGroup(x: Bytes, ret: Bytes, next: bv8)
    requires Partial(x, ret, next) && Carry(|x|, next)
    ensures ret + EncodeLast(|x|, next) == Encoded(x)
  {
    hide CharTable, Sextet0, Sextet1, CarryAfter0, CarryAfter1, Encoded, EncodeLast, Carry, Whole;
    var q := Whole(|x|);
    EncodeLastCases(|x|, next);
    if |x| - q == 1 {
      PadOne(x[..q], x[q]);
      LastOne(x, q);
    } else if |x| - q == 2 {
      PadTwo(x[..q], x[q], x[q + 1]);
      LastTwo(x, q);
    }
  }

  // ---------- the decoder ----------

  /** What the decoder comes to: bytes, a refusal, or a lookup outside the table. */
  datatype Outcome = Result(bytes: Bytes) | Refused | OutOfRange

  /** The bytes of a text whose length is a multiple of four, group by group. The first two characters of
      a group are looked up together, the others only if those before them are in the alphabet. */
  function DecodeGroups(s: Bytes): Outcome
    requires |s| % 4 == 0
  {
    if s == [] then Result([])
    else if !InTable(s[0]) || !InTable(s[1]) then OutOfRange
    else
      var a, b, c, d := ReverseLookup(s[0]), ReverseLookup(s[1]), ReverseLookup(s[2]), ReverseLookup(s[3]);
      if a == INVALID || b == INVALID then Refused
      else if !InTable(s[2]) then OutOfRange
      else if c == INVALID then
        if |s| == 4 && s[2] == PAD && s[3] == PAD && NoStrayBits(b, 0x0f) then Result([Byte0(a, b)]) else Refused
      else if !InTable(s[3]) then OutOfRange
      else if d == INVALID then
        if |s| == 4 && s[3] == PAD && NoStrayBits(c, 0x03) then Result([Byte0(a, b), Byte1(b, c)]) else Refused
      else
        match DecodeGroups(s[4..])
        case Result(rest) => Result([Byte0(a, b), Byte1(b, c), Byte2(c, d)] + rest)
        case other => other
  }

  /** The decoder as its callers see it: a refused input gives no bytes. */
  function Decoded(s: Bytes): Outcome {
    if |s| % 4 != 0 then Result([])
    else match DecodeGroups(s) case Refused => Result([]) case other => other
  }

  /** A group of characters gives its three bytes back. */
  lemma GroupLookup(x: bv8, y: bv8, z: bv8)
    ensures var g := Group(x, y, z);
            var a, b, c, d := ReverseLookup(g[0]), ReverseLookup(g[1]), ReverseLookup(g[2]), ReverseLookup(g[3]);
            && a < 64 && b < 64 && c < 64 && d < 64
            && Byte0(a, b) == x && Byte1(b, c) == y && Byte2(c, d) == z
            && (y == 0 ==> NoStrayBits(b, 0x0f)) && (z == 0 ==> NoStrayBits(c, 0x03))
    ensures ReverseLookup(PAD) == INVALID
  {
    hide CharTable, ReverseLookup, Sextet0, Sextet1, Sextet2, Sextet3, Byte0, Byte1, Byte2, NoStrayBits;
    TablesAreInverse(Sextet0(x), PAD);
    TablesAreInverse(Sextet1(x, y), PAD);
    TablesAreInverse(Sextet2(y, z), PAD);
    TablesAreInverse(Sextet3(z), PAD);
    BytesOfSextets(x, y, z);
  }

  lemma DecodeShort(x: bv8, y: bv8)
    ensures DecodeGroups(Group(x, 0, 0)[..2] + [PAD, PAD]) == Result([x])
    ensures DecodeGroups(Group(x, y, 0)[..3] + [PAD]) == Result([x, y])
  {
    hide Group, ReverseLookup, Byte0, Byte1, Byte2, NoStrayBits, InTable;
    GroupLookup(x, 0, 0);
    GroupLookup(x, y, 0);
    GroupInTable(x, 0, 0);
    GroupInTable(x, y, 0);
  }

  lemma GroupInTable(x: bv8, y: bv8, z: bv8)
    ensures forall k :: 0 <= k < 4 ==> InTable(Group(x, y, z)[k])
    ensures InTable(PAD)
  {
    hide Group, ReverseLookup, Byte0, Byte1, Byte2, NoStrayBits, InTable;
    GroupLookup(x, y, z);
    InTableExactly(PAD);
    InTableExactly(Group(x, y, z)[0]);
    InTableExactly(Group(x, y, z)[1]);
    InTableExactly(Group(x, y, z)[2]);
    InTableExactly(Group(x, y, z)[3]);
  }

  lemma DecodeGroup(x: bv8, y: bv8, z: bv8, s: Bytes)
    requires |s| % 4 == 0 && DecodeGroups(s).Result?
    ensures DecodeGroups(Group(x, y, z) + s) == Result([x, y, z] + DecodeGroups(s).bytes)
  {
    hide Group, ReverseLookup, Byte0, Byte1, Byte2, NoStrayBits, InTable;
    GroupLookup(x, y, z);
    GroupInTable(x, y, z);
    assert (Group(x, y, z) + s)[4..] == s;
  }

  /** Decoding undoes encoding, for every input. */
  lemma {:induction false} DecodeUndoesEncode(x: Bytes)
    ensures DecodeGroups(Encoded(x)) == Result(x) && Decoded(Encoded(x)) == Result(x)
    decreases |x|
  {
    hide Group, DecodeGroups;
    if |x| == 0 {
      assert DecodeGroups([]) == Result([]) by { NothingDecoded(); }
    } else if |x| == 1 {
      DecodeShort(x[0], 0);
      assert x == [x[0]];
    } else if |x| == 2 {
      DecodeShort(x[0], x[1]);
      assert x == [x[0], x[1]];
    } else {
      DecodeUndoesEncode(x[3..]);
      DecodeGroup(x[0], x[1], x[2], Encoded(x[3..]));
      assert x == [x[0], x[1], x[2]] + x[3..];
    }
  }

  lemma NothingDecoded()
    ensures DecodeGroups([]) == Result([])
  {
  }

  /** The bytes of four characters give these characters back, as far as there are bytes. */
  lemma GroupOfCharacters(p: bv8, q: bv8, r: bv8, t: bv8)
    requires InAlphabet(p) && InAlphabet(q)
    ensures var a, b, c, d := ReverseLookup(p), ReverseLookup(q), ReverseLookup(r), ReverseLookup(t);
            && (NoStrayBits(b, 0x0f) ==> Group(Byte0(a, b), 0, 0)[..2] == [p, q])
            && (InAlphabet(r) && NoStrayBits(c, 0x03) ==> Group(Byte0(a, b), Byte1(b, c), 0)[..3] == [p, q, r])
            && (InAlphabet(r) && InAlphabet(t) ==> Group(Byte0(a, b), Byte1(b, c), Byte2(c, d)) == [p, q, r, t])
  {
    hide CharTable, ReverseLookup, Sextet0, Sextet1, Sextet2, Sextet3, Byte0, Byte1, Byte2, NoStrayBits;
    var a, b, c, d := ReverseLookup(p), ReverseLookup(q), ReverseLookup(r), ReverseLookup(t);
    TablesAreInverse(0, p);
    TablesAreInverse(0, q);
    TablesAreInverse(0, r);
    TablesAreInverse(0, t);
    SextetsOfBytes(a, b, 0, 0);
    if InAlphabet(r) {
      SextetsOfBytes(a, b, c, 0);
      if InAlphabet(t) {
        SextetsOfBytes(a, b, c, d);
      }
    }
  }

  lemma EncodedThree(x: bv8, y: bv8, z: bv8, rest: Bytes)
    ensures Encoded([x, y, z] + rest) == Group(x, y, z) + Encoded(rest)
  {
    hide Group;
    assert ([x, y, z] + rest)[3..] == rest;
  }

  /** What the decoder gives for a text that it accepts, by the characters of the first group. */
  lemma AcceptedGroup(s: Bytes)
    requires |s| % 4 == 0 && s != [] && DecodeGroups(s).Result?
    ensures InAlphabet(s[0]) && InAlphabet(s[1])
    ensures var a, b, c, d := ReverseLookup(s[0]), ReverseLookup(s[1]), ReverseLookup(s[2]), ReverseLookup(s[3]);
            if !InAlphabet(s[2]) then
              && |s| == 4 && s[2] == PAD && s[3] == PAD && NoStrayBits(b, 0x0f)
              && DecodeGroups(s).bytes == [Byte0(a, b)]
            else if !InAlphabet(s[3]) then
              && |s| == 4 && s[3] == PAD && NoStrayBits(c, 0x03)
              && DecodeGroups(s).bytes == [Byte0(a, b), Byte1(b, c)]
            else
              && DecodeGroups(s[4..]).Result?
              && DecodeGroups(s).bytes == [Byte0(a, b), Byte1(b, c), Byte2(c, d)] + DecodeGroups(s[4..]).bytes
  {
    hide ReverseLookup, Byte0, Byte1, Byte2, NoStrayBits, InTable;
  }

  /** Whatever the decoder accepts is the encoding of its result: padding and pad bits are exact. */
  lemma {:induction false} EncodeUndoesDecode(s: Bytes)
    requires |s| % 4 == 0 && DecodeGroups(s).Result?
    ensures Encoded(DecodeGroups(s).bytes) == s
    ensures s != [] ==> DecodeGroups(s).bytes != []
    decreases |s|
  {
    hide Group, DecodeGroups, Encoded, ReverseLookup, Byte0, Byte1, Byte2, NoStrayBits, InAlphabet;
    if s == [] {
      NothingDecoded();
      EncodedFew(0, 0);
    } else {
      var a, b, c, d := ReverseLookup(s[0]), ReverseLookup(s[1]), ReverseLookup(s[2]), ReverseLookup(s[3]);
      AcceptedGroup(s);
      GroupOfCharacters(s[0], s[1], s[2], s[3]);
      if !InAlphabet(s[2]) {
        EncodedFew(Byte0(a, b), 0);
        FourCharacters(s);
      } else if !InAlphabet(s[3]) {
        EncodedFew(Byte0(a, b), Byte1(b, c));
        FourCharacters(s);
      } else {
        EncodeUndoesDecode(s[4..]);
        EncodedThree(Byte0(a, b), Byte1(b, c), Byte2(c, d), DecodeGroups(s[4..]).bytes);
        FirstFour(s);
      }
    }
  }

  lemma EncodedFew(x: bv8, y: bv8)
    ensures Encoded([]) == []
    ensures Encoded([x]) == Group(x, 0, 0)[..2] + [PAD, PAD]
    ensures Encoded([x, y]) == Group(x, y, 0)[..3] + [PAD]
  {
    hide Group;
  }

  lemma FourCharacters(s: Bytes)
    requires |s| == 4
    ensures s == [s[0], s[1]] + [s[2], s[3]] == [s[0], s[1], s[2]] + [s[3]]
  {
  }

  lemma FirstFour(s: Bytes)
    requires |s| >= 4
    ensures s == [s[0], s[1], s[2], s[3]] + s[4..]
  {
  }

  /** The decoder gives bytes exactly on the encodings of non-empty strings, and those bytes encode back
      to the text. */
  lemma AcceptsExactlyEncodings(s: Bytes)
    ensures Decoded(s).Result? && Decoded(s).bytes != [] <==> exists x: Bytes :: x != [] && s == Encoded(x)
    ensures Decoded(s).Result? && Decoded(s).bytes != [] ==> Encoded(Decoded(s).bytes) == s
  {
    hide Encoded, DecodeGroups;
    if Decoded(s).Result? && Decoded(s).bytes != [] {
      EncodeUndoesDecode(s);
      assert s == Encoded(Decoded(s).bytes);
    }
    if x: Bytes :| x != [] && s == Encoded(x) {
      DecodeUndoesEncode(x);
    }
  }

  // ---------- texts that are read out of range ----------

  /** The decoder looks character `i` up: all characters before it are in the alphabet, except that the
      second of a group is looked up whatever the first one is. */
  ghost predicate LookedUp(s: Bytes, i: nat)
    requires i < |s|
  {
    forall j :: 0 <= j < (if i % 4 == 1 then i - 1 else i) ==> InAlphabet(s[j])
  }

  /** Some character that is looked up is a byte from 128 on. */
  ghost predicate HighByteLookedUp(s: Bytes) {
    exists i :: 0 <= i < |s| && s[i] >= 128 && LookedUp(s, i)
  }

  lemma LookedUpShift(s: Bytes, i: nat)
    requires |s| % 4 == 0 && |s| >= 4 && i < |s| - 4
    ensures LookedUp(s, i + 4) <==> LookedUp(s[4..], i) && forall j :: 0 <= j < 4 ==> InAlphabet(s[j])
  {
    hide InAlphabet;
    var n := if i % 4 == 1 then i - 1 else i;
    assert (i + 4) % 4 == i % 4;
    if LookedUp(s, i + 4) {
      forall j | 0 <= j < n ensures InAlphabet(s[4..][j]) {
        assert s[4..][j] == s[j + 4];
      }
    }
    if LookedUp(s[4..], i) && forall j :: 0 <= j < 4 ==> InAlphabet(s[j]) {
      forall j | 0 <= j < n + 4 ensures InAlphabet(s[j]) {
        assert j >= 4 ==> s[j] == s[4..][j - 4];
      }
    }
  }

  /** One group: a high byte is looked up in it, or it is all alphabet and one is looked up behind it. */
  lemma HighByteSplits(s: Bytes)
    requires |s| % 4 == 0 && s != []
    ensures HighByteLookedUp(s) <==>
            || s[0] >= 128 || s[1] >= 128
            || (InAlphabet(s[0]) && InAlphabet(s[1])
                && (|| s[2] >= 128
                    || (InAlphabet(s[2])
                        && (s[3] >= 128 || (InAlphabet(s[3]) && HighByteLookedUp(s[4..]))))))
  {
    hide InAlphabet;
    assert LookedUp(s, 0) && LookedUp(s, 1);
    assert LookedUp(s, 2) <==> InAlphabet(s[0]) && InAlphabet(s[1]);
    assert LookedUp(s, 3) <==> InAlphabet(s[0]) && InAlphabet(s[1]) && InAlphabet(s[2]);
    if HighByteLookedUp(s) {
      var i :| 0 <= i < |s| && s[i] >= 128 && LookedUp(s, i);
      if i >= 4 {
        LookedUpShift(s, i - 4);
        assert s[4..][i - 4] == s[i];
      }
    }
    if InAlphabet(s[0]) && InAlphabet(s[1]) && InAlphabet(s[2]) && InAlphabet(s[3]) && HighByteLookedUp(s[4..]) {
      var i :| 0 <= i < |s| - 4 && s[4..][i] >= 128 && LookedUp(s[4..], i);
      LookedUpShift(s, i);
      assert s[i + 4] == s[4..][i];
    }
  }

  lemma {:induction false} GroupsOutOfRange(s: Bytes)
    requires |s| % 4 == 0
    ensures DecodeGroups(s) == OutOfRange <==> HighByteLookedUp(s)
    decreases |s|
  {
    hide ReverseLookup, Byte0, Byte1, Byte2, NoStrayBits, InTable, HighByteLookedUp;
    if s != [] {
      HighByteSplits(s);
      InTableExactly(s[0]);
      InTableExactly(s[1]);
      InTableExactly(s[2]);
      InTableExactly(s[3]);
      GroupsOutOfRange(s[4..]);
    } else {
      NothingLookedUp();
    }
  }

  lemma NothingLookedUp()
    ensures !HighByteLookedUp([])
  {
  }

  /** The decoder reads outside its table exactly on texts whose length is a positive multiple of four and
      that have a byte from 128 on among the characters looked up before the first refusal. */
  lemma ReadsOutOfRangeExactly(s: Bytes)
    ensures Decoded(s) == OutOfRange <==> s != [] && |s| % 4 == 0 && HighByteLookedUp(s)
  {
    hide DecodeGroups, HighByteLookedUp;
    if |s| % 4 == 0 {
      GroupsOutOfRange(s);
    }
    if s == [] {
      NothingDecoded();
    }
  }

  /** What a caller can see to: on a text of bytes below 128 no lookup leaves the table, and the decoder
      gives the bytes of an encoding or nothing. */
  lemma LowBytesAreSafe(s: Bytes)
    requires forall c :: c in s ==> c < 128
    ensures Decoded(s).Result?
    ensures Decoded(s) == Result([]) <==> !exists x: Bytes :: x != [] && s == Encoded(x)
  {
    hide Decoded, LookedUp, Encoded;
    ReadsOutOfRangeExactly(s);
    AcceptsExactlyEncodings(s);
    assert forall i :: 0 <= i < |s| ==> s[i] in s;
    NeverRefused(s);
  }

  lemma NeverRefused(s: Bytes)
    ensures Decoded(s) != Refused
  {
    hide DecodeGroups;
  }

  /** A text that is read out of range, and one with the same byte that is refused before it is reached. */
  lemma HighByteWitness()
    ensures Decoded([0x80, 65, 65, 65]) == OutOfRange
    ensures Decoded([PAD, 65, 65, 0x80]) == Result([])
  {
    InTableExactly(0x80);
    InTableExactly(PAD);
    InTableExactly(65);
    hide InTable;
  }

  // ---------- the loops ----------

  method EncodeByte(cur: bv8, pos: nat, next: bv8, ret: Bytes) returns (next': bv8, ret': Bytes)
    requires Carry(pos, next)
    ensures ret' == ret + EncodeBase(cur, pos, next).0 && next' == EncodeBase(cur, pos, next).1
  {
    hide CharTable, Sextet0, Sextet3, CarryAfter0, CarryAfter1, NoStrayBits, Join1, Join2;
    CarryFacts(cur, cur, next);
    if pos % 3 == 0 {
      ret' := ret + [CharTable(Sextet0(cur))];
      next' := CarryAfter0(cur);
    } else if pos % 3 == 1 {
      ret' := ret + [CharTable(Join1(next, cur))];
      next' := CarryAfter1(cur);
    } else {
      ret' := ret + [CharTable(Join2(next, cur))];
      ret' := ret' + [CharTable(Sextet3(cur))];
      next' := 0;
    }
  }

  /** The encoder of a flat string. */
  method Encode(input: Bytes) returns (ret: Bytes)
    ensures ret == Encoded(input) && Decoded(ret) == Result(input)
  {
    hide EncodeBase, EncodeLast, Encoded, Decoded, Carry;
    ret := [];
    var next: bv8 := 0;
    var i := 0;
    while i < |input|
      invariant i <= |input| && (ret, next) == Streamed(input[..i])
    {
      assert input[..i + 1][..i] == input[..i];
      next, ret := EncodeByte(input[i], i, next, ret);
      i := i + 1;
    }
    assert input[..i] == input;
    StreamIsEncoded(input);
    DecodeUndoesEncode(input);
    ret := ret + EncodeLast(i, next);
  }

  function Take(x: Bytes, n: nat): (r: Bytes)
    ensures r <= x && |r| <= n && (|r| == n || r == x)
  {
    if |x| <= n then x else x[..n]
  }

  /** Where a slice's bytes are in the whole. */
  lemma {:induction false} SliceBytes(slices: seq<Bytes>, k: nat)
    requires k < |slices|
    ensures var before := |Flatten(slices[..k])|;
            && |Flatten(slices[..k + 1])| == before + |slices[k]| <= |Flatten(slices)|
            && forall i :: 0 <= i < |slices[k]| ==> Flatten(slices)[before + i] == slices[k][i]
    decreases |slices|
  {
    var n := |slices| - 1;
    assert slices[..k + 1][..k] == slices[..k];
    if k < n {
      SliceBytes(slices[..n], k);
      assert slices[..n][..k] == slices[..k] && slices[..n][..k + 1] == slices[..k + 1];
    } else {
      assert slices[..k + 1] == slices;
    }
  }

  /** The encoder of a buffer: however its bytes are cut into slices, the result is the encoding of the
      first `length` bytes, or of all if there are fewer. */
  method EncodeBuffer(slices: seq<Bytes>, length: nat) returns (ret: Bytes)
    ensures ret == Encoded(Take(Flatten(slices), length))
  {
    hide EncodeBase, EncodeLast, Encoded, Carry, Flatten;
    ret := [];
    var j := 0;
    var next: bv8 := 0;
    var k := 0;
    ghost var all := Flatten(slices);
    NothingFlattened(slices);
    while k < |slices|
      invariant k <= |slices| && j <= length && j <= |all|
      invariant j == |Flatten(slices[..k])|
      invariant (ret, next) == Streamed(all[..j])
    {
      var slice := slices[k];
      ghost var start := j;
      SliceBytes(slices, k);
      var i := 0;
      while i < |slice| && j < length
        invariant i <= |slice| && j == start + i && j <= length && j <= |all|
        invariant (ret, next) == Streamed(all[..j])
      {
        assert all[j] == slice[i];
        assert all[..j + 1][..j] == all[..j];
        next, ret := EncodeByte(slice[i], j, next, ret);
        i, j := i + 1, j + 1;
      }
      k := k + 1;
      if j == length {
        break;
      }
    }
    assert j == length || j == |all| by {
      assert slices[..|slices|] == slices;
    }
    assert all[..j] == Take(all, length);
    StreamIsEncoded(all[..j]);
    ret := ret + EncodeLast(j, next);
  }

  lemma NothingFlattened(slices: seq<Bytes>)
    ensures |Flatten(slices[..0])| == 0
  {
  }

  /** The decoder's outcome when `s` is still to be read. */
  function Continued(result: Bytes, s: Bytes): Outcome
    requires |s| % 4 == 0
  {
    match DecodeGroups(s)
    case Result(t) => Result(result + t)
    case Refused => Result([])
    case OutOfRange => OutOfRange
  }

  /** What the next group does to the result. */
  lemma NextGroup(result: Bytes, s: Bytes)
    requires |s| % 4 == 0 && s != []
    ensures var a, b, c, d := ReverseLookup(s[0]), ReverseLookup(s[1]), ReverseLookup(s[2]), ReverseLookup(s[3]);
            Continued(result, s) ==
            if !InTable(s[0]) || !InTable(s[1]) then OutOfRange
            else if a == INVALID || b == INVALID then Result([])
            else if !InTable(s[2]) then OutOfRange
            else if c == INVALID then
              Result(if |s| == 4 && s[2] == PAD && s[3] == PAD && NoStrayBits(b, 0x0f) then result + [Byte0(a, b)]
                     else [])
            else if !InTable(s[3]) then OutOfRange
            else if d == INVALID then
              Result(if |s| == 4 && s[3] == PAD && NoStrayBits(c, 0x03) then result + [Byte0(a, b)] + [Byte1(b, c)]
                     else [])
            else Continued(result + [Byte0(a, b)] + [Byte1(b, c)] + [Byte2(c, d)], s[4..])
  {
    hide ReverseLookup, Byte0, Byte1, Byte2, NoStrayBits, InTable;
  }

  /** The first of the pads that may end a text, or its length. */
  function FirstPadding(s: Bytes): nat
    requires |s| >= 4
  {
    if s[|s| - 1] != PAD then |s| else if s[|s| - 2] != PAD then |s| - 1 else |s| - 2
  }

  lemma PaddingInGroup(s: Bytes, cur: nat)
    requires |s| % 4 == 0 && cur % 4 == 0 && cur < |s|
    ensures var rest := s[cur..];
            && |rest| >= 4
            && (FirstPadding(s) == cur + 2 <==> |rest| == 4 && rest[2] == PAD && rest[3] == PAD)
            && (rest[2] != PAD ==> (FirstPadding(s) == cur + 3 <==> |rest| == 4 && rest[3] == PAD))
  {
  }

  /** The strict decoder. */
  method Decode(input: Bytes) returns (outcome: Outcome)
    ensures outcome == Decoded(input)
  {
    hide Byte0, Byte1, Byte2, NoStrayBits, ReverseLookup, Continued, DecodeGroups, Decoded, InTable;
    if |input| % 4 != 0 || input == [] {
      RefusedAtOnce(input);
      return Result([]);
    }
    var firstPaddingIndex := |input|;
    if input[|input| - 1] == PAD {
      firstPaddingIndex := |input| - 1;
      if input[|input| - 2] == PAD {
        firstPaddingIndex := |input| - 2;
      }
    }
    assert firstPaddingIndex == FirstPadding(input);
    TablesAreInverse(0, PAD);
    var result := [];
    var bytesLeft := |input|;
    var curRead := 0;
    Started(input);
    while bytesLeft > 0
      invariant 0 <= curRead <= |input| && curRead + bytesLeft == |input| && curRead % 4 == 0 && bytesLeft % 4 == 0
      invariant Decoded(input) == Continued(result, input[curRead..])
    {
      PaddingInGroup(input, curRead);
      NextGroup(result, input[curRead..]);
      assert input[curRead..][4..] == input[curRead + 4..];
      if !InTable(input[curRead]) || !InTable(input[curRead + 1]) {
        return OutOfRange;
      }
      var a := ReverseLookup(input[curRead]);
      var b := ReverseLookup(input[curRead + 1]);
      if a == INVALID || b == INVALID {
        return Result([]);
      }
      result := result + [Byte0(a, b)];
      if !InTable(input[curRead + 2]) {
        return OutOfRange;
      }
      var c := ReverseLookup(input[curRead + 2]);
      if c == INVALID {
        if firstPaddingIndex != curRead + 2 {
          return Result([]);
        } else if !NoStrayBits(b, 0x0f) {
          return Result([]);
        } else {
          return Result(result);
        }
      }
      result := result + [Byte1(b, c)];
      if !InTable(input[curRead + 3]) {
        return OutOfRange;
      }
      var d := ReverseLookup(input[curRead + 3]);
      if d == INVALID {
        if firstPaddingIndex != curRead + 3 {
          return Result([]);
        } else if !NoStrayBits(c, 0x03) {
          return Result([]);
        } else {
          return Result(result);
        }
      }
      result := result + [Byte2(c, d)];
      curRead := curRead + 4;
      bytesLeft := bytesLeft - 4;
    }
    assert input[curRead..] == [];
    Finished(result);
    outcome := Result(result);
  }

  lemma RefusedAtOnce(s: Bytes)
    requires |s| % 4 != 0 || s == []
    ensures Decoded(s) == Result([])
  {
  }

  lemma Started(s: Bytes)
    requires |s| % 4 == 0
    ensures Decoded(s) == Continued([], s[0..])
  {
    hide DecodeGroups;
    assert s[0..] == s;
  }

  lemma Finished(result: Bytes)
    ensures Continued(result, []) == Result(result)
  {
  }
}
