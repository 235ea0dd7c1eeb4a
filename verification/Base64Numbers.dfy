/** Base64 as arithmetic: the alphabet as a text, and each symbol as a digit of the number that three bytes make. */
module Base64Numbers {
  import opened Wrappers
  import opened PowersOfTwo
  import opened Chunks
  import opened Base64

  // ----- The alphabet

  const UPPER: string := "ABCDEFGHIJKLMNOPQRSTUVWXYZ"
  const LOWER: string := "abcdefghijklmnopqrstuvwxyz"
  const DIGITS: string := "0123456789"
  const ALPHABET: string := UPPER + LOWER + DIGITS + "+/"

  /** The code of the symbol at a position. */
  function CodeAt(i: nat): int {
    if i < 26 then 65 + i else if i < 52 then 71 + i else if i < 62 then i - 4 else if i == 62 then 43 else 47
  }

  lemma LettersAt(i: nat)
    ensures |UPPER| == 26 && (i < 26 ==> UPPER[i] as int == 65 + i)
    ensures |LOWER| == 26 && (i < 26 ==> LOWER[i] as int == 97 + i)
  {
  }

  lemma DigitsAt(i: nat)
    ensures |DIGITS| == 10 && (i < 10 ==> DIGITS[i] as int == 48 + i)
  {
  }

  lemma AlphabetAt(i: nat)
    requires i < 64
    ensures |ALPHABET| == 64 && ALPHABET[i] as int == CodeAt(i)
  {
    LettersAt(i);
    if i < 26 {
      assert ALPHABET[i] == UPPER[i];
    } else if i < 52 {
      LettersAt(i - 26);
      assert ALPHABET[i] == LOWER[i - 26];
    } else if i < 62 {
      DigitsAt(i - 52);
      assert ALPHABET[i] == DIGITS[i - 52];
    } else {
      DigitsAt(0);
      assert ALPHABET[i] == "+/"[i - 62];
    }
  }

  lemma SymbolCode(s: sextet)
    ensures 0 <= s as int < 64 && Symbol(s) as int == CodeAt(s as int)
  {
  }

  /** A symbol is the character of the alphabet at its sextet. */
  lemma {:induction false} SymbolIs(s: sextet)
    ensures 0 <= s as int < |ALPHABET| == 64 && Symbol(s) as int == ALPHABET[s as int] as int
  {
    SymbolCode(s);
    AlphabetAt(s as int);
  }

  /** The symbols are exactly the characters of the alphabet. */
  lemma {:induction false} IsSymbolExactly(c: byte)
    ensures IsSymbol(c) <==> (c as int) as char in ALPHABET
  {
    if IsSymbol(c) {
      SymbolInverse(c);
      SymbolIs(SextetOf(c).value);
      assert ALPHABET[SextetOf(c).value as int] as int == c as int;
    }
    if (c as int) as char in ALPHABET {
      AlphabetAt(0);
      var i :| 0 <= i < |ALPHABET| && ALPHABET[i] == (c as int) as char;
      AlphabetAt(i);
      CodeIsSymbol(c, i);
    }
  }

  lemma CodeIsSymbol(c: byte, i: nat)
    requires i < 64 && c as int == CodeAt(i)
    ensures IsSymbol(c)
  {
    if i < 26 {
      assert 65 <= c <= 90;
    } else if i < 52 {
      assert 97 <= c <= 122;
    } else if i < 62 {
      assert 48 <= c <= 57;
    } else {
      assert c == 43 || c == 47;
    }
  }

  // ----- Sextets as numbers

  lemma Masked(x: byte)
    ensures (x & 3) as int == (x as int) % 4 && (x & 15) as int == (x as int) % 16
  {
  }

  lemma ShiftedUp(x: byte)
    ensures x < 4 ==> (x << 4) as int == 16 * (x as int)
    ensures x < 16 ==> (x << 2) as int == 4 * (x as int)
  {
  }

  lemma ShiftedDown(x: byte)
    ensures (x >> 2) as int == (x as int) / 4
    ensures (x >> 4) as int == (x as int) / 16
    ensures (x >> 6) as int == (x as int) / 64
  {
  }

  lemma Joined(a: byte, b: byte)
    requires a < 64 && b < 64 && a & b == 0
    ensures (a | b) as int == a as int + b as int
  {
  }

  lemma Narrowed(a: byte)
    requires a < 64
    ensures (a as sextet) as int == a as int
  {
  }

  lemma Sextet0Is(x: byte)
    ensures Sextet0(x) as int == (x as int) / 4
  {
    ShiftedDown(x);
    Narrowed(x >> 2);
  }

  lemma Sextet1Is(x: byte, y: byte)
    ensures Sextet1(x, y) as int == (x as int) % 4 * 16 + (y as int) / 16
  {
    var a, b := (x & 3) << 4, y >> 4;
    Masked(x);
    ShiftedUp(x & 3);
    ShiftedDown(y);
    assert a & b == 0 && a < 64 && b < 64 && a | b < 64;
    Joined(a, b);
    Narrowed(a | b);
  }

  lemma Sextet2Is(y: byte, z: byte)
    ensures Sextet2(y, z) as int == (y as int) % 16 * 4 + (z as int) / 64
  {
    var a, b := (y & 15) << 2, z >> 6;
    Masked(y);
    ShiftedUp(y & 15);
    ShiftedDown(z);
    assert a & b == 0 && a < 64 && b < 64 && a | b < 64;
    Joined(a, b);
    Narrowed(a | b);
  }

  lemma Sextet3Is(z: byte)
    ensures Sextet3(z) as int == (z as int) % 64
  {
  }

  /** The number that three bytes make. */
  function Number(x: int, y: int, z: int): int {
    65536 * x + 256 * y + z
  }

  /** Digit `t` of a number to base 64, of four digits. */
  function Digit64(n: int, t: nat): int {
    if t == 0 then n / 262144 % 64 else if t == 1 then n / 4096 % 64 else if t == 2 then n / 64 % 64 else n % 64
  }

  lemma DigitsOfNumber(x: nat, y: nat, z: nat)
    requires x < 256 && y < 256 && z < 256
    ensures Digit64(Number(x, y, z), 0) == x / 4
    ensures Digit64(Number(x, y, z), 1) == x % 4 * 16 + y / 16
    ensures Digit64(Number(x, y, z), 2) == y % 16 * 4 + z / 64
    ensures Digit64(Number(x, y, z), 3) == z % 64
  {
    var n := Number(x, y, z);
    FirstDigit(n, x, 256 * y + z);
    SecondDigit(n, x, y, z);
    ThirdDigit(n, x, y, z);
  }

  lemma FirstDigit(n: nat, x: nat, rest: nat)
    requires x < 256 && rest < 65536 && n == 65536 * x + rest
    ensures n / 262144 % 64 == x / 4
  {
    ModUnique(n, 262144, x / 4, 65536 * (x % 4) + rest);
  }

  lemma SecondDigit(n: nat, x: nat, y: nat, z: nat)
    requires x < 256 && y < 256 && z < 256 && n == Number(x, y, z)
    ensures n / 4096 % 64 == x % 4 * 16 + y / 16
  {
    ModUnique(n, 4096, 16 * x + y / 16, 256 * (y % 16) + z);
    ModUnique(16 * x + y / 16, 64, x / 4, x % 4 * 16 + y / 16);
  }

  lemma ThirdDigit(n: nat, x: nat, y: nat, z: nat)
    requires x < 256 && y < 256 && z < 256 && n == Number(x, y, z)
    ensures n / 64 % 64 == y % 16 * 4 + z / 64 && n % 64 == z % 64
  {
    ModUnique(n, 64, 1024 * x + 4 * y + z / 64, z % 64);
    ModUnique(1024 * x + 4 * y + z / 64, 64, 16 * x + y / 16, y % 16 * 4 + z / 64);
  }

  /** Byte `k`, or zero past the end. */
  function ByteAt(bytes: seq<byte>, k: nat): (b: int)
    ensures 0 <= b < 256
  {
    ByteBound(bytes, k);
    if k < |bytes| then bytes[k] as int else 0
  }

  lemma ByteBound(bytes: seq<byte>, k: nat)
    ensures k < |bytes| ==> 0 <= bytes[k] as int < 256
  {
  }

  function GroupNumber(bytes: seq<byte>, g: nat): int {
    Number(ByteAt(bytes, 3 * g), ByteAt(bytes, 3 * g + 1), ByteAt(bytes, 3 * g + 2))
  }

  function SextetIn(x: byte, y: byte, z: byte, t: nat): sextet {
    if t == 0 then Sextet0(x) else if t == 1 then Sextet1(x, y) else if t == 2 then Sextet2(y, z) else Sextet3(z)
  }

  /** The same sextet, from the values of the bytes. */
  function SextetValue(x: int, y: int, z: int, t: nat): int {
    if t == 0 then x / 4 else if t == 1 then x % 4 * 16 + y / 16 else if t == 2 then y % 16 * 4 + z / 64 else z % 64
  }

  lemma SextetInValue(x: byte, y: byte, z: byte, t: nat)
    requires t < 4
    ensures SextetIn(x, y, z, t) as int == SextetValue(x as int, y as int, z as int, t)
  {
    if t == 0 {
      Sextet0Is(x);
    } else if t == 1 {
      Sextet1Is(x, y);
    } else if t == 2 {
      Sextet2Is(y, z);
    } else {
      Sextet3Is(z);
    }
  }

  lemma SextetDigit(x: nat, y: nat, z: nat, t: nat)
    requires x < 256 && y < 256 && z < 256 && t < 4
    ensures SextetValue(x, y, z, t) == Digit64(Number(x, y, z), t)
  {
    DigitsOfNumber(x, y, z);
  }

  /** Byte `k` of a chunk, or zero past its end. */
  function Filled(chunk: seq<byte>, k: nat): byte {
    if k < |chunk| then chunk[k] else 0
  }

  lemma FilledIs(chunk: seq<byte>, k: nat)
    ensures Filled(chunk, k) as int == ByteAt(chunk, k)
  {
    ZeroByte();
  }

  lemma PackedIn(chunk: seq<byte>, t: nat)
    requires 0 < |chunk| <= 3 && t <= |chunk|
    ensures |PackGroup(chunk)| == |chunk| + 1
    ensures PackGroup(chunk)[t] == SextetIn(Filled(chunk, 0), Filled(chunk, 1), Filled(chunk, 2), t)
  {
  }

  lemma GroupDigit(chunk: seq<byte>, t: nat)
    requires 0 < |chunk| <= 3 && t <= |chunk|
    ensures |PackGroup(chunk)| == |chunk| + 1 && PackGroup(chunk)[t] as int == Digit64(GroupNumber(chunk, 0), t)
  {
    PackedIn(chunk, t);
    FilledIs(chunk, 0);
    FilledIs(chunk, 1);
    FilledIs(chunk, 2);
    SextetInValue(Filled(chunk, 0), Filled(chunk, 1), Filled(chunk, 2), t);
    SextetDigit(ByteAt(chunk, 0), ByteAt(chunk, 1), ByteAt(chunk, 2), t);
  }

  lemma ZeroByte()
    ensures (0 as byte) as int == 0
  {
  }

  /** The bytes of group `g`, of which there are three or, in the last one, fewer. */
  function GroupOf(bytes: seq<byte>, g: nat): seq<byte>
    requires 3 * g < |bytes|
  {
    if 3 * g + 3 <= |bytes| then bytes[3 * g..3 * g + 3] else bytes[3 * g..]
  }

  lemma OneChunk(chunk: seq<byte>)
    requires 0 < |chunk| <= 3
    ensures Pack(chunk) == PackGroup(chunk) && |PackGroup(chunk)| == |chunk| + 1
  {
  }

  lemma PackTail(bytes: seq<byte>)
    requires |bytes| > 3
    ensures Pack(bytes) == Pack(bytes[..3]) + Pack(bytes[3..])
  {
    ChunkedConcat(bytes[..3], bytes[3..], 3, PackGroup);
    assert bytes == bytes[..3] + bytes[3..];
  }

  lemma LaterGroup(bytes: seq<byte>, g: nat)
    requires g > 0 && 3 * g < |bytes|
    ensures 3 * (g - 1) < |bytes[3..]| && GroupOf(bytes[3..], g - 1) == GroupOf(bytes, g)
  {
    var tail := bytes[3..];
    if 3 * g + 3 <= |bytes| {
      assert tail[3 * (g - 1)..3 * (g - 1) + 3] == bytes[3 * g..3 * g + 3];
    } else {
      assert tail[3 * (g - 1)..] == bytes[3 * g..];
    }
  }

  lemma {:induction false} PackAt(bytes: seq<byte>, g: nat, t: nat)
    requires 3 * g < |bytes| && t <= |GroupOf(bytes, g)|
    ensures |PackGroup(GroupOf(bytes, g))| == |GroupOf(bytes, g)| + 1
    ensures 4 * g + t < |Pack(bytes)| && Pack(bytes)[4 * g + t] == PackGroup(GroupOf(bytes, g))[t]
    decreases g
  {
    OneChunk(GroupOf(bytes, g));
    if |bytes| > 3 {
      PackTail(bytes);
      OneChunk(bytes[..3]);
      if g > 0 {
        LaterGroup(bytes, g);
        PackAt(bytes[3..], g - 1, t);
      } else {
        assert GroupOf(bytes, 0) == bytes[..3];
      }
    } else {
      assert GroupOf(bytes, 0) == bytes;
    }
  }

  lemma GroupNumberIs(bytes: seq<byte>, g: nat)
    requires 3 * g < |bytes|
    ensures GroupNumber(GroupOf(bytes, g), 0) == GroupNumber(bytes, g)
  {
    var chunk := GroupOf(bytes, g);
    assert ByteAt(chunk, 0) == ByteAt(bytes, 3 * g);
    assert ByteAt(chunk, 1) == ByteAt(bytes, 3 * g + 1);
    assert ByteAt(chunk, 2) == ByteAt(bytes, 3 * g + 2);
  }

  lemma EncodeLength(bytes: seq<byte>)
    ensures |Encode(bytes)| == (|bytes| + 2) / 3 * 4
    ensures |Pack(bytes)| == |bytes| + (|bytes| + 2) / 3
  {
    PackLength(bytes);
  }

  /**
    The whole encoding, character by character: four for each group of three bytes, the symbols of the
    digits of its number as far as the bytes go, and padding.
   */
  lemma {:induction false} EncodeAt(bytes: seq<byte>, g: nat, t: nat)
    requires t < 4 && 4 * g + t < |Encode(bytes)|
    ensures |Encode(bytes)| == (|bytes| + 2) / 3 * 4 && 3 * g < |bytes|
    ensures 3 * g + t > |bytes| ==> Encode(bytes)[4 * g + t] as int == '=' as int
    ensures 3 * g + t <= |bytes| ==>
              var digit := Digit64(GroupNumber(bytes, g), t);
              0 <= digit < |ALPHABET| == 64 && Encode(bytes)[4 * g + t] as int == ALPHABET[digit] as int
  {
    EncodeLength(bytes);
    if 3 * g + t <= |bytes| {
      PackAt(bytes, g, t);
      SymbolAt(bytes, g, t);
    }
  }

  lemma SymbolAt(bytes: seq<byte>, g: nat, t: nat)
    requires 3 * g < |bytes| && t <= |GroupOf(bytes, g)| && 4 * g + t < |Pack(bytes)|
    ensures var digit := Digit64(GroupNumber(bytes, g), t);
            && 0 <= digit < |ALPHABET| == 64
            && Text(Pack(bytes))[4 * g + t] as int == ALPHABET[digit] as int
  {
    PackAt(bytes, g, t);
    GroupDigit(GroupOf(bytes, g), t);
    GroupNumberIs(bytes, g);
    SymbolIs(Pack(bytes)[4 * g + t]);
  }

  // ----- What the decoder takes

  predicate InAlphabet(c: byte) {
    (c as int) as char in ALPHABET
  }

  /** `k` characters of the alphabet and then `p` equals signs. */
  predicate SymbolsAndPads(input: seq<byte>, k: nat, p: nat) {
    && |input| == k + p
    && (forall i :: 0 <= i < k ==> InAlphabet(input[i]))
    && (forall i :: k <= i < |input| ==> input[i] as int == '=' as int)
  }

  /** The counts of symbols, by fours, and of padding that are accepted. */
  predicate GoodCounts(k: nat, p: nat) {
    (k % 4, p) in {(0, 0), (2, 0), (2, 2), (3, 0), (3, 1)}
  }

  lemma PadIs(c: byte)
    ensures c == PAD <==> c as int == '=' as int
  {
  }

  lemma ShapeIs(input: seq<byte>, k: nat, p: nat)
    ensures SymbolsAndPads(input, k, p) <==> Shape(input, k, p)
  {
    forall i | 0 <= i < |input|
      ensures IsSymbol(input[i]) <==> InAlphabet(input[i])
      ensures input[i] == PAD <==> input[i] as int == '=' as int
    {
      IsSymbolExactly(input[i]);
      PadIs(input[i]);
    }
    if |input| == k + p {
      assert forall i :: 0 <= i < k ==> input[..k][i] == input[i];
      assert forall i :: k <= i < |input| ==> input[k..][i - k] == input[i];
      assert input[k..] == Pads(p) <==> forall i :: 0 <= i < p ==> input[k..][i] == PAD;
    }
  }

  /** A text is accepted exactly when it is symbols of the alphabet and padding in one of five counts. */
  lemma {:induction false} AcceptsTexts(input: seq<byte>)
    ensures Decode(input).Ok? <==> exists k: nat, p: nat :: SymbolsAndPads(input, k, p) && GoodCounts(k, p)
  {
    AcceptsExactly(input);
    forall k: nat, p: nat
      ensures SymbolsAndPads(input, k, p) && GoodCounts(k, p) <==> Shape(input, k, p) && Accepted(k, p)
    {
      ShapeIs(input, k, p);
    }
    if Decode(input).Ok? {
      var k: nat, p: nat :| Shape(input, k, p) && Accepted(k, p);
      assert SymbolsAndPads(input, k, p) && GoodCounts(k, p);
    }
    if exists k: nat, p: nat :: SymbolsAndPads(input, k, p) && GoodCounts(k, p) {
      var k: nat, p: nat :| SymbolsAndPads(input, k, p) && GoodCounts(k, p);
      assert Shape(input, k, p) && Accepted(k, p);
    }
  }

  /** The first `k` characters are of the alphabet, and the next one, if there is one, is not. */
  predicate FirstSymbols(input: seq<byte>, k: nat) {
    && k <= |input|
    && (forall i :: 0 <= i < k ==> InAlphabet(input[i]))
    && (k < |input| ==> !InAlphabet(input[k]))
  }

  lemma FirstSymbolsIs(input: seq<byte>, k: nat)
    requires FirstSymbols(input, k)
    ensures Leading(input) == k
  {
    forall i | 0 <= i < |input|
      ensures IsSymbol(input[i]) <==> InAlphabet(input[i])
    {
      IsSymbolExactly(input[i]);
    }
    LeadingFrom(input, k);
  }

  predicate PadAt(input: seq<byte>, k: nat) {
    k < |input| && input[k] as int == '=' as int
  }

  /** Why a text that starts with exactly `k` symbols is refused. */
  lemma {:induction false} RefusedBecause(input: seq<byte>, k: nat)
    requires FirstSymbols(input, k)
    ensures |input| == 1 <==> Decode(input) == Err(TooShort)
    ensures |input| > 1 && k < |input| && !PadAt(input, k)
            <==> Decode(input) == Err(IllegalCharacter(if k < |input| then input[k] else 0))
    ensures |input| > 1 && k % 4 == 1 && (k == |input| || PadAt(input, k)) <==> Decode(input) == Err(NotEnoughBits)
    ensures |input| > 1 && ((k % 4 == 0 && PadAt(input, k)) || (k % 4 == 2 && PadAt(input, k) && !PadAt(input, k + 1)))
            <==> Decode(input) == Err(WrongEnding)
    ensures |input| > k + 2 && k % 4 == 2 && PadAt(input, k) && PadAt(input, k + 1)
            <==> Decode(input) == Err(IncorrectEnding(k + 2))
    ensures |input| > k + 1 && k % 4 == 3 && PadAt(input, k) <==> Decode(input) == Err(IncorrectEnding(k + 1))
  {
    FirstSymbolsIs(input, k);
    forall i | 0 <= i < |input|
      ensures input[i] == PAD <==> input[i] as int == '=' as int
    {
      PadIs(input[i]);
    }
  }
}
