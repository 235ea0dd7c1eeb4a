/** Base64 (section 4 of RFC 4648): the chunked encoder and the shift-register decoder. */
module Base64 {
  import opened Wrappers
  import opened Chunks

  type byte = bv8
  type sextet = bv6

  datatype Error =
    | TooShort
    | IllegalCharacter(symbol: byte)
    | WrongEnding
    | NotEnoughBits
    | IncorrectEnding(position: nat)

  /** The padding character `=`. */
  const PAD: byte := 61

  /** `A` to `Z`, `a` to `z`, `0` to `9`, `+` and `/`. */
  function Symbol(s: sextet): byte {
    var c := s as byte;
    if c < 26 then 65 + c else if c < 52 then 71 + c else if c < 62 then c - 4 else if c == 62 then 43 else 47
  }

  /** The position of a character in the alphabet. */
  function SextetOf(c: byte): Option<sextet> {
    if 65 <= c <= 90 then Some((c - 65) as sextet)
    else if 97 <= c <= 122 then Some((c - 71) as sextet)
    else if 48 <= c <= 57 then Some((c + 4) as sextet)
    else if c == 43 then Some(62)
    else if c == 47 then Some(63)
    else None
  }

  predicate IsSymbol(c: byte) {
    SextetOf(c).Some?
  }

  lemma AlphabetInverse(s: sextet)
    ensures SextetOf(Symbol(s)) == Some(s)
  {
  }

  lemma SymbolInverse(c: byte)
    requires IsSymbol(c)
    ensures Symbol(SextetOf(c).value) == c && c != PAD
  {
  }

  // ----- Bytes as sextets and back

  function Sextet0(x: byte): sextet { (x >> 2) as sextet }
  function Sextet1(x: byte, y: byte): sextet { (((x & 3) << 4) | (y >> 4)) as sextet }
  function Sextet2(y: byte, z: byte): sextet { (((y & 15) << 2) | (z >> 6)) as sextet }
  function Sextet3(z: byte): sextet { (z & 63) as sextet }

  function Byte0(a: sextet, b: sextet): byte { ((a as byte) << 2) | ((b as byte) >> 4) }
  function Byte1(b: sextet, c: sextet): byte { ((b as byte) << 4) | ((c as byte) >> 2) }
  function Byte2(c: sextet, d: sextet): byte { ((c as byte) << 6) | (d as byte) }

  lemma PackedGroup(x: byte, y: byte, z: byte)
    ensures Byte0(Sextet0(x), Sextet1(x, y)) == x
    ensures Byte1(Sextet1(x, y), Sextet2(y, z)) == y
    ensures Byte2(Sextet2(y, z), Sextet3(z)) == z
  {
  }

  lemma UnpackedGroup(a: sextet, b: sextet, c: sextet, d: sextet)
    ensures Sextet0(Byte0(a, b)) == a
    ensures Sextet1(Byte0(a, b), Byte1(b, c)) == b
    ensures Sextet1(Byte0(a, b), 0) == b & 48
    ensures Sextet2(Byte1(b, c), Byte2(c, d)) == c
    ensures Sextet2(Byte1(b, c), 0) == c & 60
    ensures Sextet3(Byte2(c, d)) == d
  {
  }

  /** The sextets of up to three bytes, the last one filled up with zero bits. */
  function PackGroup(b: seq<byte>): seq<sextet> {
    if b == [] then []
    else if |b| == 1 then [Sextet0(b[0]), Sextet1(b[0], 0)]
    else if |b| == 2 then [Sextet0(b[0]), Sextet1(b[0], b[1]), Sextet2(b[1], 0)]
    else [Sextet0(b[0]), Sextet1(b[0], b[1]), Sextet2(b[1], b[2]), Sextet3(b[2])]
  }

  /** The whole bytes of up to four sextets. */
  function UnpackGroup(s: seq<sextet>): seq<byte> {
    if |s| < 2 then []
    else if |s| == 2 then [Byte0(s[0], s[1])]
    else if |s| == 3 then [Byte0(s[0], s[1]), Byte1(s[1], s[2])]
    else [Byte0(s[0], s[1]), Byte1(s[1], s[2]), Byte2(s[2], s[3])]
  }

  /** Up to four sextets with the bits cleared that belong to no whole byte. */
  function ClearGroup(s: seq<sextet>): seq<sextet> {
    if |s| == 2 then [s[0], s[1] & 48]
    else if |s| == 3 then [s[0], s[1], s[2] & 60]
    else s
  }

  function Pack(b: seq<byte>): seq<sextet> {
    Chunked(b, 3, PackGroup)
  }

  function Unpack(s: seq<sextet>): seq<byte> {
    Chunked(s, 4, UnpackGroup)
  }

  function Cleared(s: seq<sextet>): seq<sextet> {
    Chunked(s, 4, ClearGroup)
  }

  lemma PackedChunkInverse(b: seq<byte>)
    requires 0 < |b| <= 3
    ensures UnpackGroup(PackGroup(b)) == b && |PackGroup(b)| == |b| + 1
  {
    PackedGroup(b[0], if |b| > 1 then b[1] else 0, if |b| > 2 then b[2] else 0);
  }

  lemma UnpackedChunkInverse(s: seq<sextet>)
    requires 2 <= |s| <= 4
    ensures PackGroup(UnpackGroup(s)) == ClearGroup(s) && |UnpackGroup(s)| == |s| - 1
  {
    UnpackedGroup(s[0], s[1], if |s| > 2 then s[2] else 0, if |s| > 3 then s[3] else 0);
  }

  /** Every byte sequence comes back from its sextets. */
  lemma {:induction false} UnpackPack(b: seq<byte>)
    ensures Unpack(Pack(b)) == b
  {
    forall c: seq<byte> | 0 < |c| <= 3
      ensures UnpackGroup(PackGroup(c)) == c && |PackGroup(c)| == |c| + 1
    {
      PackedChunkInverse(c);
    }
    var id := (c: seq<byte>) => c;
    ChunkedCompose(b, 3, PackGroup, 4, UnpackGroup, id);
    ChunkedIdentity(b, 3, id);
  }

  /** Sextets come back from their bytes up to the bits that no byte holds. */
  lemma {:induction false} PackUnpack(s: seq<sextet>)
    requires |s| % 4 != 1
    ensures Pack(Unpack(s)) == Cleared(s)
  {
    forall c: seq<sextet> | 2 <= |c| <= 4
      ensures PackGroup(UnpackGroup(c)) == ClearGroup(c) && |UnpackGroup(c)| == |c| - 1
    {
      UnpackedChunkInverse(c);
    }
    ChunkedCompose(s, 4, UnpackGroup, 3, PackGroup, ClearGroup);
  }

  lemma {:induction false} PackLength(b: seq<byte>)
    ensures |Pack(b)| == |b| / 3 * 4 + if |b| % 3 == 0 then 0 else |b| % 3 + 1
  {
    if |b| > 3 {
      PackLength(b[3..]);
    }
  }

  lemma {:induction false} UnpackLength(s: seq<sextet>)
    ensures |Unpack(s)| == |s| / 4 * 3 + if |s| % 4 == 0 then 0 else |s| % 4 - 1
  {
    if |s| > 4 {
      UnpackLength(s[4..]);
    }
  }

  // ----- Sextets as text

  function Text(s: seq<sextet>): (t: seq<byte>)
    ensures |t| == |s| && forall i :: 0 <= i < |s| ==> t[i] == Symbol(s[i])
  {
    seq(|s|, i requires 0 <= i < |s| => Symbol(s[i]))
  }

  predicate AllSymbols(t: seq<byte>) {
    forall i :: 0 <= i < |t| ==> IsSymbol(t[i])
  }

  function Sextets(t: seq<byte>): (s: seq<sextet>)
    requires AllSymbols(t)
    ensures |s| == |t| && forall i :: 0 <= i < |t| ==> s[i] == SextetOf(t[i]).value
  {
    seq(|t|, i requires 0 <= i < |t| => SextetOf(t[i]).value)
  }

  lemma TextInverse(s: seq<sextet>)
    ensures AllSymbols(Text(s)) && Sextets(Text(s)) == s
  {
    forall i | 0 <= i < |s|
      ensures SextetOf(Text(s)[i]) == Some(s[i])
    {
      AlphabetInverse(s[i]);
    }
  }

  lemma SextetsInverse(t: seq<byte>)
    requires AllSymbols(t)
    ensures Text(Sextets(t)) == t
  {
    forall i | 0 <= i < |t|
      ensures Symbol(Sextets(t)[i]) == t[i]
    {
      SymbolInverse(t[i]);
    }
  }

  function Pads(n: nat): seq<byte> {
    seq(n, _ => PAD)
  }

  // ----- The encoder

  /** `x << shift`, for the shifts of the code. */
  function ShiftLeft(x: bv32, shift: int): bv32 {
    if shift == 0 then x else if shift == 6 then x << 6 else if shift == 8 then x << 8
    else if shift == 12 then x << 12 else if shift == 16 then x << 16 else x << 18
  }

  function ShiftRight(x: bv32, shift: int): bv32 {
    if shift == 0 then x else if shift == 6 then x >> 6 else if shift == 12 then x >> 12 else x >> 18
  }

  function Default(chunk: seq<byte>, i: nat): byte {
    if i < |chunk| then chunk[i] else 0
  }

  /** Up to three bytes in the high end of 24 bits. */
  function Bits(chunk: seq<byte>): bv32 {
    Group(Default(chunk, 0), Default(chunk, 1), Default(chunk, 2))
  }

  function Group(x: byte, y: byte, z: byte): bv32 {
    ((x as bv32) << 16) | ((y as bv32) << 8) | (z as bv32)
  }

  lemma SextetsOfGroup(x: byte, y: byte, z: byte)
    ensures SextetAt(Group(x, y, z), 0) == Sextet0(x)
    ensures SextetAt(Group(x, y, z), 1) == Sextet1(x, y)
    ensures SextetAt(Group(x, y, z), 2) == Sextet2(y, z)
    ensures SextetAt(Group(x, y, z), 3) == Sextet3(z)
  {
  }

  method FoldBits(chunk: seq<byte>) returns (bits: bv32)
    requires |chunk| <= 3
    ensures bits == Bits(chunk)
  {
    bits := 0;
    for index := 0 to |chunk|
      invariant bits == Bits(chunk[..index])
    {
      BitsNext(chunk, index);
      bits := bits | ShiftLeft(chunk[index] as bv32, 16 - 8 * index);
    }
    assert chunk[..|chunk|] == chunk;
  }

  lemma BitsNext(chunk: seq<byte>, index: nat)
    requires index < |chunk| <= 3
    ensures Bits(chunk[..index + 1]) == Bits(chunk[..index]) | ShiftLeft(chunk[index] as bv32, 16 - 8 * index)
  {
    if index == 0 {
    } else if index == 1 {
    } else {
    }
  }

  function SextetAt(bits: bv32, index: int): sextet {
    (ShiftRight(bits, 18 - 6 * index) & 0x3f) as sextet
  }

  /** The four characters of one chunk. */
  method EncodeChunk(chunk: seq<byte>) returns (out: seq<byte>)
    requires 1 <= |chunk| <= 3
    ensures out == Text(Pack(chunk)) + Pads(3 - |chunk|)
  {
    var bits := FoldBits(chunk);
    ghost var packed := PackedChunk(chunk);
    out := WriteSymbols(bits, |chunk|, packed);
  }

  /** The inner loop of the encoder: a symbol for each sextet of `bits`, then padding. */
  method WriteSymbols(bits: bv32, length: nat, ghost packed: seq<sextet>) returns (out: seq<byte>)
    requires length <= 3 && |packed| == length + 1
    requires forall i :: 0 <= i <= length ==> SextetAt(bits, i) == packed[i]
    ensures out == Text(packed) + Pads(3 - length)
  {
    out := [];
    for index := 0 to 4
      invariant |out| == index
      invariant forall i :: 0 <= i < index ==> out[i] == if i < |packed| then Symbol(packed[i]) else PAD
    {
      if index <= length {
        out := out + [Symbol(SextetAt(bits, index))];
      } else {
        out := out + [PAD];
      }
    }
    SymbolsThenPads(out, packed);
  }

  lemma SymbolsThenPads(out: seq<byte>, packed: seq<sextet>)
    requires |out| == 4 && |packed| <= 4
    requires forall i :: 0 <= i < 4 ==> out[i] == if i < |packed| then Symbol(packed[i]) else PAD
    ensures out == Text(packed) + Pads(4 - |packed|)
  {
  }

  lemma PackedChunk(chunk: seq<byte>) returns (packed: seq<sextet>)
    requires 1 <= |chunk| <= 3
    ensures packed == Pack(chunk) && |packed| == |chunk| + 1
    ensures forall i :: 0 <= i <= |chunk| ==> SextetAt(Bits(chunk), i) == packed[i]
  {
    packed := PackGroup(chunk);
    forall i | 0 <= i <= |chunk|
      ensures SextetAt(Bits(chunk), i) == packed[i]
    {
      SextetOfChunk(chunk, i);
    }
  }

  lemma SextetOfChunk(chunk: seq<byte>, i: nat)
    requires 1 <= |chunk| <= 3 && i <= |chunk|
    ensures SextetAt(Bits(chunk), i) == PackGroup(chunk)[i]
  {
    SextetsOfGroup(Default(chunk, 0), Default(chunk, 1), Default(chunk, 2));
  }

  /** The padding that completes `n` bytes to a chunk of three. */
  function Missing(n: nat): nat {
    (3 - n % 3) % 3
  }

  /** `encode_base64` as a function: the symbols of the sextets, padded to a multiple of four. */
  function Encode(bytes: seq<byte>): seq<byte> {
    Text(Pack(bytes)) + Pads(Missing(|bytes|))
  }

  lemma TextConcat(s: seq<sextet>, t: seq<sextet>)
    ensures Text(s + t) == Text(s) + Text(t)
  {
  }

  lemma EncodeConcat(b: seq<byte>, chunk: seq<byte>)
    requires |b| % 3 == 0 && 1 <= |chunk| <= 3
    ensures Encode(b) + (Text(Pack(chunk)) + Pads(3 - |chunk|)) == Encode(b + chunk)
  {
    ChunkedConcat(b, chunk, 3, PackGroup);
    TextConcat(Pack(b), Pack(chunk));
    JoinPadded(Text(Pack(b)), Pads(Missing(|b|)), Text(Pack(chunk)), Pads(3 - |chunk|));
    assert Missing(|b + chunk|) == 3 - |chunk|;
  }

  lemma JoinPadded(a: seq<byte>, none: seq<byte>, b: seq<byte>, c: seq<byte>)
    requires none == []
    ensures (a + none) + (b + c) == (a + b) + c
  {
  }

  /** `encode_base64`. */
  method EncodeBase64(bytes: seq<byte>) returns (out: seq<byte>)
    ensures out == Encode(bytes)
  {
    out := [];
    var at := 0;
    while at < |bytes|
      invariant 0 <= at <= |bytes| && (at % 3 == 0 || at == |bytes|)
      invariant out == Encode(bytes[..at])
    {
      var end := if at + 3 <= |bytes| then at + 3 else |bytes|;
      var chunk := EncodeChunk(bytes[at..end]);
      assert bytes[..at] + bytes[at..end] == bytes[..end];
      EncodeConcat(bytes[..at], bytes[at..end]);
      out := out + chunk;
      at := end;
    }
    assert bytes[..|bytes|] == bytes;
  }

  // ----- The decoder

  /** How many alphabet characters the text starts with. */
  function Leading(t: seq<byte>): (k: nat)
    ensures k <= |t| && AllSymbols(t[..k])
    ensures k < |t| ==> !IsSymbol(t[k])
  {
    if t == [] || !IsSymbol(t[0]) then 0 else
      var rest := Leading(t[1..]);
      assert t[..rest + 1] == [t[0]] + t[1..][..rest];
      1 + rest
  }

  lemma LeadingFrom(t: seq<byte>, k: nat)
    requires k <= |t| && AllSymbols(t[..k]) && (k == |t| || !IsSymbol(t[k]))
    ensures k == Leading(t)
  {
    var m := Leading(t);
    assert forall i :: 0 <= i < k ==> t[..k][i] == t[i];
    assert forall i :: 0 <= i < m ==> t[..m][i] == t[i];
  }

  /** What each text decodes to, by its leading symbols and what follows them. */
  function Decode(input: seq<byte>): Result<seq<byte>, Error> {
    var k := Leading(input);
    var decoded := Ok(Unpack(Sextets(input[..k])));
    if input == [] then Ok([])
    else if |input| == 1 then Err(TooShort)
    else if k == |input| then (if k % 4 == 1 then Err(NotEnoughBits) else decoded)
    else if input[k] != PAD then Err(IllegalCharacter(input[k]))
    else if k % 4 == 0 then Err(WrongEnding)
    else if k % 4 == 1 then Err(NotEnoughBits)
    else if k % 4 == 2 then
      if k + 1 < |input| && input[k + 1] == PAD then
        if k + 2 < |input| then Err(IncorrectEnding(k + 2)) else decoded
      else Err(WrongEnding)
    else if k + 1 < |input| then Err(IncorrectEnding(k + 1)) else decoded
  }

  /** The sextets read since the last whole group, as the shift register holds them. */
  function Register(s: seq<sextet>): bv32
    requires |s| < 4
  {
    (if |s| > 0 then (s[0] as bv32) << 18 else 0)
    | (if |s| > 1 then (s[1] as bv32) << 12 else 0)
    | (if |s| > 2 then (s[2] as bv32) << 6 else 0)
  }

  /** Bytes 1 to 3 of a big-endian 32-bit word. */
  function BeBytes(bits: bv32): (bytes: seq<byte>)
    ensures |bytes| == 3
  {
    [((bits >> 16) & 0xff) as byte, ((bits >> 8) & 0xff) as byte, (bits & 0xff) as byte]
  }

  lemma GroupBytes(a: sextet, b: sextet, c: sextet, d: sextet)
    ensures BeBytes(((a as bv32) << 18) | ((b as bv32) << 12) | ((c as bv32) << 6) | (d as bv32))
            == [Byte0(a, b), Byte1(b, c), Byte2(c, d)]
  {
  }

  lemma RegisterNext(s: seq<sextet>, last: sextet)
    requires |s| < 3
    ensures Register(s + [last]) == Register(s) | ShiftLeft(last as bv32, 18 - 6 * |s|)
  {
  }

  lemma RegisterFull(s: seq<sextet>, last: sextet)
    requires |s| == 3
    ensures BeBytes(Register(s) | (last as bv32)) == Unpack(s + [last])
  {
    GroupBytes(s[0], s[1], s[2], last);
  }

  lemma RegisterTail(s: seq<sextet>)
    requires |s| == 2 || |s| == 3
    ensures BeBytes(Register(s))[..|s| - 1] == Unpack(s)
  {
    GroupBytes(s[0], s[1], if |s| == 3 then s[2] else 0, 0);
  }

  /** The bytes of the whole groups among the first `k` characters. */
  function Whole(input: seq<byte>, k: nat): seq<byte>
    requires k <= |input| && AllSymbols(input[..k])
  {
    Unpack(Body(Sextets(input[..k]), 4))
  }

  /** The sextets of the unfinished group at `k`. */
  function Held(input: seq<byte>, k: nat): (s: seq<sextet>)
    requires k <= |input| && AllSymbols(input[..k])
    ensures |s| == k % 4
  {
    Tail(Sextets(input[..k]), 4)
  }

  lemma SextetsNext(input: seq<byte>, k: nat, last: sextet)
    requires k < |input| && AllSymbols(input[..k]) && AllSymbols(input[..k + 1])
    requires SextetOf(input[k]) == Some(last)
    ensures Sextets(input[..k + 1]) == Sextets(input[..k]) + [last]
  {
  }

  lemma HeldNext(input: seq<byte>, k: nat, last: sextet)
    requires k < |input| && AllSymbols(input[..k]) && AllSymbols(input[..k + 1])
    requires SextetOf(input[k]) == Some(last)
    ensures k % 4 < 3 ==> Held(input, k + 1) == Held(input, k) + [last] && Whole(input, k + 1) == Whole(input, k)
    ensures k % 4 == 3 ==>
              Held(input, k + 1) == [] && Whole(input, k + 1) == Whole(input, k) + Unpack(Held(input, k) + [last])
  {
    var s := Sextets(input[..k]);
    SextetsNext(input, k, last);
    TailNext(s, last, 4);
    UnpackMore(s, Tail(s, 4) + [last]);
  }

  lemma UnpackMore(s: seq<sextet>, rest: seq<sextet>)
    ensures Unpack(Body(s, 4) + rest) == Unpack(Body(s, 4)) + Unpack(rest)
  {
    BodyFits(|s|, 4);
    ChunkedConcat(Body(s, 4), rest, 4, UnpackGroup);
  }

  /** One more symbol into the register, and out with it when it is full. */
  method Shift(out: seq<byte>, bits: bv32, shift: int, sextet: sextet, ghost held: seq<sextet>)
    returns (out': seq<byte>, bits': bv32, shift': int)
    requires |held| < 4 && bits == Register(held) && shift == 18 - 6 * |held|
    ensures |held| < 3 ==> out' == out && bits' == Register(held + [sextet]) && shift' == shift - 6
    ensures |held| == 3 ==> out' == out + Unpack(held + [sextet]) && bits' == Register([]) && shift' == 18
  {
    if shift > 0 {
      RegisterNext(held, sextet);
    } else {
      RegisterFull(held, sextet);
    }
    out', bits', shift' := out, bits | ShiftLeft(sextet as bv32, shift), shift - 6;
    if shift' < 0 {
      out' := out' + BeBytes(bits');
      bits' := 0;
      shift' := 18;
    }
  }

  lemma MoreSymbols(input: seq<byte>, k: nat)
    requires k < |input| && AllSymbols(input[..k]) && IsSymbol(input[k])
    ensures AllSymbols(input[..k + 1])
  {
    assert input[..k + 1] == input[..k] + [input[k]];
  }

  /** The loop over alphabet characters: whole groups go out, the rest stays in the register. */
  method ReadSymbols(input: seq<byte>) returns (out: seq<byte>, bits: bv32, shift: int, position: nat)
    ensures position == Leading(input)
    ensures shift == 18 - 6 * (position % 4)
    ensures out == Whole(input, position) && bits == Register(Held(input, position))
  {
    out, bits, shift, position := [], 0, 18, 0;
    while position < |input| && IsSymbol(input[position])
      invariant position <= |input| && AllSymbols(input[..position])
      invariant shift == 18 - 6 * (position % 4)
      invariant out == Whole(input, position) && bits == Register(Held(input, position))
      decreases |input| - position
    {
      var sextet := SextetOf(input[position]).value;
      MoreSymbols(input, position);
      HeldNext(input, position, sextet);
      out, bits, shift := Shift(out, bits, shift, sextet, Held(input, position));
      position := position + 1;
    }
    LeadingFrom(input, position);
  }

  /** The bytes of an unfinished group of two or three sextets. */
  method Flush(out: seq<byte>, bits: bv32, shift: int, ghost held: seq<sextet>) returns (flushed: seq<byte>)
    requires |held| == 0 || |held| == 2 || |held| == 3
    requires bits == Register(held) && shift == 18 - 6 * |held|
    ensures flushed == out + Unpack(held)
  {
    flushed := out;
    if shift == 6 {
      RegisterTail(held);
      flushed := out + BeBytes(bits)[..1];
    } else if shift == 0 {
      RegisterTail(held);
      flushed := out + BeBytes(bits)[..2];
    } else {
      assert out + [] == out;
    }
  }

  /** `decode_base64`. */
  method DecodeBase64(input: seq<byte>) returns (r: Result<seq<byte>, Error>)
    ensures r == Decode(input)
  {
    if input == [] {
      return Ok([]);
    }
    if |input| < 2 {
      return Err(TooShort);
    }
    var out, bits, shift, position := ReadSymbols(input);
    ghost var k := position;
    if position < |input| {
      if input[position] != PAD {
        return Err(IllegalCharacter(input[position]));
      }
      position := position + 1;
      var complete := true;
      if shift == 6 {
        complete := position < |input| && input[position] == PAD;
        position := position + 1;
      } else if shift == 18 {
        complete := false;
      }
      if !complete {
        return Err(WrongEnding);
      }
    }
    if shift == 12 {
      return Err(NotEnoughBits);
    }
    out := Flush(out, bits, shift, Held(input, k));
    WholeAndHeld(input, k);
    if position < |input| {
      return Err(IncorrectEnding(position));
    }
    return Ok(out);
  }

  lemma WholeAndHeld(input: seq<byte>, k: nat)
    requires k <= |input| && AllSymbols(input[..k])
    ensures Unpack(Sextets(input[..k])) == Whole(input, k) + Unpack(Held(input, k))
  {
    var s := Sextets(input[..k]);
    UnpackMore(s, Tail(s, 4));
    assert s == Body(s, 4) + Tail(s, 4);
  }

  // ----- Round trips

  /** The counts of symbols and of padding that make a text acceptable. */
  predicate Accepted(k: nat, p: nat) {
    (k % 4 == 0 && p == 0) || (k % 4 == 2 && (p == 0 || p == 2)) || (k % 4 == 3 && (p == 0 || p == 1))
  }

  /** `text` is `k` symbols followed by `p` padding characters. */
  predicate Shape(text: seq<byte>, k: nat, p: nat) {
    |text| == k + p && AllSymbols(text[..k]) && text[k..] == Pads(p)
  }

  lemma ShapeLeading(text: seq<byte>, k: nat, p: nat)
    requires Shape(text, k, p)
    ensures k == Leading(text)
  {
    assert p > 0 ==> text[k] == text[k..][0] == PAD;
    LeadingFrom(text, k);
  }

  lemma DecodeShape(text: seq<byte>, k: nat, p: nat)
    requires Shape(text, k, p) && Accepted(k, p)
    ensures k == Leading(text) && Decode(text) == Ok(Unpack(Sextets(text[..k])))
  {
    ShapeLeading(text, k, p);
    assert p > 0 ==> text[k] == text[k..][0] == PAD;
    assert p > 1 ==> text[k + 1] == text[k..][1] == PAD;
  }

  lemma DecodeText(s: seq<sextet>, p: nat)
    requires Accepted(|s|, p)
    ensures Decode(Text(s) + Pads(p)) == Ok(Unpack(s))
  {
    var t := Text(s) + Pads(p);
    TextInverse(s);
    assert t[..|s|] == Text(s) && t[|s|..] == Pads(p);
    DecodeShape(t, |s|, p);
  }

  lemma PackAccepted(bytes: seq<byte>)
    ensures Accepted(|Pack(bytes)|, Missing(|bytes|)) && Accepted(|Pack(bytes)|, 0)
  {
    PackLength(bytes);
    PackedShape(|bytes| / 3, |bytes| % 3);
  }

  lemma PackedShape(q: nat, r: nat)
    requires r < 3
    ensures Accepted(q * 4 + if r == 0 then 0 else r + 1, (3 - r) % 3)
    ensures Accepted(q * 4 + if r == 0 then 0 else r + 1, 0)
  {
    assert (q * 4 + 2) % 4 == 2 && (q * 4 + 3) % 4 == 3 && q * 4 % 4 == 0;
  }

  /** Decoding an encoding gives back the bytes, and so does decoding it without its padding. */
  lemma {:induction false} DecodeEncode(bytes: seq<byte>)
    ensures Decode(Encode(bytes)) == Ok(bytes)
    ensures Decode(Text(Pack(bytes))) == Ok(bytes)
  {
    UnpackPack(bytes);
    PackAccepted(bytes);
    DecodeText(Pack(bytes), Missing(|bytes|));
    DecodeText(Pack(bytes), 0);
    assert Text(Pack(bytes)) + Pads(0) == Text(Pack(bytes));
  }

  /** The decoder accepts exactly these texts. */
  lemma {:induction false} AcceptsExactly(input: seq<byte>)
    ensures Decode(input).Ok? <==> exists k: nat, p: nat :: Shape(input, k, p) && Accepted(k, p)
  {
    var m := Leading(input);
    if Decode(input).Ok? {
      assert input[m..] == Pads(|input| - m);
      assert Shape(input, m, |input| - m) && Accepted(m, |input| - m);
    }
    forall k: nat, p: nat | Shape(input, k, p) && Accepted(k, p)
      ensures Decode(input).Ok?
    {
      DecodeShape(input, k, p);
    }
  }

  /** Only the last sextet of an unfinished group loses bits: its four or its two lowest. */
  function LastCleared(s: seq<sextet>): seq<sextet> {
    if |s| % 4 == 2 then s[..|s| - 1] + [s[|s| - 1] & 48]
    else if |s| % 4 == 3 then s[..|s| - 1] + [s[|s| - 1] & 60]
    else s
  }

  lemma {:induction false} ClearedIsLast(s: seq<sextet>)
    requires |s| % 4 != 1
    ensures Cleared(s) == LastCleared(s)
  {
    forall c: seq<sextet> | |c| == 4
      ensures ClearGroup(c) == c
    {
    }
    ChunkedLast(s, 4, ClearGroup);
    LastGroup(Body(s, 4), Tail(s, 4));
    assert s == Body(s, 4) + Tail(s, 4);
    BodyFits(|s|, 4);
  }

  lemma LastGroup(body: seq<sextet>, tail: seq<sextet>)
    requires |body| % 4 == 0 && (|tail| == 0 || |tail| == 2 || |tail| == 3)
    ensures LastCleared(body + tail) == body + if tail == [] then [] else ClearGroup(tail)
  {
    var s := body + tail;
    assert |s| % 4 == |tail|;
    if tail != [] {
      assert s[..|s| - 1] == body + tail[..|tail| - 1] && s[|s| - 1] == tail[|tail| - 1];
    }
  }

  lemma LowBits(x: sextet)
    ensures x & 48 == x <==> x & 15 == 0
    ensures x & 60 == x <==> x & 3 == 0
  {
  }

  /** The low bits that the bytes of a text do not reach are zero in its last symbol. */
  predicate UnusedBitsClear(s: seq<sextet>) {
    && (|s| % 4 == 2 ==> s[|s| - 1] & 15 == 0)
    && (|s| % 4 == 3 ==> s[|s| - 1] & 3 == 0)
  }

  lemma ClearedExactly(s: seq<sextet>)
    requires |s| % 4 != 1
    ensures Cleared(s) == s <==> UnusedBitsClear(s)
  {
    ClearedIsLast(s);
    if s != [] {
      LowBits(s[|s| - 1]);
      assert s == s[..|s| - 1] + [s[|s| - 1]];
      assert |LastCleared(s)| == |s|;
      assert LastCleared(s) == s ==> LastCleared(s)[|s| - 1] == s[|s| - 1];
    }
  }

  lemma TextInjective(s: seq<sextet>, t: seq<sextet>)
    ensures Text(s) == Text(t) <==> s == t
  {
    TextInverse(s);
    TextInverse(t);
  }

  /** Encoding what an accepted text decodes to gives the text itself, padded, exactly when its unused bits are zero. */
  lemma {:induction false} ReencodesExactly(input: seq<byte>, k: nat, p: nat)
    requires Shape(input, k, p) && Accepted(k, p)
    ensures Decode(input).Ok?
    ensures Encode(Decode(input).value) == input[..k] + Pads((4 - k % 4) % 4) <==> UnusedBitsClear(Sextets(input[..k]))
  {
    var s, pads := Sextets(input[..k]), Pads((4 - k % 4) % 4);
    EncodeDecode(input, k, p);
    SextetsInverse(input[..k]);
    ClearedExactly(s);
    TextInjective(Cleared(s), s);
    SameBefore(Text(Cleared(s)), Text(s), pads);
  }

  lemma SameBefore(a: seq<byte>, b: seq<byte>, tail: seq<byte>)
    ensures a + tail == b + tail <==> a == b
  {
    if a + tail == b + tail {
      assert |a| == |a + tail| - |tail| == |b|;
      assert a == (a + tail)[..|a|] == (b + tail)[..|b|] == b;
    }
  }

  lemma MissingOfUnpack(s: seq<sextet>)
    requires |s| % 4 != 1
    ensures Missing(|Unpack(s)|) == (4 - |s| % 4) % 4
  {
    UnpackLength(s);
    MissingOf(|s| / 4, |s| % 4);
  }

  lemma MissingOf(q: nat, r: nat)
    requires r == 0 || r == 2 || r == 3
    ensures Missing(q * 3 + if r == 0 then 0 else r - 1) == (4 - r) % 4
  {
    assert q * 3 % 3 == 0 && (q * 3 + 1) % 3 == 1 && (q * 3 + 2) % 3 == 2;
  }

  /** Encoding what an accepted text decodes to gives its padded form, with the unused bits cleared. */
  lemma {:induction false} EncodeDecode(input: seq<byte>, k: nat, p: nat)
    requires Shape(input, k, p) && Accepted(k, p)
    ensures Decode(input).Ok?
    ensures Encode(Decode(input).value) == Text(Cleared(Sextets(input[..k]))) + Pads((4 - k % 4) % 4)
  {
    DecodeShape(input, k, p);
    EncodeUnpacked(Sextets(input[..k]));
  }

  lemma EncodeUnpacked(s: seq<sextet>)
    requires |s| % 4 != 1
    ensures Encode(Unpack(s)) == Text(Cleared(s)) + Pads((4 - |s| % 4) % 4)
  {
    PackUnpack(s);
    MissingOfUnpack(s);
  }
}
