/** `encode_base64` against section 4 of RFC 4648.
    Bytes are the integers 0..255; on them `>> k` is division by 2^k and `& (2^k - 1)` is the
    remainder, which is how the shifts and masks of the encoder are written here. */
module Base64 {
  import opened Common

  type Byte = b: int | 0 <= b < 256
  type Sextet = v: int | 0 <= v < 64

  /** Table 1 of RFC 4648: capitals, small letters, digits, `+` and `/`. */
  function Symbol(v: Sextet): char {
    if v < 26 then 'A' + v as char
    else if v < 52 then 'a' + (v - 26) as char
    else if v < 62 then '0' + (v - 52) as char
    else if v == 62 then '+'
    else '/'
  }

  /** The alphabet, from end to end of its runs. */
  lemma AlphabetIsStandard(v: Sextet)
    ensures Symbol(0) == 'A' && Symbol(25) == 'Z' && Symbol(26) == 'a' && Symbol(51) == 'z'
    ensures Symbol(52) == '0' && Symbol(61) == '9' && Symbol(62) == '+' && Symbol(63) == '/'
    ensures v !in {25, 51, 61, 62, 63} ==> Symbol(v + 1) as int == Symbol(v) as int + 1
  {
  }

  /** Three test vectors of section 10 of RFC 4648. */
  lemma TestVectors()
    ensures Encoded([102]) == "Zg==" && Encoded([102, 111]) == "Zm8="
    ensures Encoded([102, 111, 111]) == "Zm9v"
  {
  }

  /** The value RFC 4648 assigns to an alphabet character; None outside the alphabet. */
  function Value(c: char): Option<Sextet> {
    if 'A' <= c <= 'Z' then Some(c as int - 'A' as int)
    else if 'a' <= c <= 'z' then Some(c as int - 'a' as int + 26)
    else if '0' <= c <= '9' then Some(c as int - '0' as int + 52)
    else if c == '+' then Some(62)
    else if c == '/' then Some(63)
    else None
  }

  lemma ValueOfSymbol(v: Sextet)
    ensures Value(Symbol(v)) == Some(v) && Symbol(v) != '='
  {
  }

  /** The four characters pushed for one chunk of one, two or three bytes. */
  function EncodeChunk(chunk: seq<Byte>): (quad: string)
    requires 1 <= |chunk| <= 3
  {
    var first := chunk[0];
    var second := if |chunk| > 1 then chunk[1] else 0;
    var third := if |chunk| > 2 then chunk[2] else 0;
    [ Symbol(first / 4),
      Symbol((first % 4) * 16 + second / 16),
      if |chunk| > 1 then Symbol((second % 16) * 4 + third / 64) else '=',
      if |chunk| > 2 then Symbol(third % 64) else '=' ]
  }

  /** The whole encoding, chunk by chunk. */
  function Encoded(input: seq<Byte>): string {
    if input == [] then ""
    else if |input| <= 3 then EncodeChunk(input)
    else EncodeChunk(input[..3]) + Encoded(input[3..])
  }

  /** RFC 4648 decoding of one quantum: the sextets are the digits of a 24-bit group, and padding
      says how many of its three octets are real. Discarded bits must be zero. */
  function DecodeQuantum(quad: string): Option<seq<Byte>>
    requires |quad| == 4
  {
    match (Value(quad[0]), Value(quad[1]), Value(quad[2]), Value(quad[3]))
    case (Some(a), Some(b), Some(c), Some(d)) => Some(Octets(a, b, c, d))
    case (Some(a), Some(b), Some(c), None) =>
      var octets := Octets(a, b, c, 0);
      if quad[3] == '=' && octets[2] == 0 then Some(octets[..2]) else None
    case (Some(a), Some(b), None, None) =>
      var octets := Octets(a, b, 0, 0);
      if quad[2] == '=' && quad[3] == '=' && octets[1] == 0 then Some(octets[..1]) else None
    case _ => None
  }

  /** The 24-bit group whose base-64 digits are given, as three octets. */
  function Octets(a: Sextet, b: Sextet, c: Sextet, d: Sextet): (octets: seq<Byte>)
    ensures |octets| == 3
  {
    var group: int := a as int * 262144 + b as int * 4096 + c as int * 64 + d as int;
    [group / 65536, group / 256 % 256, group % 256]
  }

  lemma OctetsOfGroup(a: Sextet, b: Sextet, c: Sextet, d: Sextet, x: Byte, y: Byte, z: Byte)
    requires a as int * 262144 + b as int * 4096 + c as int * 64 + d as int
          == x as int * 65536 + y as int * 256 + z as int
    ensures Octets(a, b, c, d) == [x, y, z]
  {
    DivideBy65536(x, y as int * 256 + z as int);
    DivideBy256(x as int * 256 + y as int, z);
    DivideBy256(x, y);
  }

  lemma DivideBy65536(q: int, r: int)
    requires 0 <= r < 65536
    ensures (q * 65536 + r) / 65536 == q
  {
  }

  lemma DivideBy256(q: int, r: int)
    requires 0 <= r < 256
    ensures (q * 256 + r) / 256 == q && (q * 256 + r) % 256 == r
  {
  }

  /** Cutting three octets into sextets as the encoder does, and joining them, loses nothing. */
  lemma OctetsOfSextets(first: Byte, second: Byte, third: Byte)
    ensures Octets(first / 4, (first % 4) * 16 + second / 16,
                   (second % 16) * 4 + third / 64, third % 64) == [first, second, third]
  {
    var high1, low1 := first / 4, first % 4;
    var high2, low2 := second / 16, second % 16;
    var high3, low3 := third / 64, third % 64;
    assert first == high1 * 4 + low1 && second == high2 * 16 + low2 && third == high3 * 64 + low3;
    OctetsOfGroup(high1, low1 * 16 + high2, low2 * 4 + high3, low3, first, second, third);
  }

  /** Decode a text of whole quanta in which only the last may be padded. */
  function Decode(text: string): Option<seq<Byte>> {
    if text == "" then Some([])
    else if |text| < 4 then None
    else
      match (DecodeQuantum(text[..4]), Decode(text[4..]))
      case (Some(octets), Some(rest)) =>
        if |octets| == 3 || |text| == 4 then Some(octets + rest) else None
      case _ => None
  }

  /** A quantum written with the alphabet, the characters of which only the first `n` octets need. */
  function Written(a: Sextet, b: Sextet, c: Sextet, d: Sextet, n: nat): string {
    [Symbol(a), Symbol(b), if n > 1 then Symbol(c) else '=', if n > 2 then Symbol(d) else '=']
  }

  lemma DecodeWritten(a: Sextet, b: Sextet, c: Sextet, d: Sextet, octets: seq<Byte>, n: nat)
    requires octets == Octets(a, b, c, d) && 1 <= n <= 3
    requires n < 3 ==> d == 0 && octets[2] == 0
    requires n < 2 ==> c == 0 && octets[1] == 0
    ensures DecodeQuantum(Written(a, b, c, d, n)) == Some(octets[..n])
  {
    ValueOfSymbol(a);
    ValueOfSymbol(b);
    ValueOfSymbol(c);
    ValueOfSymbol(d);
    assert Value('=').None? && octets[..3] == octets;
  }

  lemma DecodeChunk(chunk: seq<Byte>)
    requires 1 <= |chunk| <= 3
    ensures DecodeQuantum(EncodeChunk(chunk)) == Some(chunk)
  {
    var first := chunk[0];
    var second := if |chunk| > 1 then chunk[1] else 0;
    var third := if |chunk| > 2 then chunk[2] else 0;
    var a, b := first / 4, (first % 4) * 16 + second / 16;
    var c, d := (second % 16) * 4 + third / 64, third % 64;
    OctetsOfSextets(first, second, third);
    DecodeWritten(a, b, c, d, [first, second, third], |chunk|);
    assert EncodeChunk(chunk) == Written(a, b, c, d, |chunk|);
    assert chunk == [first, second, third][..|chunk|];
  }

  /** A decoder recovers exactly the input, whatever its length. */
  lemma {:induction false} RoundTrip(input: seq<Byte>)
    ensures Decode(Encoded(input)) == Some(input)
  {
    if 0 < |input| <= 3 {
      DecodeChunk(input);
      assert Encoded(input)[..4] == EncodeChunk(input);
      assert Encoded(input)[4..] == "";
      assert input + [] == input;
    } else if |input| > 3 {
      DecodeChunk(input[..3]);
      RoundTrip(input[3..]);
      assert Encoded(input)[..4] == EncodeChunk(input[..3]);
      assert Encoded(input)[4..] == Encoded(input[3..]);
      assert input[..3] + input[3..] == input;
    }
  }

  /** The last `pad` characters of `text`, and no others, are `=`. */
  ghost predicate PaddedBy(text: string, pad: nat) {
    pad <= |text| && forall k :: 0 <= k < |text| ==> (text[k] == '=' <==> k >= |text| - pad)
  }

  /** Four characters per three bytes or part of them, and padding only at the very end: none, one
      or two `=` as three, two or one byte is left for the last quantum. */
  lemma EncodedShape(input: seq<Byte>)
    ensures |Encoded(input)| == (|input| + 2) / 3 * 4
    ensures PaddedBy(Encoded(input), (3 - |input| % 3) % 3)
  {
    EncodedLength(input);
    EncodedPadding(input);
  }

  lemma {:induction false} EncodedLength(input: seq<Byte>)
    ensures |Encoded(input)| == (|input| + 2) / 3 * 4
  {
    if |input| > 3 {
      EncodedLength(input[3..]);
      assert (|input| + 2) / 3 == (|input[3..]| + 2) / 3 + 1;
    }
  }

  /** How many characters pad the encoding of `length` bytes. */
  function Padding(length: nat): nat {
    (3 - length % 3) % 3
  }

  lemma {:induction false} EncodedPadding(input: seq<Byte>)
    ensures PaddedBy(Encoded(input), Padding(|input|))
  {
    if 0 < |input| <= 3 {
      ChunkShape(input);
    } else if |input| > 3 {
      EncodedPadding(input[3..]);
      ChunkShape(input[..3]);
      assert Padding(|input|) == Padding(|input[3..]|);
      JoinShape(EncodeChunk(input[..3]), Encoded(input[3..]), Padding(|input|));
    }
  }

  lemma ChunkShape(chunk: seq<Byte>)
    requires 1 <= |chunk| <= 3
    ensures PaddedBy(EncodeChunk(chunk), 3 - |chunk|)
  {
    var first := chunk[0];
    var second := if |chunk| > 1 then chunk[1] else 0;
    var third := if |chunk| > 2 then chunk[2] else 0;
    ValueOfSymbol(first / 4);
    ValueOfSymbol((first % 4) * 16 + second / 16);
    ValueOfSymbol((second % 16) * 4 + third / 64);
    ValueOfSymbol(third % 64);
  }

  lemma JoinShape(head: string, rest: string, pad: nat)
    requires PaddedBy(head, 0) && PaddedBy(rest, pad)
    ensures PaddedBy(head + rest, pad)
  {
  }

  lemma EncodedStep(input: seq<Byte>, length: nat)
    requires 0 < |input| && length == Min(3, |input|)
    ensures Encoded(input) == EncodeChunk(input[..length]) + Encoded(input[length..])
  {
    if |input| <= 3 {
      assert input[..length] == input && input[length..] == [];
      assert EncodeChunk(input) + "" == EncodeChunk(input);
    }
  }

  /** The body of the encoder's loop: push four characters for one chunk. */
  method PushChunk(encoded: string, chunk: seq<Byte>) returns (extended: string)
    requires 1 <= |chunk| <= 3
    ensures extended == encoded + EncodeChunk(chunk)
  {
    var first := chunk[0];
    var second := if |chunk| > 1 then chunk[1] else 0;
    var third := if |chunk| > 2 then chunk[2] else 0;
    extended := encoded + [Symbol(first / 4)];
    extended := extended + [Symbol((first % 4) * 16 + second / 16)];
    if |chunk| > 1 {
      extended := extended + [Symbol((second % 16) * 4 + third / 64)];
    } else {
      extended := extended + ['='];
    }
    if |chunk| > 2 {
      extended := extended + [Symbol(third % 64)];
    } else {
      extended := extended + ['='];
    }
  }

  /** `encode_base64`: walk the chunks and push four characters for each. */
  method EncodeBase64(input: seq<Byte>) returns (encoded: string)
    ensures encoded == Encoded(input)
    ensures Decode(encoded) == Some(input)
  {
    encoded := "";
    var start := 0;
    while start < |input|
      invariant 0 <= start <= |input|
      invariant encoded + Encoded(input[start..]) == Encoded(input)
    {
      var end := start + Min(3, |input| - start);
      var chunk := input[start..end];
      EncodedStep(input[start..], |chunk|);
      assert chunk == input[start..][..|chunk|] && input[end..] == input[start..][|chunk|..];
      ConcatAssociates(encoded, EncodeChunk(chunk), Encoded(input[end..]));
      encoded := PushChunk(encoded, chunk);
      start := end;
    }
    assert input[|input|..] == [];
    assert encoded + "" == encoded;
    RoundTrip(input);
  }
}
