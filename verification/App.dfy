/** The GitHub app's token (crates/github/src/app.rs): base64url without padding,
    the decoder that undoes it, and the three-part shape of a JWT. */
module App {
  import opened Protocol

  type Byte = b: int | 0 <= b < 256
  type Bytes = seq<Byte>

  // `n` characters from `first` on.
  function Run(first: char, n: nat): (s: string)
    requires first as int + n < 256
    ensures |s| == n && forall i | 0 <= i < n :: s[i] as int == first as int + i
  {
    if n == 0 then [] else Run(first, n - 1) + [first + (n - 1) as char]
  }

  const ALPHABET: string := Run('A', 26) + Run('a', 26) + Run('0', 10) + "-_"

  lemma LetterAt(v: nat)
    requires v < 64
    ensures |ALPHABET| == 64
    ensures ALPHABET[v] as int ==
              if v < 26 then 65 + v else if v < 52 then 71 + v else if v < 62 then v - 4 else if v == 62 then 45 else 95
  {
  }

  lemma AlphabetIsDistinct()
    ensures |ALPHABET| == 64 && forall i, j | 0 <= i < j < 64 :: ALPHABET[i] != ALPHABET[j]
    ensures '.' !in ALPHABET
  {
    LetterAt(0);
    hide ALPHABET;
    forall v: nat | v < 64 ensures ALPHABET[v] != '.' { LetterAt(v); }
    forall i, j | 0 <= i < j < 64 ensures ALPHABET[i] != ALPHABET[j] { LetterAt(i); LetterAt(j); }
  }

  // The first place in `s`, from `i` on, that holds `c`.
  function Position(s: string, c: char, i: nat): (v: Option<nat>)
    requires i <= |s|
    ensures v.Some? ==> i <= v.value < |s| && s[v.value] == c
    ensures v.None? <==> c !in s[i..]
    decreases |s| - i
  {
    if i == |s| then None
    else if s[i] == c then Some(i)
    else Position(s, c, i + 1)
  }

  function ValueOf(c: char): Option<nat> { Position(ALPHABET, c, 0) }

  lemma LetterValue(v: nat)
    requires v < 64
    ensures |ALPHABET| == 64 && ValueOf(ALPHABET[v]) == Some(v)
  {
    AlphabetIsDistinct();
    assert ALPHABET[v] in ALPHABET[0..];
  }

  // ---- Bits ----------------------------------------------------------------------

  function Pow2(k: nat): (p: nat)
    ensures p > 0
  {
    if k == 0 then 1 else 2 * Pow2(k - 1)
  }

  /** The `k` low bits of `v`, highest first. */
  function Bits(v: nat, k: nat): (b: seq<bool>)
    ensures |b| == k
  {
    if k == 0 then [] else Bits(v / 2, k - 1) + [v % 2 == 1]
  }

  /** High and low digits of a number keep their bits side by side. */
  lemma {:induction false} BitsAppend(high: nat, j: nat, low: nat, k: nat)
    requires low < Pow2(k)
    ensures Bits(high * Pow2(k) + low, j + k) == Bits(high, j) + Bits(low, k)
  {
    if k == 0 {
      assert Bits(low, 0) == [];
    } else {
      var all, half := high * Pow2(k) + low, high * Pow2(k - 1) + low / 2;
      BitsAppend(high, j, low / 2, k - 1);
      hide Pow2;
      assert all == 2 * half + low % 2;
      assert Bits(all, j + k) == Bits(half, j + k - 1) + [low % 2 == 1];
    }
  }

  function Zeros(k: nat): (b: seq<bool>)
    ensures |b| == k
  {
    seq(k, _ => false)
  }

  lemma {:induction false} ZeroBits(k: nat)
    ensures Bits(0, k) == Zeros(k)
  {
    if k > 0 {
      ZeroBits(k - 1);
      assert Zeros(k) == Zeros(k - 1) + [false];
    }
  }

  function BytesToBits(bytes: Bytes): seq<bool> {
    if bytes == [] then [] else Bits(bytes[0], 8) + BytesToBits(bytes[1..])
  }

  predicate IsBase64(text: string) { forall c | c in text :: ValueOf(c).Some? }

  /** Six bits for each character. */
  function TextToBits(text: string): seq<bool>
    requires IsBase64(text)
  {
    if text == [] then [] else Bits(ValueOf(text[0]).value, 6) + TextToBits(text[1..])
  }

  // ---- Encoding ------------------------------------------------------------------

  // One to three bytes, as the 24-bit number they start.
  function Word(chunk: Bytes): (n: nat)
    requires 1 <= |chunk| <= 3
    ensures n < 0x100_0000
  {
    var b0: nat := chunk[0];
    var b1: nat := if |chunk| > 1 then chunk[1] else 0;
    var b2: nat := if |chunk| > 2 then chunk[2] else 0;
    0x1_0000 * b0 + 0x100 * b1 + b2
  }

  // The `i`th six bits of a 24-bit number.
  function Digit(n: nat, i: nat): (v: nat)
    requires i < 4
    ensures v < 64
  {
    n / [0x4_0000, 0x1000, 0x40, 1][i] % 64
  }

  function Group(chunk: Bytes): (s: string)
    requires 1 <= |chunk| <= 3
    ensures |s| == |chunk| + 1
  {
    seq(|chunk| + 1, i requires 0 <= i < 4 => ALPHABET[Digit(Word(chunk), i)])
  }

  function Encode(bytes: Bytes): string {
    if bytes == [] then []
    else if |bytes| <= 3 then Group(bytes)
    else Group(bytes[..3]) + Encode(bytes[3..])
  }

  method Base64Url(bytes: Bytes) returns (out: string)
    ensures out == Encode(bytes)
  {
    hide Group;
    out := [];
    var at := 0;
    while at < |bytes|
      invariant at <= |bytes| && out + Encode(bytes[at..]) == Encode(bytes)
    {
      var end := if at + 3 <= |bytes| then at + 3 else |bytes|;
      ghost var rest := bytes[at..];
      assert bytes[at..end] == if |rest| <= 3 then rest else rest[..3];
      assert bytes[end..] == if |rest| <= 3 then [] else rest[3..];
      out := PushChunk(out, bytes[at..end]);
      at := end;
    }
  }

  method PushChunk(before: string, chunk: Bytes) returns (out: string)
    requires 1 <= |chunk| <= 3
    ensures out == before + Group(chunk)
  {
    hide ALPHABET, Digit, Word;
    LetterAt(0);
    out := before;
    for i := 0 to |chunk| + 1
      invariant out == before + Group(chunk)[..i]
    {
      out := out + [ALPHABET[Digit(Word(chunk), i)]];
    }
  }

  // ---- Decoding ------------------------------------------------------------------

  // What the digits of a group add up to; the missing ones count as zero.
  function Number(text: string): (n: nat)
    requires |text| <= 4 && IsBase64(text)
  {
    if text == [] then 0
    else ValueOf(text[0]).value * 0x4_0000 + (if |text| > 1 then ValueOf(text[1]).value * 0x1000 else 0)
         + (if |text| > 2 then ValueOf(text[2]).value * 0x40 else 0)
         + (if |text| > 3 then ValueOf(text[3]).value else 0)
  }

  // The `i`th byte of a 24-bit number.
  function Octet(n: nat, i: nat): Byte
    requires i < 3
  {
    n / [0x1_0000, 0x100, 1][i] % 256
  }

  function Ungroup(text: string): (b: Bytes)
    requires 1 <= |text| <= 4 && IsBase64(text)
    ensures |b| == |text| - 1
  {
    seq(|text| - 1, i requires 0 <= i < 3 => Octet(Number(text), i))
  }

  /** `None` for a character outside the alphabet. */
  function Decode(text: string): Option<Bytes> {
    if !IsBase64(text) then None
    else if text == [] then Some([])
    else if |text| <= 4 then Some(Ungroup(text))
    else
      assert IsBase64(text[..4]);
      var rest := Decode(text[4..]);
      if rest.None? then None else Some(Ungroup(text[..4]) + rest.value)
  }

  // ---- What the encoder promises -----------------------------------------------------

  lemma DigitsAddUp(n: nat)
    requires n < 0x100_0000
    ensures Digit(n, 0) * 0x4_0000 + Digit(n, 1) * 0x1000 + Digit(n, 2) * 0x40 + Digit(n, 3) == n
  {
    var a, b, c := n / 0x40, n / 0x1000, n / 0x4_0000;
    assert Digit(n, 3) == n % 0x40 && Digit(n, 2) == a % 0x40 && Digit(n, 1) == b % 0x40 && Digit(n, 0) == c;
    hide Digit;
    assert n == 0x40 * a + n % 0x40 && a == 0x40 * b + a % 0x40 && b == 0x40 * c + b % 0x40;
  }

  lemma GroupIsBase64(chunk: Bytes)
    requires 1 <= |chunk| <= 3
    ensures IsBase64(Group(chunk))
    ensures forall i | 0 <= i <= |chunk| :: ValueOf(Group(chunk)[i]) == Some(Digit(Word(chunk), i))
  {
    LetterAt(0);
    hide ALPHABET, ValueOf, Digit, Word;
    forall i | 0 <= i <= |chunk| ensures ValueOf(Group(chunk)[i]) == Some(Digit(Word(chunk), i)) {
      LetterValue(Digit(Word(chunk), i));
    }
    forall c | c in Group(chunk) ensures ValueOf(c).Some? {
      var i :| 0 <= i <= |chunk| && Group(chunk)[i] == c;
    }
  }

  lemma DroppedDigitsAreZero(chunk: Bytes)
    requires 1 <= |chunk| <= 3
    ensures |chunk| < 2 ==> Digit(Word(chunk), 2) == 0
    ensures |chunk| < 3 ==> Digit(Word(chunk), 3) == 0
  {
    var b0: nat := chunk[0];
    var b1: nat := if |chunk| > 1 then chunk[1] else 0;
    var n := Word(chunk);
    assert |chunk| < 3 ==> n == 0x40 * (0x400 * b0 + 4 * b1);
    hide Word;
    assert |chunk| < 3 ==> n % 0x40 == 0 && n / 0x40 == 0x400 * b0 + 4 * b1;
  }

  lemma OctetOfWord(chunk: Bytes, i: nat)
    requires 1 <= |chunk| <= 3 && i < |chunk|
    ensures Octet(Word(chunk), i) == chunk[i]
  {
    var b0: nat := chunk[0];
    var b1: nat := if |chunk| > 1 then chunk[1] else 0;
    var b2: nat := if |chunk| > 2 then chunk[2] else 0;
    var n := Word(chunk);
    assert n == 0x1_0000 * b0 + 0x100 * b1 + b2;
    hide Word;
    assert n / 0x1_0000 == b0 && n / 0x100 == 0x100 * b0 + b1;
  }

  lemma UngroupGroup(chunk: Bytes)
    requires 1 <= |chunk| <= 3
    ensures IsBase64(Group(chunk)) && Ungroup(Group(chunk)) == chunk
  {
    hide ALPHABET, ValueOf, Group, Digit, Word, Octet;
    GroupIsBase64(chunk);
    DigitsAddUp(Word(chunk));
    DroppedDigitsAreZero(chunk);
    assert Number(Group(chunk)) == Word(chunk);
    forall i | 0 <= i < |chunk| ensures Ungroup(Group(chunk))[i] == chunk[i] { OctetOfWord(chunk, i); }
  }

  /** Decoding undoes encoding, for every byte string. */
  lemma {:induction false} RoundTrip(bytes: Bytes)
    ensures Decode(Encode(bytes)) == Some(bytes)
  {
    hide ALPHABET, ValueOf, Group, Ungroup;
    if bytes == [] {
    } else if |bytes| <= 3 {
      UngroupGroup(bytes);
    } else {
      UngroupGroup(bytes[..3]);
      RoundTrip(bytes[3..]);
      assert Encode(bytes)[..4] == Group(bytes[..3]) && Encode(bytes)[4..] == Encode(bytes[3..]);
      assert bytes == bytes[..3] + bytes[3..];
    }
  }

  lemma AppendSix(high: nat, j: nat, low: nat)
    requires low < 64
    ensures Bits(high * 64 + low, j + 6) == Bits(high, j) + Bits(low, 6)
  {
    hide Bits;
    BitsAppend(high, j, low, 6);
  }

  lemma AppendEight(high: nat, j: nat, low: nat)
    requires low < 256
    ensures Bits(high * 256 + low, j + 8) == Bits(high, j) + Bits(low, 8)
  {
    hide Bits;
    BitsAppend(high, j, low, 8);
  }

  lemma FourSixes(a: nat, b: nat, c: nat, d: nat)
    requires a < 64 && b < 64 && c < 64 && d < 64
    ensures Bits(a * 0x4_0000 + b * 0x1000 + c * 0x40 + d, 24) == Bits(a, 6) + Bits(b, 6) + Bits(c, 6) + Bits(d, 6)
  {
    hide Bits;
    AppendSix(a, 6, b);
    AppendSix(a * 64 + b, 12, c);
    AppendSix((a * 64 + b) * 64 + c, 18, d);
    assert ((a * 64 + b) * 64 + c) * 64 + d == a * 0x4_0000 + b * 0x1000 + c * 0x40 + d;
  }

  lemma ThreeEights(a: nat, b: nat, c: nat)
    requires a < 256 && b < 256 && c < 256
    ensures Bits(a * 0x1_0000 + b * 0x100 + c, 24) == Bits(a, 8) + Bits(b, 8) + Bits(c, 8)
  {
    hide Bits;
    AppendEight(a, 8, b);
    AppendEight(a * 256 + b, 16, c);
    assert (a * 256 + b) * 256 + c == a * 0x1_0000 + b * 0x100 + c;
  }

  lemma TextSide(chunk: Bytes)
    requires 1 <= |chunk| <= 3
    ensures IsBase64(Group(chunk)) && TextToBits(Group(chunk)) == Bits(Word(chunk), 24)[..6 * (|chunk| + 1)]
  {
    hide ALPHABET, ValueOf, Group, Digit, Bits, TextToBits, IsBase64, Word;
    GroupIsBase64(chunk);
    var n := Word(chunk);
    DigitsAddUp(n);
    FourSixes(Digit(n, 0), Digit(n, 1), Digit(n, 2), Digit(n, 3));
    TextBitsOf(Group(chunk));
  }

  lemma ByteSide(chunk: Bytes)
    requires 1 <= |chunk| <= 3
    ensures Bits(Word(chunk), 24) == BytesToBits(chunk) + Zeros(24 - 8 * |chunk|)
  {
    hide Bits, BytesToBits;
    var b1: nat := if |chunk| > 1 then chunk[1] else 0;
    var b2: nat := if |chunk| > 2 then chunk[2] else 0;
    ThreeEights(chunk[0], b1, b2);
    ZeroBits(8);
    ByteBitsOf(chunk);
  }

  lemma GroupBits(chunk: Bytes)
    requires 1 <= |chunk| <= 3
    ensures IsBase64(Group(chunk))
    ensures TextToBits(Group(chunk)) == BytesToBits(chunk) + Zeros(6 * (|chunk| + 1) - 8 * |chunk|)
  {
    hide *;
    TextSide(chunk);
    ByteSide(chunk);
    SomeZeros(BytesToBits(chunk), 24 - 8 * |chunk|, 6 * (|chunk| + 1) - 8 * |chunk|);
    assert |BytesToBits(chunk)| == 8 * |chunk| by { ByteBitsOf(chunk); }
  }

  lemma SomeZeros(b: seq<bool>, n: nat, m: nat)
    requires m <= n
    ensures (b + Zeros(n))[..|b| + m] == b + Zeros(m)
  {
  }

  lemma TextBitsOf(text: string)
    requires 2 <= |text| <= 4 && IsBase64(text)
    ensures TextToBits(text) == Bits(ValueOf(text[0]).value, 6) + Bits(ValueOf(text[1]).value, 6)
              + (if |text| > 2 then Bits(ValueOf(text[2]).value, 6) else [])
              + (if |text| > 3 then Bits(ValueOf(text[3]).value, 6) else [])
  {
    hide ALPHABET, ValueOf, Bits;
    assert TextToBits(text[1..]) == Bits(ValueOf(text[1]).value, 6) + TextToBits(text[1..][1..]);
    if |text| > 2 {
      assert TextToBits(text[1..][1..]) == Bits(ValueOf(text[2]).value, 6) + TextToBits(text[1..][1..][1..]);
    }
    if |text| > 3 {
      assert TextToBits(text[1..][1..][1..]) == Bits(ValueOf(text[3]).value, 6) + TextToBits(text[1..][1..][1..][1..]);
    }
  }

  lemma ByteBitsOf(chunk: Bytes)
    requires 1 <= |chunk| <= 3
    ensures BytesToBits(chunk) == Bits(chunk[0], 8) + (if |chunk| > 1 then Bits(chunk[1], 8) else [])
              + (if |chunk| > 2 then Bits(chunk[2], 8) else [])
  {
    hide Bits;
    if |chunk| > 1 { assert BytesToBits(chunk[1..]) == Bits(chunk[1], 8) + BytesToBits(chunk[1..][1..]); }
    if |chunk| > 2 { assert BytesToBits(chunk[1..][1..]) == Bits(chunk[2], 8) + BytesToBits(chunk[1..][1..][1..]); }
  }

  lemma {:induction false} TextBitsAppend(a: string, b: string)
    requires IsBase64(a) && IsBase64(b)
    ensures IsBase64(a + b) && TextToBits(a + b) == TextToBits(a) + TextToBits(b)
  {
    hide ALPHABET, ValueOf, Bits;
    if a == [] {
      assert a + b == b;
    } else {
      TextBitsAppend(a[1..], b);
      assert (a + b)[1..] == a[1..] + b;
    }
  }

  lemma {:induction false} ByteBitsAppend(a: Bytes, b: Bytes)
    ensures BytesToBits(a + b) == BytesToBits(a) + BytesToBits(b)
  {
    hide Bits;
    if a == [] {
      assert a + b == b;
    } else {
      ByteBitsAppend(a[1..], b);
      assert (a + b)[0] == a[0] && (a + b)[1..] == a[1..] + b;
      assert BytesToBits(a + b) == Bits(a[0], 8) + BytesToBits(a[1..] + b);
      assert BytesToBits(a) == Bits(a[0], 8) + BytesToBits(a[1..]);
      hide BytesToBits;
    }
  }

  /** Unpadded: four characters for every three bytes, one more than the bytes for the rest. */
  lemma {:induction false} EncodedLength(bytes: Bytes)
    ensures |Encode(bytes)| == (4 * |bytes| + 2) / 3
    ensures 0 <= 6 * |Encode(bytes)| - 8 * |bytes| < 6
  {
    hide Group;
    if |bytes| > 3 { EncodedLength(bytes[3..]); }
  }

  /** Section 4 of RFC 4648: the bits of the input, filled up with zeros to a
      multiple of six, read six at a time. */
  lemma {:induction false} EncodesBits(bytes: Bytes)
    ensures IsBase64(Encode(bytes)) && 0 <= 6 * |Encode(bytes)| - 8 * |bytes| < 6
    ensures TextToBits(Encode(bytes)) == BytesToBits(bytes) + Zeros(6 * |Encode(bytes)| - 8 * |bytes|)
  {
    hide IsBase64, Group, Bits, BytesToBits, TextToBits;
    EncodedLength(bytes);
    if bytes == [] {
      NoBits();
    } else if |bytes| <= 3 {
      GroupBits(bytes);
    } else {
      GroupBits(bytes[..3]);
      EncodesBits(bytes[3..]);
      EncodedLength(bytes[3..]);
      TextBitsAppend(Group(bytes[..3]), Encode(bytes[3..]));
      ByteBitsAppend(bytes[..3], bytes[3..]);
      assert bytes == bytes[..3] + bytes[3..];
    }
  }

  lemma NoBits()
    ensures IsBase64([]) && TextToBits([]) == [] && BytesToBits([]) == []
  {
  }

  // ---- The token -------------------------------------------------------------------

  /** `header.claims.signature`, the signature being the key's over the text before it. */
  method Jwt(header: Bytes, claims: Bytes, sign: string -> Result<Bytes, string>) returns (r: Result<string, string>)
    ensures var signature := sign(Encode(header) + "." + Encode(claims));
            match signature
            case Ok(s) => r.Ok? && Split(r.value) == [Encode(header), Encode(claims), Encode(s)]
            case Err(error) => r == Err(error)
  {
    var h := Base64Url(header);
    var c := Base64Url(claims);
    var signed := h + "." + c;
    var signature := sign(signed);
    if signature.Err? { return Err(signature.error); }
    var s := Base64Url(signature.value);
    ThreeParts(header, claims, signature.value);
    r := Ok(signed + "." + s);
  }

  /** The pieces of `s` between its dots. */
  function Split(s: string): (parts: seq<string>)
    ensures |parts| >= 1
  {
    if s == [] then [[]]
    else
      var rest := Split(s[1..]);
      if s[0] == '.' then [[]] + rest else [[s[0]] + rest[0]] + rest[1..]
  }

  lemma {:induction false} SplitAtDot(a: string, rest: string)
    requires '.' !in a
    ensures Split(a) == [a]
    ensures Split(a + "." + rest) == [a] + Split(rest)
  {
    if a == [] {
      assert a + "." + rest == "." + rest;
      assert ("." + rest)[1..] == rest;
    } else {
      SplitAtDot(a[1..], rest);
      assert (a + "." + rest)[1..] == a[1..] + "." + rest;
      assert a == [a[0]] + a[1..];
    }
  }

  lemma NoDots(bytes: Bytes)
    ensures '.' !in Encode(bytes)
  {
    EncodesBits(bytes);
    AlphabetIsDistinct();
    assert ALPHABET[0..] == ALPHABET;
  }

  lemma ThreeParts(header: Bytes, claims: Bytes, signature: Bytes)
    ensures Split(Encode(header) + "." + Encode(claims) + "." + Encode(signature))
         == [Encode(header), Encode(claims), Encode(signature)]
  {
    hide ALPHABET, Encode, Split;
    NoDots(header);
    NoDots(claims);
    NoDots(signature);
    var h, c, s := Encode(header), Encode(claims), Encode(signature);
    assert h + "." + c + "." + s == h + "." + (c + "." + s);
    SplitAtDot(h, c + "." + s);
    SplitAtDot(c, s);
    SplitAtDot(s, s);
  }

  /** Whoever splits a token at its dots and decodes the parts has what was signed. */
  lemma PartsAreRecovered(header: Bytes, claims: Bytes, signature: Bytes, token: string)
    requires Split(token) == [Encode(header), Encode(claims), Encode(signature)]
    ensures Decode(Split(token)[0]) == Some(header)
    ensures Decode(Split(token)[1]) == Some(claims)
    ensures Decode(Split(token)[2]) == Some(signature)
  {
    RoundTrip(header);
    RoundTrip(claims);
    RoundTrip(signature);
  }
}
