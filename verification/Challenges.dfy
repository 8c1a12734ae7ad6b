/**
 * The challenge text inside a client data record: unpadded base64url of 32 bytes (section 5 of
 * RFC 4648) and the substring check (p256-registrar/src/verify.rs:13-74).
 */
module Challenges {
  import opened Arithmetic
  import opened Basics

  type Byte = b: nat | b < 256
  type Sextet = v: nat | v < 64

  // ── The alphabet ─────────────────────────────────────────────────────────

  function Letter(v: Sextet): char {
    if v < 26 then ('A' as int + v) as char
    else if v < 52 then ('a' as int + v - 26) as char
    else if v < 62 then ('0' as int + v - 52) as char
    else if v == 62 then '-' else '_'
  }

  predicate InAlphabet(c: char) {
    'A' <= c <= 'Z' || 'a' <= c <= 'z' || '0' <= c <= '9' || c == '-' || c == '_'
  }

  function Value(c: char): Sextet
    requires InAlphabet(c)
  {
    if 'A' <= c <= 'Z' then c as int - 'A' as int
    else if 'a' <= c <= 'z' then c as int - 'a' as int + 26
    else if '0' <= c <= '9' then c as int - '0' as int + 52
    else if c == '-' then 62 else 63
  }

  lemma {:induction false} LetterValue(v: Sextet)
    ensures InAlphabet(Letter(v)) && Value(Letter(v)) == v
  {}

  lemma {:induction false} ValueLetter(c: char)
    requires InAlphabet(c)
    ensures Letter(Value(c)) == c
  {}

  // ── Groups ───────────────────────────────────────────────────────────────

  /** The i-th six bits of three bytes. */
  function Sixth(a: Byte, b: Byte, c: Byte, i: nat): Sextet {
    if i == 0 then a / 4
    else if i == 1 then a % 4 * 16 + b / 16
    else if i == 2 then b % 16 * 4 + c / 64
    else c % 64
  }

  /** Shifting and masking the 24-bit word gives those bits. */
  lemma {:induction false} ShiftsAreSixths(a: Byte, b: Byte, c: Byte)
    ensures var v := a * 65536 + b * 256 + c;
            && v / 262144 % 64 == Sixth(a, b, c, 0) && v / 4096 % 64 == Sixth(a, b, c, 1)
            && v / 64 % 64 == Sixth(a, b, c, 2) && v % 64 == Sixth(a, b, c, 3)
  {
    var v := a * 65536 + b * 256 + c;
    var a1, a0, b1, b0, c1, c0 := a / 4, a % 4, b / 16, b % 16, c / 64, c % 64;
    assert a == a1 * 4 + a0 && b == b1 * 16 + b0 && c == c1 * 64 + c0;
    DivMod(v, a1, a0 * 65536 + b * 256 + c, 262144);
    DivMod(a1, 0, a1, 64);
    DivMod(v, a * 16 + b1, b0 * 256 + c, 4096);
    DivMod(a * 16 + b1, a1, a0 * 16 + b1, 64);
    DivMod(v, a * 1024 + b * 4 + c1, c0, 64);
    DivMod(a * 1024 + b * 4 + c1, a * 16 + b1, b0 * 4 + c1, 64);
  }

  function Joined(w: Sextet, x: Sextet, y: Sextet, z: Sextet): (Byte, Byte, Byte) {
    (w * 4 + x / 16, x % 16 * 16 + y / 4, y % 4 * 64 + z)
  }

  lemma {:induction false} JoinSplit(a: Byte, b: Byte, c: Byte)
    ensures Joined(Sixth(a, b, c, 0), Sixth(a, b, c, 1), Sixth(a, b, c, 2), Sixth(a, b, c, 3)) == (a, b, c)
  {
    DivMod(a % 4 * 16 + b / 16, a % 4, b / 16, 16);
    DivMod(b % 16 * 4 + c / 64, b % 16, c / 64, 4);
  }

  lemma {:induction false} SplitJoin(w: Sextet, x: Sextet, y: Sextet, z: Sextet)
    ensures var t := Joined(w, x, y, z);
            && Sixth(t.0, t.1, t.2, 0) == w && Sixth(t.0, t.1, t.2, 1) == x
            && Sixth(t.0, t.1, t.2, 2) == y && Sixth(t.0, t.1, t.2, 3) == z
  {
    DivMod(w * 4 + x / 16, w, x / 16, 4);
    DivMod(x % 16 * 16 + y / 4, x % 16, y / 4, 16);
    DivMod(y % 4 * 64 + z, y % 4, z, 64);
  }

  /** The six bits of the last two bytes; the third group carries four and is padded with zeros. */
  function TailSixth(a: Byte, b: Byte, i: nat): Sextet {
    if i == 0 then a / 4 else if i == 1 then a % 4 * 16 + b / 16 else b % 16 * 4
  }

  lemma {:induction false} TailShifts(a: Byte, b: Byte)
    ensures var v := a * 256 + b;
            v / 1024 % 64 == TailSixth(a, b, 0) && v / 16 % 64 == TailSixth(a, b, 1) && v * 4 % 64 == TailSixth(a, b, 2)
  {
    var v := a * 256 + b;
    var a1, a0, b1, b0 := a / 4, a % 4, b / 16, b % 16;
    assert a == a1 * 4 + a0 && b == b1 * 16 + b0;
    DivMod(v, a1, a0 * 256 + b, 1024);
    DivMod(a1, 0, a1, 64);
    DivMod(v, a * 16 + b1, b0, 16);
    DivMod(a * 16 + b1, a1, a0 * 16 + b1, 64);
    DivMod(v * 4, a * 16 + b1, b0 * 4, 64);
  }

  function TailJoined(x: Sextet, y: Sextet, z: Sextet): (Byte, Byte) {
    (x * 4 + y / 16, y % 16 * 16 + z / 4)
  }

  lemma {:induction false} TailJoinSplit(a: Byte, b: Byte)
    ensures TailJoined(TailSixth(a, b, 0), TailSixth(a, b, 1), TailSixth(a, b, 2)) == (a, b) && TailSixth(a, b, 2) % 4 == 0
  {
    DivMod(a % 4 * 16 + b / 16, a % 4, b / 16, 16);
    DivMod(b % 16 * 4, b % 16, 0, 4);
  }

  lemma {:induction false} TailSplitJoin(x: Sextet, y: Sextet, z: Sextet)
    requires z % 4 == 0
    ensures var t := TailJoined(x, y, z);
            TailSixth(t.0, t.1, 0) == x && TailSixth(t.0, t.1, 1) == y && TailSixth(t.0, t.1, 2) == z
  {
    DivMod(x * 4 + y / 16, x, y / 16, 4);
    DivMod(y % 16 * 16 + z / 4, y % 16, z / 4, 16);
  }

  // ── The whole text ───────────────────────────────────────────────────────

  /** The n-th six bits of 32 bytes. */
  function SextetAt(bytes: seq<Byte>, n: nat): Sextet
    requires |bytes| == 32 && n < 43
  {
    if n < 40 then Sixth(bytes[n / 4 * 3], bytes[n / 4 * 3 + 1], bytes[n / 4 * 3 + 2], n % 4)
    else TailSixth(bytes[30], bytes[31], n - 40)
  }

  function Encode(bytes: seq<Byte>): (r: string)
    requires |bytes| == 32
  {
    seq(43, n requires 0 <= n < 43 => Letter(SextetAt(bytes, n)))
  }

  /** A text the encoder can have produced. */
  predicate Canonical(text: string) {
    |text| == 43 && (forall i | 0 <= i < 43 :: InAlphabet(text[i])) && Value(text[42]) % 4 == 0
  }

  function Group(text: string, k: nat): (Byte, Byte, Byte)
    requires Canonical(text) && k < 10
  {
    Joined(Value(text[4 * k]), Value(text[4 * k + 1]), Value(text[4 * k + 2]), Value(text[4 * k + 3]))
  }

  function LastBytes(text: string): (Byte, Byte)
    requires Canonical(text)
  {
    TailJoined(Value(text[40]), Value(text[41]), Value(text[42]))
  }

  function ByteAt(text: string, m: nat): Byte
    requires Canonical(text) && m < 32
  {
    if m == 30 then LastBytes(text).0
    else if m == 31 then LastBytes(text).1
    else if m % 3 == 0 then Group(text, m / 3).0
    else if m % 3 == 1 then Group(text, m / 3).1
    else Group(text, m / 3).2
  }

  function Decode(text: string): (r: seq<Byte>)
    requires Canonical(text)
  {
    seq(32, m requires 0 <= m < 32 => ByteAt(text, m))
  }

  lemma {:induction false} SextetsOfGroup(bytes: seq<Byte>, k: nat, j: nat)
    requires |bytes| == 32 && k < 10 && j < 4
    ensures SextetAt(bytes, 4 * k + j) == Sixth(bytes[3 * k], bytes[3 * k + 1], bytes[3 * k + 2], j)
  {
    DivMod(4 * k + j, k, j, 4);
  }

  lemma {:induction false} ShiftsAreSextets(bytes: seq<Byte>, k: nat, v: nat)
    requires |bytes| == 32 && k < 10
    requires v == bytes[3 * k] as nat * 65536 + bytes[3 * k + 1] as nat * 256 + bytes[3 * k + 2] as nat
    ensures v / 262144 % 64 == SextetAt(bytes, 4 * k) && v / 4096 % 64 == SextetAt(bytes, 4 * k + 1)
    ensures v / 64 % 64 == SextetAt(bytes, 4 * k + 2) && v % 64 == SextetAt(bytes, 4 * k + 3)
  {
    ShiftsAreSixths(bytes[3 * k], bytes[3 * k + 1], bytes[3 * k + 2]);
    SextetsOfGroup(bytes, k, 0);
    SextetsOfGroup(bytes, k, 1);
    SextetsOfGroup(bytes, k, 2);
    SextetsOfGroup(bytes, k, 3);
  }

  lemma {:induction false} TailIsSextets(bytes: seq<Byte>, v: nat)
    requires |bytes| == 32 && v == bytes[30] as nat * 256 + bytes[31] as nat
    ensures v / 1024 % 64 == SextetAt(bytes, 40) && v / 16 % 64 == SextetAt(bytes, 41) && v * 4 % 64 == SextetAt(bytes, 42)
  {
    TailShifts(bytes[30], bytes[31]);
  }

  method Base64Url32(bytes: seq<Byte>) returns (out: string)
    requires |bytes| == 32
    ensures out == Encode(bytes)
  {
    out := [];
    for k := 0 to 10
      invariant |out| == 4 * k
      invariant forall n | 0 <= n < |out| :: out[n] == Letter(SextetAt(bytes, n))
    {
      var v: nat := bytes[3 * k] as nat * 65536 + bytes[3 * k + 1] as nat * 256 + bytes[3 * k + 2] as nat;
      ShiftsAreSextets(bytes, k, v);
      out := out + [Letter(v / 262144 % 64)];
      out := out + [Letter(v / 4096 % 64)];
      out := out + [Letter(v / 64 % 64)];
      out := out + [Letter(v % 64)];
    }
    var tail: nat := bytes[30] as nat * 256 + bytes[31] as nat;
    TailIsSextets(bytes, tail);
    out := out + [Letter(tail / 1024 % 64)];
    out := out + [Letter(tail / 16 % 64)];
    out := out + [Letter(tail * 4 % 64)];
  }

  lemma {:induction false} EncodeIsCanonical(bytes: seq<Byte>)
    requires |bytes| == 32
    ensures Canonical(Encode(bytes))
    ensures forall n | 0 <= n < 43 :: Value(Encode(bytes)[n]) == SextetAt(bytes, n)
  {
    forall n | 0 <= n < 43
      ensures InAlphabet(Encode(bytes)[n]) && Value(Encode(bytes)[n]) == SextetAt(bytes, n)
    {
      LetterValue(SextetAt(bytes, n));
    }
    TailJoinSplit(bytes[30], bytes[31]);
  }

  lemma {:induction false} GroupRoundTrip(bytes: seq<Byte>, k: nat)
    requires |bytes| == 32 && k < 10 && Canonical(Encode(bytes))
    ensures Group(Encode(bytes), k) == (bytes[3 * k], bytes[3 * k + 1], bytes[3 * k + 2])
  {
    EncodeIsCanonical(bytes);
    SextetsOfGroup(bytes, k, 0);
    SextetsOfGroup(bytes, k, 1);
    SextetsOfGroup(bytes, k, 2);
    SextetsOfGroup(bytes, k, 3);
    JoinSplit(bytes[3 * k], bytes[3 * k + 1], bytes[3 * k + 2]);
  }

  lemma {:induction false} ByteRoundTrip(bytes: seq<Byte>, m: nat)
    requires |bytes| == 32 && m < 32 && Canonical(Encode(bytes))
    ensures ByteAt(Encode(bytes), m) == bytes[m]
  {
    if m < 30 {
      GroupRoundTrip(bytes, m / 3);
    } else {
      EncodeIsCanonical(bytes);
      TailJoinSplit(bytes[30], bytes[31]);
    }
  }

  /** Every 32-byte value is recovered from its text. */
  lemma {:induction false} DecodeEncode(bytes: seq<Byte>)
    requires |bytes| == 32
    ensures Canonical(Encode(bytes)) && Decode(Encode(bytes)) == bytes
  {
    EncodeIsCanonical(bytes);
    forall m | 0 <= m < 32 ensures Decode(Encode(bytes))[m] == bytes[m] { ByteRoundTrip(bytes, m); }
  }

  lemma {:induction false} BytesOfGroup(text: string, k: nat)
    requires Canonical(text) && k < 10
    ensures (Decode(text)[3 * k], Decode(text)[3 * k + 1], Decode(text)[3 * k + 2]) == Group(text, k)
  {
    DivMod(3 * k, k, 0, 3);
    DivMod(3 * k + 1, k, 1, 3);
    DivMod(3 * k + 2, k, 2, 3);
  }

  lemma {:induction false} SixthsOfGroup(text: string, k: nat, j: nat)
    requires Canonical(text) && k < 10 && j < 4
    ensures var t := Group(text, k); Sixth(t.0, t.1, t.2, j) == Value(text[4 * k + j])
  {
    SplitJoin(Value(text[4 * k]), Value(text[4 * k + 1]), Value(text[4 * k + 2]), Value(text[4 * k + 3]));
    if j == 0 {
    } else if j == 1 {
    } else if j == 2 {
    } else {
      assert j == 3;
    }
  }

  lemma {:induction false} SextetsOfTriple(bytes: seq<Byte>, t: (Byte, Byte, Byte), k: nat, j: nat)
    requires |bytes| == 32 && k < 10 && j < 4 && (bytes[3 * k], bytes[3 * k + 1], bytes[3 * k + 2]) == t
    ensures SextetAt(bytes, 4 * k + j) == Sixth(t.0, t.1, t.2, j)
  {
    SextetsOfGroup(bytes, k, j);
  }

  lemma {:induction false} GroupLetters(text: string, k: nat, j: nat)
    requires Canonical(text) && k < 10 && j < 4
    ensures SextetAt(Decode(text), 4 * k + j) == Value(text[4 * k + j])
  {
    BytesOfGroup(text, k);
    SextetsOfTriple(Decode(text), Group(text, k), k, j);
    SixthsOfGroup(text, k, j);
  }

  lemma {:induction false} LetterRoundTrip(text: string, n: nat)
    requires Canonical(text) && n < 43
    ensures SextetAt(Decode(text), n) == Value(text[n])
  {
    if n < 40 {
      GroupLetters(text, n / 4, n % 4);
    } else {
      TailSplitJoin(Value(text[40]), Value(text[41]), Value(text[42]));
    }
  }

  /** The texts produced are exactly the canonical ones. */
  lemma {:induction false} EncodeDecode(text: string)
    requires Canonical(text)
    ensures Encode(Decode(text)) == text
  {
    forall n | 0 <= n < 43 ensures Encode(Decode(text))[n] == text[n] {
      LetterRoundTrip(text, n);
      ValueLetter(text[n]);
    }
  }

  // ── The check ────────────────────────────────────────────────────────────

  /** check_substring on a machine whose word counts to `word`. */
  predicate CheckSubstring(data: string, offset: nat, expected: string, word: nat) {
    if offset >= word then false
    else if offset + |expected| >= word then false
    else offset + |expected| <= |data| && data[offset..offset + |expected|] == expected
  }

  /** The guards against overflow refuse nothing that fits into memory. */
  lemma {:induction false} CheckIsOccurrence(data: string, offset: nat, expected: string, word: nat)
    requires |data| < word
    ensures CheckSubstring(data, offset, expected, word) <==>
            offset + |expected| <= |data| && forall i | 0 <= i < |expected| :: data[offset + i] == expected[i]
  {
    if offset + |expected| <= |data| {
      var part := data[offset..offset + |expected|];
      assert forall i | 0 <= i < |expected| :: part[i] == data[offset + i];
    }
  }

  function ExpectedChallenge(challenge: seq<Byte>): string
    requires |challenge| == 32
  {
    "\"challenge\":\"" + Encode(challenge) + "\""
  }

  /** One client data text at one index passes the check for at most one challenge. */
  lemma {:induction false} ChallengeIsBound(data: string, offset: nat, word: nat, c: seq<Byte>, d: seq<Byte>)
    requires |c| == 32 && |d| == 32
    requires CheckSubstring(data, offset, ExpectedChallenge(c), word) && CheckSubstring(data, offset, ExpectedChallenge(d), word)
    ensures c == d
  {
    assert ExpectedChallenge(c) == ExpectedChallenge(d);
    assert ExpectedChallenge(c)[13..56] == Encode(c) && ExpectedChallenge(d)[13..56] == Encode(d);
    DecodeEncode(c);
    DecodeEncode(d);
  }

  /** The alphabet is the one of section 5 of RFC 4648: three runs of letters and digits, and two more. */
  lemma {:induction false} AlphabetRunsOn(v: Sextet)
    ensures Letter(0) == 'A' && Letter(25) == 'Z' && Letter(26) == 'a' && Letter(51) == 'z'
    ensures Letter(52) == '0' && Letter(61) == '9' && Letter(62) == '-' && Letter(63) == '_'
    ensures v < 61 && v != 25 && v != 51 ==> Letter(v + 1) as int == Letter(v) as int + 1
  {}
}
