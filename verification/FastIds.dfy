/** The counter-based id generator: a 64-bit counter, its little-endian bytes, in unpadded
    URL-safe Base64 (section 5 of RFC 4648). */
module FastIds {

  const U64: nat := 0x1_0000_0000_0000_0000

  type Octet = b: nat | b < 256
  type Sextet = b: nat | b < 64

  // ---------- Little-endian bytes ----------

  function Power256(k: nat): (p: nat)
    ensures p > 0
  {
    if k == 0 then 1 else 256 * Power256(k - 1)
  }

  function LittleEndian(n: nat, k: nat): (bytes: seq<Octet>)
    ensures |bytes| == k
    decreases k
  {
    if k == 0 then [] else [n % 256] + LittleEndian(n / 256, k - 1)
  }

  function FromLittleEndian(bytes: seq<Octet>): nat {
    if bytes == [] then 0 else bytes[0] + 256 * FromLittleEndian(bytes[1..])
  }

  lemma {:induction false} LittleEndianRoundTrip(n: nat, k: nat)
    requires n < Power256(k)
    ensures FromLittleEndian(LittleEndian(n, k)) == n
    decreases k
  {
    if k > 0 {
      assert n / 256 < Power256(k - 1);
      LittleEndianRoundTrip(n / 256, k - 1);
    }
  }

  // ---------- Base64 ----------

  /** Three octets make four sextets; one or two left over make two or three, padded with zero bits. */
  function ToSextets(bytes: seq<Octet>): seq<Sextet> {
    if |bytes| == 0 then []
    else if |bytes| == 1 then [bytes[0] / 4, bytes[0] % 4 * 16]
    else if |bytes| == 2 then [bytes[0] / 4, bytes[0] % 4 * 16 + bytes[1] / 16, bytes[1] % 16 * 4]
    else
      [bytes[0] / 4, bytes[0] % 4 * 16 + bytes[1] / 16, bytes[1] % 16 * 4 + bytes[2] / 64, bytes[2] % 64] +
      ToSextets(bytes[3..])
  }

  function FromSextets(s: seq<Sextet>): seq<Octet> {
    if |s| < 2 then []
    else
      var a, b := s[0] as int, s[1] as int;
      if |s| == 2 then [a * 4 + b / 16]
      else
        var c := s[2] as int;
        if |s| == 3 then [a * 4 + b / 16, b % 16 * 16 + c / 4]
        else [a * 4 + b / 16, b % 16 * 16 + c / 4, c % 4 * 64 + s[3]] + FromSextets(s[4..])
  }

  lemma {:induction false} SextetRoundTrip(bytes: seq<Octet>)
    ensures FromSextets(ToSextets(bytes)) == bytes
  {
    if |bytes| >= 3 {
      SextetRoundTrip(bytes[3..]);
      var s := ToSextets(bytes);
      assert s[4..] == ToSextets(bytes[3..]);
      assert bytes == [bytes[0], bytes[1], bytes[2]] + bytes[3..];
    }
  }

  function Digit(i: Sextet): char {
    if i < 26 then 'A' + i as char
    else if i < 52 then 'a' + (i - 26) as char
    else if i < 62 then '0' + (i - 52) as char
    else if i == 62 then '-'
    else '_'
  }

  function DigitValue(c: char): Sextet {
    if 'A' <= c <= 'Z' then c as int - 'A' as int
    else if 'a' <= c <= 'z' then c as int - 'a' as int + 26
    else if '0' <= c <= '9' then c as int - '0' as int + 52
    else if c == '-' then 62
    else 63
  }

  /** Table 2 of section 5 of RFC 4648. */
  const ALPHABET := "ABCDEFGHIJKLMNOPQRSTUVWXYZabcdefghijklmnopqrstuvwxyz0123456789-_"

  function Digits(n: nat): string
    requires n <= 64
  {
    if n == 0 then "" else Digits(n - 1) + [Digit(n - 1)]
  }

  lemma FirstDigits()
    ensures Digits(16) == "ABCDEFGHIJKLMNOP"
  {
    assert Digits(8) == "ABCDEFGH";
  }

  lemma DigitsTo32()
    ensures Digits(32) == "ABCDEFGHIJKLMNOPQRSTUVWXYZabcdef"
  {
    FirstDigits();
    assert Digits(24) == "ABCDEFGHIJKLMNOPQRSTUVWX";
  }

  lemma DigitsTo48()
    ensures Digits(48) == "ABCDEFGHIJKLMNOPQRSTUVWXYZabcdefghijklmnopqrstuv"
  {
    DigitsTo32();
    assert Digits(40) == "ABCDEFGHIJKLMNOPQRSTUVWXYZabcdefghijklmn";
  }

  lemma AllDigits()
    ensures Digits(64) == ALPHABET
  {
    DigitsTo48();
    assert Digits(56) == "ABCDEFGHIJKLMNOPQRSTUVWXYZabcdefghijklmnopqrstuvwxyz0123";
  }

  lemma {:induction false} DigitAt(n: nat, i: Sextet)
    requires i < n <= 64
    ensures i < |Digits(n)| == n && Digits(n)[i] == Digit(i)
  {
    hide Digit;
    if i < n - 1 {
      DigitAt(n - 1, i);
    } else if n > 1 {
      DigitAt(n - 1, n - 2);
    }
  }

  lemma DigitRoundTrip(i: Sextet)
    ensures DigitValue(Digit(i)) == i
  {
  }

  function Encode(bytes: seq<Octet>): string {
    var s := ToSextets(bytes);
    seq(|s|, i requires 0 <= i < |s| => Digit(s[i]))
  }

  function Decode(text: string): seq<Octet> {
    FromSextets(seq(|text|, i requires 0 <= i < |text| => DigitValue(text[i])))
  }

  /** Every character of an encoding is the letter of the alphabet that its sextet names. */
  lemma EncodedInAlphabet(bytes: seq<Octet>, i: nat)
    requires i < |Encode(bytes)|
    ensures |ALPHABET| == 64 && i < |ToSextets(bytes)| && Encode(bytes)[i] == ALPHABET[ToSextets(bytes)[i]]
  {
    hide Digit, Digits;
    AllDigits();
    DigitAt(64, ToSextets(bytes)[i]);
  }

  /** Every byte sequence, of any length, is recovered from its encoding. */
  lemma Base64RoundTrip(bytes: seq<Octet>)
    ensures Decode(Encode(bytes)) == bytes
  {
    var s, text := ToSextets(bytes), Encode(bytes);
    forall i | 0 <= i < |s| ensures DigitValue(text[i]) == s[i] {
      DigitRoundTrip(s[i]);
    }
    var back := seq(|text|, i requires 0 <= i < |text| => DigitValue(text[i]));
    assert back == s;
    SextetRoundTrip(bytes);
  }

  // ---------- The generator ----------

  function IdOf(prefix: string, n: nat): string {
    prefix + Encode(LittleEndian(n, 8))
  }

  /** The counter value can be decoded from the id. */
  lemma IdRecoversCounter(prefix: string, n: nat)
    requires n < U64
    ensures prefix <= IdOf(prefix, n)
    ensures FromLittleEndian(Decode(IdOf(prefix, n)[|prefix|..])) == n
  {
    var bytes := LittleEndian(n, 8);
    assert IdOf(prefix, n)[|prefix|..] == Encode(bytes);
    Base64RoundTrip(bytes);
    assert Power256(8) == U64 by {
      assert Power256(2) == 0x1_0000;
      assert Power256(4) == 0x1_0000_0000;
      assert Power256(6) == 0x1_0000_0000_0000;
    }
    LittleEndianRoundTrip(n, 8);
  }

  class Generator {
    var counter: nat
    const prefix: string

    constructor (prefix: string)
      ensures counter == 0 && this.prefix == prefix
    {
      counter, this.prefix := 0, prefix;
    }

    /** `generate`: an atomic fetch-and-add that wraps around. */
    method Generate() returns (id: string)
      requires counter < U64
      modifies this
      ensures id == IdOf(prefix, old(counter))
      ensures counter == (old(counter) + 1) % U64
    {
      var n := counter;
      counter := (counter + 1) % U64;
      var encoded := Encode(LittleEndian(n, 8));
      if prefix == "" {
        id := encoded;
      } else {
        id := prefix + encoded;
      }
    }

    /** A run of calls: the fetch-and-adds of concurrent callers happen one after the other. */
    method GenerateMany(calls: nat) returns (ids: seq<string>)
      requires counter < U64
      modifies this
      ensures counter == (old(counter) + calls) % U64
      ensures |ids| == calls && forall i :: 0 <= i < calls ==> ids[i] == IdOf(prefix, (old(counter) + i) % U64)
    {
      hide IdOf;
      ids := [];
      for i := 0 to calls
        invariant counter == (old(counter) + i) % U64
        invariant |ids| == i && forall k :: 0 <= k < i ==> ids[k] == IdOf(prefix, (old(counter) + k) % U64)
      {
        var id := Generate();
        ids := ids + [id];
      }
    }
  }

  /** Of any 2^64 consecutive calls, no two return the same id, and 2^64 is exact: the next call
      repeats the first. */
  lemma IdsRepeatExactlyAfterU64(prefix: string, start: nat, i: nat, j: nat)
    requires i < j <= i + U64
    ensures IdOf(prefix, (start + i) % U64) == IdOf(prefix, (start + j) % U64) <==> j == i + U64
  {
    hide IdOf;
    var a, b := (start + i) % U64, (start + j) % U64;
    IdRecoversCounter(prefix, a);
    IdRecoversCounter(prefix, b);
    Residues(start + i, j - i);
  }

  lemma Residues(x: nat, d: nat)
    requires 0 < d <= U64
    ensures x % U64 == (x + d) % U64 <==> d == U64
  {
  }
}
