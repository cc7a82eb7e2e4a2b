/** auth/totp.go: HOTP truncation (section 5.3 of RFC 4226) and the TOTP window (section 5.2 of RFC 6238). */
module Totp {
  import opened Models
  import opened Text

  /** A 20-byte MAC. */
  type Digest = s: seq<int> | |s| == 20 && forall i | 0 <= i < |s| :: 0 <= s[i] < 256
    witness [0, 0, 0, 0, 0, 0, 0, 0, 0, 0, 0, 0, 0, 0, 0, 0, 0, 0, 0, 0]

  /** HMAC-SHA-1 under a key, on the eight bytes of the counter. */
  type Mac = (string, seq<int>) -> Digest

  const STEP := 30
  const TWO64 := 0x1_0000_0000_0000_0000

  // ---------------------------------------------------------------- bytes and digits

  /** `n` as `len` bytes, most significant first. */
  function BigEndian(n: nat, len: nat): (b: seq<int>)
    ensures |b| == len
  {
    if len == 0 then [] else BigEndian(n / 256, len - 1) + [n % 256]
  }

  function FromBigEndian(b: seq<int>): int {
    if b == [] then 0 else 256 * FromBigEndian(b[..|b| - 1]) + b[|b| - 1]
  }

  function Pow(b: nat, e: nat): nat {
    if e == 0 then 1 else b * Pow(b, e - 1)
  }

  /** The counter block determines the counter. */
  lemma {:induction false} BigEndianRoundTrip(n: nat, len: nat)
    requires n < Pow(256, len)
    ensures FromBigEndian(BigEndian(n, len)) == n
  {
    if len > 0 {
      BigEndianRoundTrip(n / 256, len - 1);
      assert BigEndian(n, len)[..len - 1] == BigEndian(n / 256, len - 1);
    }
  }

  /** `%0<len>d` for numbers that fit. */
  function Digits(v: nat, len: nat): (s: string)
    ensures |s| == len
    ensures forall i | 0 <= i < |s| :: '0' <= s[i] <= '9'
  {
    if len == 0 then "" else Digits(v / 10, len - 1) + [('0' as int + v % 10) as char]
  }

  function Value(s: string): int {
    if s == "" then 0 else 10 * Value(s[..|s| - 1]) + (s[|s| - 1] as int - '0' as int)
  }

  lemma {:induction false} DigitsRoundTrip(v: nat, len: nat)
    requires v < Pow(10, len)
    ensures Value(Digits(v, len)) == v
  {
    if len > 0 {
      DigitsRoundTrip(v / 10, len - 1);
      assert Digits(v, len)[..len - 1] == Digits(v / 10, len - 1);
    }
  }

  // ---------------------------------------------------------------- HOTP

  /** The truncated value: four bytes at the offset given by the last nibble, without the top bit. */
  function Truncate(sum: Digest): int {
    var off := sum[|sum| - 1] % 16;
    (sum[off] % 128) * 0x100_0000 + sum[off + 1] * 0x1_0000 + sum[off + 2] * 0x100 + sum[off + 3]
  }

  function Hotp(mac: Mac, key: string, counter: nat): (code: string) {
    Digits(Truncate(mac(key, BigEndian(counter, 8))) % 1000000, 6)
  }

  /** The read stays inside the MAC, and the value is its four bytes, big-endian, modulo 2^31. */
  lemma TruncateIsLow31Bits(sum: Digest)
    ensures var off := sum[19] % 16;
            && off + 4 <= |sum|
            && Truncate(sum) == FromBigEndian(sum[off..off + 4]) % 0x8000_0000
            && 0 <= Truncate(sum) < 0x8000_0000
  {
    var off := sum[19] % 16;
    var b := sum[off..off + 4];
    FourBytes(b[0], b[1], b[2], b[3]);
    assert b == [b[0], b[1], b[2], b[3]];
    assert FromBigEndian(b) == (b[0] / 128) * 0x8000_0000 + Truncate(sum);
  }

  lemma FourBytes(w: int, x: int, y: int, z: int)
    ensures FromBigEndian([w, x, y, z]) == ((w * 256 + x) * 256 + y) * 256 + z
  {
    assert [w, x, y, z][..3] == [w, x, y] && [w, x, y][..2] == [w, x] && [w, x][..1] == [w] && [w][..0] == [];
    assert FromBigEndian([w, x]) == 256 * FromBigEndian([w]) + x;
    assert FromBigEndian([w, x, y]) == 256 * FromBigEndian([w, x]) + y;
  }

  /** A code is six digits that read back as the truncated value modulo 10^6. */
  lemma CodeIsSixDigits(mac: Mac, key: string, counter: nat)
    ensures var code := Hotp(mac, key, counter);
            && |code| == 6 && (forall i | 0 <= i < 6 :: '0' <= code[i] <= '9')
            && Value(code) == Truncate(mac(key, BigEndian(counter, 8))) % 1000000
            && TrimSpace(code) == code
  {
    var v := Truncate(mac(key, BigEndian(counter, 8))) % 1000000;
    assert Pow(10, 6) == 1000000 by {
      assert Pow(10, 3) == 1000 && Pow(10, 6) == 10 * (10 * (10 * Pow(10, 3)));
    }
    DigitsRoundTrip(v, 6);
  }

  // ---------------------------------------------------------------- TOTP

  /** `uint64(x)`. */
  function U64(x: int): (u: nat)
    ensures 0 <= x < TWO64 ==> u == x
  {
    x % TWO64
  }

  function CounterAt(t: int): nat {
    U64(t) / STEP
  }

  /** The counters tried at Unix time `t`. */
  function Tried(t: int): seq<nat> {
    [U64(CounterAt(t) - 1), U64(CounterAt(t)), U64(CounterAt(t) + 1)]
  }

  predicate Accepts(mac: Mac, key: string, code: string, t: int) {
    key != "" && exists c | c in Tried(t) :: Hotp(mac, key, c) == TrimSpace(code)
  }

  /** `key` is the decoded secret, or none when it is not Base32. */
  method VerifyTOTP(mac: Mac, key: Option<string>, code: string, t: int) returns (ok: bool)
    ensures ok <==> key.Some? && Accepts(mac, key.value, code, t)
  {
    if key.None? || key.value == "" {
      return false;
    }
    var trimmed := TrimSpace(code);
    var offsets := [-1, 0, 1];
    assert forall i | 0 <= i < 3 :: U64(CounterAt(t) + offsets[i]) == Tried(t)[i];
    for i := 0 to |offsets|
      invariant forall k | 0 <= k < i :: Hotp(mac, key.value, Tried(t)[k]) != trimmed
    {
      if Hotp(mac, key.value, U64(CounterAt(t) + offsets[i])) == trimmed {
        assert Tried(t)[i] in Tried(t);
        return true;
      }
    }
    return false;
  }

  predicate UnixTime(t: int) {
    0 <= t < 0x8000_0000_0000_0000
  }

  /** The counter of `s` is tried at `t` exactly when their steps are neighbours. */
  lemma TriedIff(s: int, t: int)
    requires UnixTime(s) && UnixTime(t)
    ensures CounterAt(s) in Tried(t) <==> -1 <= s / 30 - t / 30 <= 1
  {
    assert CounterAt(s) == s / 30 && CounterAt(t) == t / 30;
    if t / 30 == 0 {
      assert U64(-1) == TWO64 - 1;
    }
  }

  /** A code made at `s` is accepted at every time at most one step away. */
  lemma WithinOneStepIsAccepted(mac: Mac, key: string, s: int, t: int)
    requires UnixTime(s) && UnixTime(t) && key != "" && -30 <= t - s <= 30
    ensures Accepts(mac, key, Hotp(mac, key, CounterAt(s)), t)
  {
    TriedIff(s, t);
    CodeIsSixDigits(mac, key, CounterAt(s));
  }

  /** Two steps away the counter of `s` is not tried, and the block hashed for it differs from every one tried. */
  lemma TwoStepsAwayIsNotTried(s: int, t: int)
    requires UnixTime(s) && UnixTime(t) && (t - s >= 60 || s - t >= 60)
    ensures CounterAt(s) !in Tried(t)
    ensures forall c | c in Tried(t) :: BigEndian(c, 8) != BigEndian(CounterAt(s), 8)
  {
    TriedIff(s, t);
    assert Pow(256, 8) == TWO64 by {
      assert Pow(256, 2) == 0x1_0000 && Pow(256, 4) == 0x1_0000_0000;
      assert Pow(256, 6) == 256 * (256 * Pow(256, 4)) && Pow(256, 8) == 256 * (256 * Pow(256, 6));
    }
    BigEndianRoundTrip(CounterAt(s), 8);
    forall c | c in Tried(t) ensures BigEndian(c, 8) != BigEndian(CounterAt(s), 8) {
      BigEndianRoundTrip(c, 8);
    }
  }

  /** Between one and two steps it depends on where in its step `s` lies. */
  lemma BetweenOneAndTwoSteps(s: int, d: int)
    requires UnixTime(s) && UnixTime(s + d) && 30 < d < 60
    ensures CounterAt(s) in Tried(s + d) <==> s % 30 + d < 60
  {
    TriedIff(s, s + d);
  }
}
