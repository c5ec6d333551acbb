/** One-time passwords of RFC 4226 and RFC 6238. */
module Totp {
  import opened Prelude
  import Decimal

  const PERIOD: nat := 30
  const WINDOW: int := 1
  const DIGITS: nat := 6
  const TWO64: nat := 0x1_0000_0000_0000_0000
  const INT64_MAX: int := 0x7FFF_FFFF_FFFF_FFFF

  type Mac = m: seq<Byte> | |m| == 20 witness seq(20, _ => 0)

  // HMAC-SHA1 of a message under a key.
  type Hmac = (seq<Byte>, seq<Byte>) -> Mac

  /** binary.BigEndian.Uint32 */
  function Uint32(b0: int, b1: int, b2: int, b3: int): int {
    b0 * 0x100_0000 + b1 * 0x1_0000 + b2 * 0x100 + b3
  }

  // ---- the standard ----

  /** Section 5.3 of RFC 4226: the low four bits of the last byte give an offset, and the four bytes found there, with
      the top bit dropped, give a number. */
  function Truncate(mac: Mac): (n: nat)
    ensures n < 0x8000_0000
  {
    var offset := mac[19] % 16;
    Uint32(mac[offset] % 128, mac[offset + 1], mac[offset + 2], mac[offset + 3])
  }

  function Hotp(mac: Mac): nat {
    Truncate(mac) % 1_000_000
  }

  function Pow10(n: nat): nat {
    if n == 0 then 1 else 10 * Pow10(n - 1)
  }

  /** binary.BigEndian.PutUint64 into `width` bytes. */
  function BigEndian(n: nat, width: nat): (bytes: seq<Byte>)
    ensures |bytes| == width
  {
    if width == 0 then [] else BigEndian(n / 256, width - 1) + [n % 256]
  }

  function Number(bytes: seq<Byte>): nat {
    if bytes == [] then 0 else 256 * Number(bytes[..|bytes| - 1]) + bytes[|bytes| - 1]
  }

  function Pow256(n: nat): nat {
    if n == 0 then 1 else 256 * Pow256(n - 1)
  }

  lemma {:induction false} BigEndianReadsBack(n: nat, width: nat)
    requires n < Pow256(width)
    ensures Number(BigEndian(n, width)) == n
    decreases width
  {
    if width > 0 {
      BigEndianReadsBack(n / 256, width - 1);
      assert BigEndian(n, width)[..width - 1] == BigEndian(n / 256, width - 1);
    }
  }

  lemma EightBytes()
    ensures Pow256(4) == 0x1_0000_0000 && Pow256(8) == TWO64
  {
    assert Pow256(2) == 0x1_0000;
    assert Pow256(6) == 0x1_0000_0000_0000;
  }

  /** Different counters are different messages to the MAC. */
  lemma CounterBytesAreInjective(c: nat, d: nat)
    requires c < TWO64 && d < TWO64 && BigEndian(c, 8) == BigEndian(d, 8)
    ensures c == d
  {
    EightBytes();
    BigEndianReadsBack(c, 8);
    BigEndianReadsBack(d, 8);
  }

  lemma NumberOfFour(b: seq<Byte>)
    requires |b| == 4
    ensures Number(b) == b[0] as int * 0x100_0000 + b[1] as int * 0x1_0000 + b[2] as int * 0x100 + b[3] as int
  {
    assert b[..3][..2] == b[..2] && b[..2][..1] == b[..1] && b[..1][..0] == [];
    assert Number(b[..1]) == b[0] as int;
    assert Number(b[..2]) == 256 * Number(b[..1]) + b[1] as int;
    assert Number(b[..3]) == 256 * Number(b[..2]) + b[2] as int;
  }

  lemma NumberOfEight(b: seq<Byte>)
    requires |b| == 8
    ensures Number(b) ==
            (b[0] as int * 0x100_0000 + b[1] as int * 0x1_0000 + b[2] as int * 0x100 + b[3] as int) * 0x1_0000_0000
            + (b[4] as int * 0x100_0000 + b[5] as int * 0x1_0000 + b[6] as int * 0x100 + b[7] as int)
  {
    NumberOfFour(b[..4]);
    assert b[..7][..6] == b[..6] && b[..6][..5] == b[..5] && b[..5][..4] == b[..4];
    assert Number(b[..5]) == 256 * Number(b[..4]) + b[4] as int;
    assert Number(b[..6]) == 256 * Number(b[..5]) + b[5] as int;
    assert Number(b[..7]) == 256 * Number(b[..6]) + b[6] as int;
  }

  /** The message is the counter's eight bytes, the most significant first. */
  lemma CounterMessage(c: nat)
    requires c < TWO64
    ensures var b := BigEndian(c, 8);
            c == (b[0] as int * 0x100_0000 + b[1] as int * 0x1_0000 + b[2] as int * 0x100 + b[3] as int) * 0x1_0000_0000
                 + (b[4] as int * 0x100_0000 + b[5] as int * 0x1_0000 + b[6] as int * 0x100 + b[7] as int)
  {
    EightBytes();
    BigEndianReadsBack(c, 8);
    NumberOfEight(BigEndian(c, 8));
  }

  // ---- the code ----

  /** The code's masks are remainders. */
  lemma MasksAreRemainders(word: bv32)
    ensures word & 0x7fff_ffff == word % 0x8000_0000
    ensures word & 0x0f == word % 16
  {}

  lemma MaskDropsTheTopBit(b0: Byte, b1: Byte, b2: Byte, b3: Byte)
    ensures Uint32(b0, b1, b2, b3) % 0x8000_0000 == Uint32(b0 % 128, b1, b2, b3)
  {
    var low := Uint32(b0 % 128, b1, b2, b3);
    assert b0 / 128 == 0 || b0 / 128 == 1;
    assert Uint32(b0, b1, b2, b3) == b0 / 128 * 0x8000_0000 + low;
  }

  /** The loop that raises ten to the number of digits. */
  method Modulus() returns (mod: nat)
    ensures mod == 1_000_000
  {
    mod := 1;
    for i := 0 to DIGITS
      invariant mod == Pow10(i)
    {
      mod := mod * 10;
    }
    assert Pow10(DIGITS) == 1_000_000 by { assert Pow10(3) == 1_000; }
  }

  /** Dynamic truncation; the masks 0x0f and 0x7fffffff are remainders (MasksAreRemainders). */
  method Truncated(hash: Mac) returns (number: nat)
    ensures number == Truncate(hash)
    ensures var o := hash[19] % 16;
            number == (hash[o] % 128) as int * 16_777_216 + hash[o + 1] as int * 65_536 + hash[o + 2] as int * 256
                      + hash[o + 3] as int
  {
    var offset := hash[|hash| - 1] % 16;
    MaskDropsTheTopBit(hash[offset], hash[offset + 1], hash[offset + 2], hash[offset + 3]);
    number := Uint32(hash[offset], hash[offset + 1], hash[offset + 2], hash[offset + 3]) % 0x8000_0000;
  }

  method GenerateHOTP(secret: seq<Byte>, counter: nat, hmac: Hmac) returns (code: nat)
    requires counter < TWO64
    ensures code == Hotp(hmac(secret, BigEndian(counter, 8)))
    ensures var mac := hmac(secret, BigEndian(counter, 8));
            var o := mac[19] % 16;
            code == ((mac[o] % 128) as int * 16_777_216 + mac[o + 1] as int * 65_536 + mac[o + 2] as int * 256
                     + mac[o + 3] as int) % 1_000_000
  {
    var hash := hmac(secret, BigEndian(counter, 8));
    var number := Truncated(hash);
    var mod := Modulus();
    code := number % mod;
  }

  function Zeros(n: nat): (s: string)
    ensures |s| == n && forall i :: 0 <= i < n ==> s[i] == '0'
  {
    seq(n, _ => '0')
  }

  /** fmt.Sprintf("%0*d", width, n) */
  function Padded(n: nat, width: nat): string {
    var digits := Decimal.Print(n);
    if |digits| >= width then digits else Zeros(width - |digits|) + digits
  }

  lemma {:induction false} DigitCount(n: nat, width: nat)
    requires width > 0 && n < Pow10(width)
    ensures |Decimal.DigitsOf(n)| <= width
    decreases width
  {
    if n >= 10 { DigitCount(n / 10, width - 1); }
  }

  lemma {:induction false} LeadingZeros(zeros: string, digits: string)
    requires forall i :: 0 <= i < |zeros| ==> zeros[i] == '0'
    requires forall i :: 0 <= i < |digits| ==> Decimal.IsDigit(digits[i])
    ensures forall i :: 0 <= i < |zeros + digits| ==> Decimal.IsDigit((zeros + digits)[i])
    ensures Decimal.ReadNat(zeros + digits) == Decimal.ReadNat(digits)
    decreases |zeros| + |digits|
  {
    var s := zeros + digits;
    if digits != "" {
      assert s[..|s| - 1] == zeros + digits[..|digits| - 1];
      LeadingZeros(zeros, digits[..|digits| - 1]);
    } else if zeros != "" {
      assert s == zeros && s[..|s| - 1] == zeros[..|zeros| - 1] + "";
      LeadingZeros(zeros[..|zeros| - 1], "");
    }
  }

  /** Every code is printed as six digits that read back as the code. */
  lemma SixDigits(mac: Mac)
    ensures var text := Padded(Hotp(mac), DIGITS);
            && |text| == 6 && (forall i :: 0 <= i < 6 ==> Decimal.IsDigit(text[i]))
            && Decimal.ReadNat(text) == Hotp(mac)
  {
    var n := Hotp(mac);
    var digits := Decimal.Print(n);
    assert Pow10(6) == 1_000_000 by { assert Pow10(3) == 1_000; }
    DigitCount(n, 6);
    Decimal.ReadsBack(n);
    if |digits| < 6 { LeadingZeros(Zeros(6 - |digits|), digits); }
  }

  /** uint64(t.Unix()) / TOTPPeriod; the conversion wraps. */
  function Counter(t: int): (c: nat)
    ensures c < TWO64
  {
    (t % TWO64) / PERIOD
  }

  /** Section 4.2 of RFC 6238: from the epoch on, the whole periods elapsed. */
  lemma CounterIsTheFloor(t: nat)
    requires t <= INT64_MAX
    ensures Counter(t) * 30 <= t < (Counter(t) + 1) * 30
  {}

  /** Before the epoch the conversion to an unsigned number adds two to the 64th. */
  lemma CounterWraps(t: int)
    requires -INT64_MAX - 1 <= t < 0
    ensures Counter(t) == (t + 0x1_0000_0000_0000_0000) / 30
  {
    assert t % TWO64 == t + TWO64;
  }

  function CodeOf(secret: seq<Byte>, counter: nat, hmac: Hmac): string {
    Padded(Hotp(hmac(secret, BigEndian(counter, 8))), DIGITS)
  }

  /** The code of a counter is six digits: the truncated MAC of the counter's bytes under the secret, modulo a million. */
  lemma CodeIs(secret: seq<Byte>, counter: nat, hmac: Hmac)
    ensures var code := CodeOf(secret, counter, hmac);
            var mac := hmac(secret, BigEndian(counter, 8));
            var o := mac[19] % 16;
            && |code| == 6 && (forall i :: 0 <= i < 6 ==> '0' <= code[i] <= '9')
            && Decimal.ReadNat(code) ==
               ((mac[o] % 128) as int * 16_777_216 + mac[o + 1] as int * 65_536 + mac[o + 2] as int * 256
                + mac[o + 3] as int) % 1_000_000
  {
    SixDigits(hmac(secret, BigEndian(counter, 8)));
  }

  method GenerateTOTP(secret: Option<seq<Byte>>, t: int, hmac: Hmac) returns (code: Option<string>)
    ensures code == if secret.None? then None else Some(CodeOf(secret.value, Counter(t), hmac))
  {
    if secret.None? { return None; }
    var counter := (t % TWO64) / PERIOD;
    var number := GenerateHOTP(secret.value, counter, hmac);
    return Some(Padded(number, DIGITS));
  }

  function Nearby(t: int, periods: int): nat {
    Counter(t + periods * PERIOD)
  }

  predicate MatchesAt(secret: seq<Byte>, code: string, t: int, periods: int, hmac: Hmac) {
    CodeOf(secret, Nearby(t, periods), hmac) == code
  }

  predicate Accepts(secret: seq<Byte>, code: string, t: int, hmac: Hmac) {
    exists j :: -WINDOW <= j <= WINDOW && MatchesAt(secret, code, t, j, hmac)
  }

  /** `secret` is what base32 decoding gives; `t` is in Unix seconds. */
  method ValidateTOTP(secret: Option<seq<Byte>>, code: string, t: int, hmac: Hmac) returns (ok: bool)
    ensures ok <==> secret.Some? && Accepts(secret.value, code, t, hmac)
  {
    for i := -WINDOW to WINDOW + 1
      invariant secret.Some? ==> forall j :: -WINDOW <= j < i ==> !MatchesAt(secret.value, code, t, j, hmac)
    {
      var expected := GenerateTOTP(secret, t + i * PERIOD, hmac);
      if expected.Some? && expected.value == code {
        assert MatchesAt(secret.value, code, t, i, hmac);
        return true;
      }
    }
    return false;
  }

  // ---- when a code is accepted ----

  function Checked(t: int): set<nat> {
    {Nearby(t, -1), Nearby(t, 0), Nearby(t, 1)}
  }

  lemma AcceptsChecked(secret: seq<Byte>, code: string, t: int, hmac: Hmac)
    ensures Accepts(secret, code, t, hmac) <==> exists c :: c in Checked(t) && CodeOf(secret, c, hmac) == code
  {
    if Accepts(secret, code, t, hmac) {
      var j :| -WINDOW <= j <= WINDOW && MatchesAt(secret, code, t, j, hmac);
      assert j == -1 || j == 0 || j == 1;
      assert Nearby(t, j) in Checked(t);
    }
    if c :| c in Checked(t) && CodeOf(secret, c, hmac) == code {
      var j := if c == Nearby(t, -1) then -1 else if c == Nearby(t, 0) then 0 else 1;
      assert MatchesAt(secret, code, t, j, hmac);
    }
  }

  /** A counter is checked in its own period, the one before and the one after, and at no other time. */
  lemma CheckedExactlyInWindow(c: nat, t: int)
    requires PERIOD * (c + 2) <= INT64_MAX && -INT64_MAX + PERIOD <= t <= INT64_MAX - PERIOD
    ensures c in Checked(t) <==> 30 * (c - 1) <= t < 30 * (c + 2)
  {
    CounterIs(c, t - PERIOD);
    CounterIs(c, t);
    CounterIs(c, t + PERIOD);
  }

  lemma CounterIs(c: nat, t: int)
    requires PERIOD * (c + 2) <= INT64_MAX && -INT64_MAX <= t <= INT64_MAX
    ensures Counter(t) == c <==> PERIOD * c <= t < PERIOD * (c + 1)
  {
    if t < 0 { assert t % TWO64 == t + TWO64; }
  }

  /** A counter's code is accepted throughout that time and, unless another checked counter has the same code, at no
      other. */
  lemma AcceptedExactlyInWindow(secret: seq<Byte>, c: nat, t: int, hmac: Hmac)
    requires PERIOD * (c + 2) <= INT64_MAX && -INT64_MAX + PERIOD <= t <= INT64_MAX - PERIOD
    ensures Accepts(secret, CodeOf(secret, c, hmac), t, hmac) <==>
              || PERIOD * (c - 1) <= t < PERIOD * (c + 2)
              || exists d :: d in Checked(t) && d != c && CodeOf(secret, d, hmac) == CodeOf(secret, c, hmac)
  {
    CheckedExactlyInWindow(c, t);
    AcceptsChecked(secret, CodeOf(secret, c, hmac), t, hmac);
  }

  /** Two counters have the same code exactly when their truncated values agree modulo a million. */
  lemma CodesCollideExactly(m: Mac, n: Mac)
    ensures Padded(Hotp(m), DIGITS) == Padded(Hotp(n), DIGITS) <==> Truncate(m) % 1_000_000 == Truncate(n) % 1_000_000
  {
    SixDigits(m);
    SixDigits(n);
  }
}
