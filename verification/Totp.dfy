/** Time-based one-time passwords. */
module Totp {
  import opened Numbers

  const MODULUS := 1_000_000
  const TICKS_PER_SECOND := 10_000_000
  /** Three minutes. */
  const TIME_STEP := 180 * TICKS_PER_SECOND
  const WINDOW := 2
  const TWO_64 := 0x1_0000_0000_0000_0000

  // ---- operations on bits ----

  function Power2(e: nat): (p: nat)
    ensures p >= 1
  {
    if e == 0 then 1 else 2 * Power2(e - 1)
  }

  function BitAnd(a: nat, b: nat): nat {
    if a == 0 || b == 0 then 0 else 2 * BitAnd(a / 2, b / 2) + (if a % 2 == 1 && b % 2 == 1 then 1 else 0)
  }

  function BitOr(a: nat, b: nat): nat
    decreases a + b
  {
    if a == 0 then b else if b == 0 then a
    else 2 * BitOr(a / 2, b / 2) + (if a % 2 == 1 || b % 2 == 1 then 1 else 0)
  }

  /** A shift of a 32-bit integer that loses no bit and does not reach the sign. */
  function ShiftLeft(a: nat, n: nat): nat
    requires a * Power2(n) < 0x8000_0000
  {
    a * Power2(n)
  }

  lemma AndOfOddMask(a: nat, half: nat)
    requires half > 0
    ensures BitAnd(a, 2 * half - 1) == 2 * BitAnd(a / 2, half - 1) + a % 2
  {
    var mask := 2 * half - 1;
    assert mask / 2 == half - 1 && mask % 2 == 1;
  }

  /** Masking with ones keeps the low bits. */
  lemma {:induction false} AndOfOnes(a: nat, e: nat)
    ensures BitAnd(a, Power2(e) - 1) == a % Power2(e)
  {
    if e > 0 {
      var half := Power2(e - 1);
      assert Power2(e) == 2 * half;
      hide BitAnd, Power2;
      AndOfOddMask(a, half);
      AndOfOnes(a / 2, e - 1);
      HalfRemainder(a, half);
    }
  }

  lemma HalfRemainder(a: nat, m: nat)
    requires m > 0
    ensures a % (2 * m) == 2 * (a / 2 % m) + a % 2
  {
    var q, r := a / 2 / m, a / 2 % m;
    assert a == 2 * (a / 2) + a % 2 && a / 2 == q * m + r;
    var low := 2 * r + a % 2;
    assert a == q * (2 * m) + low && 0 <= low < 2 * m;
    UniqueRemainder(a, 2 * m, q, low);
  }

  /** Joining numbers that share no bit adds them. */
  lemma {:induction false} OrOfDisjoint(a: nat, b: nat, e: nat)
    requires b < Power2(e)
    ensures BitOr(a * Power2(e), b) == a * Power2(e) + b
  {
    if e > 0 && a > 0 && b > 0 {
      var high := a * Power2(e);
      assert high == 2 * (a * Power2(e - 1));
      OrOfDisjoint(a, b / 2, e - 1);
    }
  }

  // ---- truncation ----

  function BigEndian(bytes: Bytes): nat {
    if bytes == [] then 0 else 256 * BigEndian(bytes[..|bytes| - 1]) + bytes[|bytes| - 1]
  }

  lemma Powers()
    ensures Power2(4) == 0x10 && Power2(7) == 0x80 && Power2(8) == 0x100 && Power2(16) == 0x1_0000
            && Power2(24) == 0x100_0000
  {
    assert Power2(12) == 16 * Power2(8);
    assert Power2(16) == 16 * Power2(12);
    assert Power2(20) == 16 * Power2(16);
    assert Power2(24) == 16 * Power2(20);
  }

  lemma Masks(b: byte)
    ensures BitAnd(b, 0xf) == b % 16 && BitAnd(b, 0x7f) == b % 128 && BitAnd(b, 0xff) == b
    ensures Power2(8) == 0x100 && Power2(16) == 0x1_0000 && Power2(24) == 0x100_0000
  {
    hide BitAnd, Power2;
    Powers();
    AndOfOnes(b, 4);
    AndOfOnes(b, 7);
    AndOfOnes(b, 8);
  }

  /** The offset is at most 15, so the four bytes are within a hash of 20. */
  function Offset(hash: Bytes): (offset: nat)
    requires |hash| == 20
    ensures offset <= 15 && offset == hash[19] % 16
  {
    Masks(hash[19]);
    BitAnd(hash[|hash| - 1], 0xf)
  }

  function BinaryCode(hash: Bytes): nat
    requires |hash| == 20
  {
    var o := Offset(hash);
    Masks(hash[o]);
    Masks(hash[o + 1]);
    Masks(hash[o + 2]);
    BitOr(BitOr(BitOr(ShiftLeft(BitAnd(hash[o], 0x7f), 24), ShiftLeft(BitAnd(hash[o + 1], 0xff), 16)),
                ShiftLeft(BitAnd(hash[o + 2], 0xff), 8)),
          BitAnd(hash[o + 3], 0xff))
  }

  lemma JoinBytes(a: nat, b: nat, c: nat, d: nat)
    requires a < 128 && b < 256 && c < 256 && d < 256
    ensures BitOr(BitOr(BitOr(a * 0x100_0000, b * 0x1_0000), c * 0x100), d) ==
            a * 0x100_0000 + b * 0x1_0000 + c * 0x100 + d
  {
    hide BitOr, Power2;
    Powers();
    OrOfDisjoint(a, b * 0x1_0000, 24);
    OrOfDisjoint(a * 0x100 + b, c * 0x100, 16);
    OrOfDisjoint(a * 0x1_0000 + b * 0x100 + c, d, 8);
  }

  /** Section 5.3 of RFC 4226: the 31-bit big-endian number at the offset that the low-order four
      bits of the last byte give. */
  function DynamicTruncation(hash: Bytes): nat
    requires |hash| == 20
  {
    var offset := hash[19] % 16;
    BigEndian(hash[offset..offset + 4]) % 0x8000_0000
  }

  lemma FourBytes(b0: byte, b1: byte, b2: byte, b3: byte)
    ensures BigEndian([b0, b1, b2, b3]) == b0 as nat * 0x100_0000 + b1 as nat * 0x1_0000 + b2 as nat * 0x100 + b3 as nat
  {
    assert [b0][..0] == [] && BigEndian([b0]) == b0;
    assert [b0, b1][..1] == [b0] && BigEndian([b0, b1]) == b0 as nat * 0x100 + b1 as nat;
    assert [b0, b1, b2][..2] == [b0, b1];
    assert BigEndian([b0, b1, b2]) == b0 as nat * 0x1_0000 + b1 as nat * 0x100 + b2 as nat;
    assert [b0, b1, b2, b3][..3] == [b0, b1, b2];
  }

  lemma TopBitDropped(b: nat, rest: nat)
    requires b < 256 && rest < 0x100_0000
    ensures (b * 0x100_0000 + rest) % 0x8000_0000 == b % 128 * 0x100_0000 + rest
  {
    UniqueRemainder(b * 0x100_0000 + rest, 0x8000_0000, b / 128, b % 128 * 0x100_0000 + rest);
  }

  /** The code's truncation is the standard's, for every hash. */
  lemma TruncationIsStandard(hash: Bytes)
    requires |hash| == 20
    ensures BinaryCode(hash) == DynamicTruncation(hash)
  {
    hide BitAnd, BitOr, BigEndian, Power2;
    var o := Offset(hash);
    var b0, b1, b2, b3 := hash[o], hash[o + 1], hash[o + 2], hash[o + 3];
    Masks(b0);
    Masks(b1);
    Masks(b2);
    Masks(b3);
    JoinBytes(b0 % 128, b1, b2, b3);
    assert hash[o..o + 4] == [b0, b1, b2, b3];
    FourBytes(b0, b1, b2, b3);
    TopBitDropped(b0, b1 as nat * 0x1_0000 + b2 as nat * 0x100 + b3 as nat);
  }

  // ---- the hashed text ----

  function EightBytes(n: nat, width: nat): Bytes {
    if width == 0 then [] else EightBytes(n / 256, width - 1) + [n % 256]
  }

  /** The time step in network order. */
  function Counter(timestep: nat): Bytes {
    EightBytes(timestep, 8)
  }

  function Power256(e: nat): nat {
    if e == 0 then 1 else 256 * Power256(e - 1)
  }

  lemma {:induction false} CounterReadBack(n: nat, width: nat)
    requires n < Power256(width)
    ensures |EightBytes(n, width)| == width && BigEndian(EightBytes(n, width)) == n
  {
    if width > 0 {
      CounterReadBack(n / 256, width - 1);
      var bytes := EightBytes(n, width);
      assert bytes[..|bytes| - 1] == EightBytes(n / 256, width - 1);
    }
  }

  function Modified(input: Bytes, modifier: Bytes): Bytes {
    input + modifier
  }

  /** Different time steps, or different modifiers, give different texts to hash. */
  lemma HashedTextsDiffer(n: nat, m: nat, a: Bytes, b: Bytes)
    requires n < TWO_64 && m < TWO_64 && Modified(Counter(n), a) == Modified(Counter(m), b)
    ensures n == m && a == b
  {
    assert Power256(4) == 0x1_0000_0000;
    assert Power256(8) == 0x1_0000_0000 * Power256(4);
    CounterReadBack(n, 8);
    CounterReadBack(m, 8);
    assert Modified(Counter(n), a)[..8] == Counter(n) && Modified(Counter(m), b)[..8] == Counter(m);
    assert Modified(Counter(n), a)[8..] == a && Modified(Counter(m), b)[8..] == b;
  }

  lemma {:induction false} BigEndianIsInjective(a: Bytes, b: Bytes)
    requires |a| == |b| && BigEndian(a) == BigEndian(b)
    ensures a == b
    decreases |a|
  {
    if a != [] {
      var n := |a| - 1;
      BigEndianIsInjective(a[..n], b[..n]);
      assert a == a[..n] + [a[n]] && b == b[..n] + [b[n]];
    }
  }

  /** The text starts with a number of eight bytes, highest byte first, and ends with the modifier. */
  predicate IsText(text: Bytes, n: nat, modifier: Bytes) {
    |text| == 8 + |modifier| && BigEndian(text[..8]) == n && text[8..] == modifier
  }

  /** The text to hash is the one that starts with the step and ends with the modifier. */
  lemma TextIsStandard(n: nat, modifier: Bytes, text: Bytes)
    requires n < TWO_64
    ensures text == Modified(Counter(n), modifier) <==> IsText(text, n, modifier)
  {
    hide BigEndian;
    assert Power256(4) == 0x1_0000_0000;
    assert Power256(8) == 0x1_0000_0000 * Power256(4);
    CounterReadBack(n, 8);
    if IsText(text, n, modifier) {
      BigEndianIsInjective(text[..8], Counter(n));
      assert text == text[..8] + text[8..];
    }
    if text == Modified(Counter(n), modifier) {
      assert text[..8] == Counter(n) && text[8..] == modifier;
    }
  }

  method ApplyModifier(input: array<byte>, modifier: Bytes) returns (r: array<byte>)
    ensures r[..] == Modified(input[..], modifier)
    ensures modifier == [] ==> r == input
  {
    if modifier == [] {
      assert Modified(input[..], []) == input[..];
      return input;
    }
    var combined := new byte[input.Length + |modifier|];
    for i := 0 to input.Length
      invariant combined[..i] == input[..i]
    {
      combined[i] := input[i];
    }
    for i := 0 to |modifier|
      invariant combined[..input.Length] == input[..]
      invariant combined[input.Length..input.Length + i] == modifier[..i]
    {
      combined[input.Length + i] := modifier[i];
    }
    assert combined[..] == combined[..input.Length] + combined[input.Length..];
    return combined;
  }

  // ---- codes ----

  /** The keyed hash: any function to 20 bytes. */
  type Hmac = Bytes -> Bytes

  ghost predicate Hashes20(hmac: Hmac) {
    forall text :: |hmac(text)| == 20
  }

  function CodeOfHash(hash: Bytes): (code: nat)
    requires |hash| == 20
    ensures code < MODULUS
  {
    BinaryCode(hash) % MODULUS
  }

  function ComputeTotp(hmac: Hmac, timestep: nat, modifier: Bytes): (code: nat)
    requires |hmac(Modified(Counter(timestep), modifier))| == 20
    ensures code < MODULUS
  {
    CodeOfHash(hmac(Modified(Counter(timestep), modifier)))
  }

  /** The code is the last six digits of the standard's truncation of the hash, section 5.3 of RFC 4226. */
  lemma CodeIsStandard(hmac: Hmac, n: nat, modifier: Bytes, text: Bytes)
    requires n < 0x1_0000_0000_0000_0000 && IsText(text, n, modifier) && |hmac(text)| == 20
    ensures Modified(Counter(n), modifier) == text
    ensures ComputeTotp(hmac, n, modifier) == DynamicTruncation(hmac(text)) % 1_000_000
  {
    hide BigEndian, DynamicTruncation, BinaryCode;
    TextIsStandard(n, modifier, text);
    TruncationIsStandard(hmac(text));
  }

  // ---- time ----

  /** The signed number of the step a moment falls into; `ticks` counts from the epoch. */
  function StepOf(ticks: int): int {
    Quotient(ticks, TIME_STEP)
  }

  /** Conversion to an unsigned 64-bit number. */
  function Unsigned(step: int): nat {
    step % TWO_64
  }

  /** Moments of the calendar are less than 2^63 ticks from the epoch. */
  predicate IsMoment(ticks: int) {
    -0x8000_0000_0000_0000 <= ticks < 0x8000_0000_0000_0000
  }

  function GenerateCode(hmac: Hmac, ticks: int, modifier: Bytes): nat
    requires Hashes20(hmac)
  {
    ComputeTotp(hmac, Unsigned(StepOf(ticks)), modifier)
  }

  /** The steps whose codes are accepted at a moment. */
  predicate InWindow(now: int, timestep: nat) {
    exists i :: -WINDOW <= i <= WINDOW && timestep == StepAt(now, i)
  }

  function StepAt(now: int, i: int): nat {
    Unsigned(StepOf(now) + i)
  }

  ghost predicate Accepts(hmac: Hmac, now: int, code: int, modifier: Bytes)
    requires Hashes20(hmac)
  {
    exists i :: -WINDOW <= i <= WINDOW && ComputeTotp(hmac, StepAt(now, i), modifier) == code
  }

  /** A code is made for the number of whole steps of three minutes since the epoch. */
  lemma GeneratedCode(hmac: Hmac, ticks: nat, modifier: Bytes, text: Bytes)
    requires Hashes20(hmac) && IsMoment(ticks)
    requires IsText(text, ticks / 1_800_000_000, modifier)
    ensures GenerateCode(hmac, ticks, modifier) == DynamicTruncation(hmac(text)) % 1_000_000
  {
    hide ComputeTotp, BigEndian, DynamicTruncation;
    CodeIsStandard(hmac, ticks / 1_800_000_000, modifier, text);
  }

  /** A code is accepted when it is the standard's for one of the five steps around the present one. */
  lemma AcceptsIff(hmac: Hmac, now: int, code: int, modifier: Bytes)
    requires Hashes20(hmac)
    ensures var q, m := Quotient(now, 1_800_000_000), 0x1_0000_0000_0000_0000;
            Accepts(hmac, now, code, modifier) <==>
              exists text, n: nat ::
                && IsText(text, n, modifier) && n in {(q - 2) % m, (q - 1) % m, q % m, (q + 1) % m, (q + 2) % m}
                && code == DynamicTruncation(hmac(text)) % 1_000_000
  {
    hide ComputeTotp, BigEndian, DynamicTruncation, Quotient, Counter;
    var q, m := Quotient(now, 1_800_000_000), 0x1_0000_0000_0000_0000;
    if i :| -WINDOW <= i <= WINDOW && ComputeTotp(hmac, StepAt(now, i), modifier) == code {
      var n := StepAt(now, i);
      var text := Modified(Counter(n), modifier);
      TextIsStandard(n, modifier, text);
      CodeIsStandard(hmac, n, modifier, text);
      assert IsText(text, n, modifier);
    }
    forall text, n: nat | IsText(text, n, modifier) && n in {(q - 2) % m, (q - 1) % m, q % m, (q + 1) % m, (q + 2) % m}
      ensures exists i :: -WINDOW <= i <= WINDOW && ComputeTotp(hmac, StepAt(now, i), modifier) ==
                                                    DynamicTruncation(hmac(text)) % 1_000_000
    {
      CodeIsStandard(hmac, n, modifier, text);
      assert {StepAt(now, -2), StepAt(now, -1), StepAt(now, 0), StepAt(now, 1), StepAt(now, 2)} ==
          {(q - 2) % m, (q - 1) % m, q % m, (q + 1) % m, (q + 2) % m};
    }
  }

  method ValidateCode(hmac: Hmac, now: int, code: int, modifier: Bytes) returns (valid: bool)
    requires Hashes20(hmac)
    ensures valid <==> Accepts(hmac, now, code, modifier)
  {
    hide ComputeTotp, StepAt;
    var i := -2;
    while i <= 2
      invariant -2 <= i <= 3
      invariant forall j :: -2 <= j < i ==> ComputeTotp(hmac, StepAt(now, j), modifier) != code
    {
      var computed := ComputeTotp(hmac, StepAt(now, i), modifier);
      if computed == code {
        return true;
      }
      i := i + 1;
    }
    return false;
  }

  lemma QuotientsApart(a: nat, b: nat, m: nat, k: nat)
    requires m > 0 && a <= b
    ensures b <= a + k * m ==> b / m <= a / m + k
    ensures a + k * m <= b ==> a / m + k <= b / m
  {
    var q, r := a / m, a % m;
    assert a == q * m + r && a + k * m == (q + k) * m + r;
    UniqueRemainder(a + k * m, m, q + k, r);
    if b <= a + k * m {
      Monotone(b, a + k * m, m);
    }
    if a + k * m <= b {
      Monotone(a + k * m, b, m);
    }
  }

  /** Moments at most two steps of time apart, before or after the epoch, are at most two step
      numbers apart. */
  lemma StepsAreClose(t: int, u: int)
    requires t <= u <= t + WINDOW * TIME_STEP
    ensures 0 <= StepOf(u) - StepOf(t) <= WINDOW
  {
    if t >= 0 {
      QuotientsApart(t, u, TIME_STEP, WINDOW);
      Monotone(t, u, TIME_STEP);
    } else if u < 0 {
      QuotientsApart(-u, -t, TIME_STEP, WINDOW);
      Monotone(-u, -t, TIME_STEP);
    } else {
      StepsAcrossTheEpoch(-t, u);
    }
  }

  lemma StepsAcrossTheEpoch(before: nat, after: nat)
    requires before + after <= WINDOW * TIME_STEP
    ensures before / TIME_STEP + after / TIME_STEP <= WINDOW
  {
  }

  /** A code is accepted at every moment within six minutes of the one it was made at. */
  lemma AcceptedWithinSixMinutes(hmac: Hmac, made: int, now: int, modifier: Bytes)
    requires Hashes20(hmac) && -360 * TICKS_PER_SECOND <= now - made <= 360 * TICKS_PER_SECOND
    ensures Accepts(hmac, now, GenerateCode(hmac, made, modifier), modifier)
  {
    if made <= now {
      StepsAreClose(made, now);
    } else {
      StepsAreClose(now, made);
    }
    var i := StepOf(made) - StepOf(now);
    assert StepAt(now, i) == Unsigned(StepOf(made));
  }

  lemma StepsAreMoments(t: int)
    requires IsMoment(t)
    ensures -TWO_64 / 4 <= StepOf(t) <= TWO_64 / 4
  {
  }

  /** A step is in the window exactly when its number is at most two away. */
  lemma WindowIff(made: int, now: int)
    requires IsMoment(made) && IsMoment(now)
    ensures InWindow(now, Unsigned(StepOf(made))) <==> -WINDOW <= StepOf(made) - StepOf(now) <= WINDOW
  {
    StepsAreMoments(made);
    StepsAreMoments(now);
    var d := StepOf(made) - StepOf(now);
    if -WINDOW <= d <= WINDOW {
      assert StepAt(now, d) == Unsigned(StepOf(made));
    }
    forall i | -WINDOW <= i <= WINDOW && Unsigned(StepOf(made)) == StepAt(now, i) ensures i == d {
      SameUnsigned(StepOf(made), StepOf(now) + i);
    }
  }

  lemma SameUnsigned(a: int, b: int)
    requires -TWO_64 / 2 < a - b < TWO_64 / 2 && Unsigned(a) == Unsigned(b)
    ensures a == b
  {
  }

  /** Nine minutes or more after, or before, its making, a code's step is outside the window, for
      moments from the epoch on. */
  lemma OutsideAfterNineMinutes(made: int, now: int)
    requires IsMoment(made) && IsMoment(now) && made >= 0 && now >= 0
    requires now - made >= 540 * TICKS_PER_SECOND || made - now >= 540 * TICKS_PER_SECOND
    ensures !InWindow(now, Unsigned(StepOf(made)))
  {
    WindowIff(made, now);
    if made <= now {
      QuotientsApart(made, now, TIME_STEP, 3);
    } else {
      QuotientsApart(now, made, TIME_STEP, 3);
    }
  }

  /** Across the epoch the step with number zero lasts twice as long, and nine minutes are not
      enough. */
  lemma LongerAcrossTheEpoch()
    ensures var made, now := -TIME_STEP + 1, 2 * TIME_STEP + 1;
            now - made >= 540 * TICKS_PER_SECOND && InWindow(now, Unsigned(StepOf(made)))
  {
    var made, now := -TIME_STEP + 1, 2 * TIME_STEP + 1;
    assert StepOf(made) == 0 && StepOf(now) == 2;
    assert StepAt(now, -2) == Unsigned(StepOf(made));
  }
}
