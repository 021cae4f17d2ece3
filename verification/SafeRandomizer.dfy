/** Picking numbers in a range, and passwords, from random bytes. */
module SafeRandomizer {
  import opened Results
  import opened Numbers

  type int32 = x: int | -0x8000_0000 <= x < 0x8000_0000

  const TWO_31 := 0x8000_0000
  const TWO_32 := 0x1_0000_0000

  const ALPHA_CHARS := "abcdefghijklmnopqrstuvwxyz"
  const CAPITAL_ALPHA_CHARS := "ABCDEFGHIJKLMNOPQRSTUVWXYZ"
  const DIGIT_CHARS := "1234567890"

  // ---- one draw ----

  /** Arithmetic and conversions to 32 bits wrap around. */
  function ToInt32(x: int): int32 {
    (x + TWO_31) % TWO_32 - TWO_31
  }

  lemma DifferenceIsNotZero(minValue: int32, maxValue: int32)
    requires minValue < maxValue
    ensures ToInt32(maxValue - minValue) != 0
  {
  }

  /** What one draw of 32 random bits is turned into; draws at the top are rejected. */
  function Draw(minValue: int32, maxValue: int32, rand: nat): Option<int32>
    requires minValue < maxValue
  {
    DifferenceIsNotZero(minValue, maxValue);
    var diff := ToInt32(maxValue - minValue);
    var remainder := Remainder(TWO_32, diff);
    if rand < TWO_32 - remainder then Some(ToInt32(minValue + Remainder(rand, diff))) else None
  }

  /** How many values a draw can yield: the difference, as far as 32 bits hold it. */
  function Span(minValue: int32, maxValue: int32): (d: nat)
    requires minValue < maxValue
    ensures 1 <= d <= TWO_31
  {
    var d := maxValue - minValue;
    if d < TWO_31 then d else TWO_32 - d
  }

  lemma Wrapped(x: int)
    requires -TWO_31 <= x < TWO_32
    ensures ToInt32(x) as int == if x < TWO_31 then x else x - TWO_32
  {
  }

  lemma RemainderBySize(a: nat, b: int, d: nat)
    requires d > 0 && (b == d || b == 0 - d)
    ensures Remainder(a, b) == a % d && 0 <= a % d < d
  {
  }

  lemma DrawInSpan(minValue: int32, maxValue: int32, rand: nat)
    requires minValue < maxValue
    ensures var d := Span(minValue, maxValue);
            Draw(minValue, maxValue, rand) == if rand < TWO_32 - TWO_32 % d then Some(minValue + rand % d) else None
    ensures Span(minValue, maxValue) <= maxValue - minValue
  {
    hide ToInt32, Remainder;
    var d := Span(minValue, maxValue);
    Wrapped(maxValue - minValue);
    var diff: int := ToInt32(maxValue - minValue);
    RemainderBySize(TWO_32, diff, d);
    RemainderBySize(rand, diff, d);
    Wrapped(minValue + rand % d);
  }

  // ---- counting draws ----

  function Residues(d: nat, x: nat, q: nat): set<nat>
    requires d > 0
  {
    set r: nat | 0 <= r < q * d && r % d == x
  }

  lemma ResidueOf(d: nat, x: nat, q: nat, r: nat)
    requires x < d && q * d <= r < (q + 1) * d
    ensures r % d == x <==> r == q * d + x
  {
    UniqueRemainder(r, d, q, r - q * d);
  }

  lemma {:induction false} ResidueCount(d: nat, x: nat, q: nat)
    requires x < d
    ensures |Residues(d, x, q)| == q
  {
    if q == 0 {
      assert Residues(d, x, 0) == {};
    } else {
      ResidueCount(d, x, q - 1);
      var r := (q - 1) * d + x;
      assert q * d == (q - 1) * d + d;
      ResidueOf(d, x, q - 1, r);
      forall s | (q - 1) * d <= s < q * d ensures s % d == x <==> s == r {
        ResidueOf(d, x, q - 1, s);
      }
      assert Residues(d, x, q) == Residues(d, x, q - 1) + {r};
    }
  }

  // ---- the generator's bytes ----

  function ToUInt32(bytes: Bytes): nat
    requires |bytes| == 4
  {
    var b0: nat, b1: nat, b2: nat, b3: nat := bytes[0], bytes[1], bytes[2], bytes[3];
    b0 + 0x100 * (b1 + 0x100 * (b2 + 0x100 * b3))
  }

  lemma LowByte(b: byte, n: nat)
    ensures (b as nat + 0x100 * n) % 0x100 == b && (b as nat + 0x100 * n) / 0x100 == n
  {
  }

  /** The way of filling the buffer that draws a number. */
  function Filling(n: nat): Bytes
    requires n < TWO_32
  {
    [n % 0x100, n / 0x100 % 0x100, n / 0x100 / 0x100 % 0x100, n / 0x100 / 0x100 / 0x100]
  }

  /** Every 32-bit number is drawn by exactly one way of filling the buffer. */
  lemma DrawnOnce(n: nat)
    requires n < TWO_32
    ensures |Filling(n)| == 4 && ToUInt32(Filling(n)) == n
    ensures forall other: Bytes :: |other| == 4 && ToUInt32(other) == n ==> other == Filling(n)
  {
    forall other: Bytes | |other| == 4 && ToUInt32(other) == n ensures other == Filling(n) {
      var b2: nat, b3: nat, b1: nat := other[2], other[3], other[1];
      LowByte(other[0], b1 + 0x100 * (b2 + 0x100 * b3));
      LowByte(other[1], b2 + 0x100 * b3);
      LowByte(other[2], b3);
    }
  }

  /** `StillDrawing`: all bytes the generator has produced so far were rejected. */
  datatype Sample = Value(value: int32) | ArgumentOutOfRange | StillDrawing {
    predicate IsValue(v: int) { Value? && value == v }
  }

  function FirstAccepted(minValue: int32, maxValue: int32, bytes: Bytes): (Sample, Bytes)
    requires minValue < maxValue
    decreases |bytes|
  {
    if |bytes| < 4 then (StillDrawing, bytes)
    else
      match Draw(minValue, maxValue, ToUInt32(bytes[..4]))
      case Some(v) => (Value(v), bytes[4..])
      case None => FirstAccepted(minValue, maxValue, bytes[4..])
  }

  /** The result and the bytes left for the next call. */
  function Picked(minValue: int32, maxValue: int32, bytes: Bytes): (Sample, Bytes) {
    if minValue > maxValue then (ArgumentOutOfRange, bytes)
    else if minValue == maxValue then (Value(minValue), bytes)
    else FirstAccepted(minValue, maxValue, bytes)
  }

  lemma {:induction false} FirstAcceptedInRange(minValue: int32, maxValue: int32, bytes: Bytes)
    requires minValue < maxValue
    ensures var (r, rest) := FirstAccepted(minValue, maxValue, bytes);
            |rest| <= |bytes| && (r.Value? ==> minValue <= r.value < maxValue)
    decreases |bytes|
  {
    if |bytes| >= 4 {
      DrawInSpan(minValue, maxValue, ToUInt32(bytes[..4]));
      if Draw(minValue, maxValue, ToUInt32(bytes[..4])).None? {
        FirstAcceptedInRange(minValue, maxValue, bytes[4..]);
      }
    }
  }

  /** The `k`-th four bytes, read from the lowest to the highest. */
  function Block(bytes: Bytes, k: nat): nat
    requires 4 * (k + 1) <= |bytes|
  {
    var b0: nat, b1: nat, b2: nat, b3: nat := bytes[4 * k], bytes[4 * k + 1], bytes[4 * k + 2], bytes[4 * k + 3];
    b0 + 0x100 * b1 + 0x1_0000 * b2 + 0x100_0000 * b3
  }

  /** Below the largest multiple of the number of values. */
  predicate IsTaken(d: nat, b: nat)
    requires d > 0
  {
    b < 0x1_0000_0000 - 0x1_0000_0000 % d
  }

  /** The `k`-th block is the first that is taken. */
  predicate FirstTaken(d: nat, bytes: Bytes, k: nat)
    requires d > 0
  {
    && 4 * (k + 1) <= |bytes| && IsTaken(d, Block(bytes, k))
    && forall j :: 0 <= j < k ==> !IsTaken(d, Block(bytes, j))
  }

  lemma FirstBlock(bytes: Bytes)
    requires |bytes| >= 4
    ensures ToUInt32(bytes[..4]) == Block(bytes, 0)
  {
  }

  lemma LaterBlock(bytes: Bytes, k: nat)
    requires 4 * (k + 2) <= |bytes|
    ensures Block(bytes[4..], k) == Block(bytes, k + 1)
  {
  }

  lemma {:induction false} AcceptedIsFirstTaken(minValue: int32, maxValue: int32, bytes: Bytes) returns (k: nat)
    requires minValue < maxValue
    ensures var d, (r, rest) := Span(minValue, maxValue), FirstAccepted(minValue, maxValue, bytes);
            if r.StillDrawing? then
              && k == |bytes| / 4 && rest == bytes[4 * k..]
              && forall j :: 0 <= j < k ==> !IsTaken(d, Block(bytes, j))
            else
              && r.Value? && FirstTaken(d, bytes, k) && r.value == minValue + Block(bytes, k) % d
              && rest == bytes[4 * (k + 1)..]
    decreases |bytes|
  {
    if |bytes| < 4 {
      return 0;
    }
    var b := ToUInt32(bytes[..4]);
    FirstBlock(bytes);
    DrawInSpan(minValue, maxValue, b);
    if Draw(minValue, maxValue, b).Some? {
      return 0;
    }
    hide ToUInt32, Draw, Block;
    var later := AcceptedIsFirstTaken(minValue, maxValue, bytes[4..]);
    k := later + 1;
    forall j | 0 <= j && 4 * (j + 2) <= |bytes| ensures Block(bytes[4..], j) == Block(bytes, j + 1) {
      LaterBlock(bytes, j);
    }
    forall j | 0 <= j < k ensures !IsTaken(Span(minValue, maxValue), Block(bytes, j)) {
      if j > 0 {
        assert Block(bytes[4..], j - 1) == Block(bytes, j);
      }
    }
    if FirstAccepted(minValue, maxValue, bytes).0.Value? {
      assert Block(bytes[4..], later) == Block(bytes, k);
    }
  }

  lemma OnlyOneIsFirst(d: nat, bytes: Bytes, j: nat, k: nat)
    requires d > 0 && FirstTaken(d, bytes, j) && FirstTaken(d, bytes, k)
    ensures j == k
  {
    hide Block, IsTaken;
  }

  /** The number picked is the lower bound and the remainder of the first block below the largest multiple
      of the number of values, and the bytes after that block are left. */
  lemma PickedIff(minValue: int32, maxValue: int32, bytes: Bytes, v: int32, rest: Bytes)
    requires minValue < maxValue
    ensures var n := maxValue - minValue;
            var d := if n <= 0x8000_0000 then n else 0x1_0000_0000 - n;
            Picked(minValue, maxValue, bytes) == (Value(v), rest) <==>
              exists k: nat :: FirstTaken(d, bytes, k) && v == minValue + Block(bytes, k) % d
                               && rest == bytes[4 * (k + 1)..]
  {
    hide Block, IsTaken, FirstTaken;
    var d := Span(minValue, maxValue);
    var k := AcceptedIsFirstTaken(minValue, maxValue, bytes);
    forall j: nat | FirstTaken(d, bytes, j)
      ensures Picked(minValue, maxValue, bytes).0.Value? && j == k
    {
      TakenIsNotPassed(d, bytes, j);
      if Picked(minValue, maxValue, bytes).0.Value? {
        OnlyOneIsFirst(d, bytes, j, k);
      }
    }
  }

  lemma TakenIsNotPassed(d: nat, bytes: Bytes, k: nat)
    requires d > 0 && FirstTaken(d, bytes, k)
    ensures k < |bytes| / 4 && IsTaken(d, Block(bytes, k))
  {
  }

  /** Nothing is picked while every whole block is at or above that multiple; bounds in the wrong order are
      an error, and equal ones cost no bytes. */
  lemma NothingPickedIff(minValue: int32, maxValue: int32, bytes: Bytes)
    ensures Picked(minValue, maxValue, bytes).0.StillDrawing? <==>
              && minValue < maxValue
              && forall j :: 0 <= j < |bytes| / 4 ==> !IsTaken(Span(minValue, maxValue), Block(bytes, j))
    ensures Picked(minValue, maxValue, bytes).0.ArgumentOutOfRange? <==> minValue > maxValue
    ensures minValue == maxValue ==> Picked(minValue, maxValue, bytes) == (Value(minValue), bytes)
  {
    hide Block, IsTaken, FirstTaken;
    if minValue < maxValue {
      var k := AcceptedIsFirstTaken(minValue, maxValue, bytes);
      if Picked(minValue, maxValue, bytes).0.Value? {
        TakenIsNotPassed(Span(minValue, maxValue), bytes, k);
      }
    }
  }

  // ---- counting the fillings of the buffer ----

  /** The numbers whose filling makes the service return `v`. */
  function DrawsOf(minValue: int32, maxValue: int32, v: int): set<nat>
    requires minValue < maxValue
  {
    set n: nat | 0 <= n < TWO_32 && Picked(minValue, maxValue, Filling(n)).0.IsValue(v)
  }

  function Accepted(minValue: int32, maxValue: int32): set<nat>
    requires minValue < maxValue
  {
    set n: nat | 0 <= n < TWO_32 && Picked(minValue, maxValue, Filling(n)).0.Value?
  }

  lemma PickedFromFilling(minValue: int32, maxValue: int32, n: nat)
    requires minValue < maxValue && n < TWO_32
    ensures var d, (r, rest) := Span(minValue, maxValue), Picked(minValue, maxValue, Filling(n));
            && (r.Value? <==> n < TWO_32 - TWO_32 % d)
            && (r.Value? ==> r.value == minValue + n % d && rest == [])
  {
    hide Filling, ToUInt32, Draw;
    DrawnOnce(n);
    var bytes := Filling(n);
    assert bytes[..4] == bytes && bytes[4..] == [];
    assert FirstAccepted(minValue, maxValue, bytes[4..]) == (StillDrawing, []);
    DrawInSpan(minValue, maxValue, n);
  }

  /** Every value of the span has the same number of draws, and no other value has any. */
  lemma DrawCount(minValue: int32, maxValue: int32, v: int)
    requires minValue < maxValue
    ensures var d := Span(minValue, maxValue);
            |DrawsOf(minValue, maxValue, v)| == if minValue <= v < minValue + d then TWO_32 / d else 0
  {
    var d := Span(minValue, maxValue);
    var q := TWO_32 / d;
    assert q * d == TWO_32 - TWO_32 % d;
    hide Picked, Filling;
    forall n: nat | n < TWO_32
      ensures Picked(minValue, maxValue, Filling(n)).0.IsValue(v) <==> n < q * d && n % d == v - minValue
    {
      PickedFromFilling(minValue, maxValue, n);
    }
    if minValue <= v < minValue + d {
      assert DrawsOf(minValue, maxValue, v) == Residues(d, v - minValue, q);
      ResidueCount(d, v - minValue, q);
    } else {
      assert DrawsOf(minValue, maxValue, v) == {};
    }
  }

  predicate Unbiased(minValue: int32, maxValue: int32)
    requires minValue < maxValue
  {
    forall v, w :: minValue <= v < maxValue && minValue <= w < maxValue ==>
      |DrawsOf(minValue, maxValue, v)| == |DrawsOf(minValue, maxValue, w)|
  }

  /** All values of the range are equally likely exactly when the range has at most 2^31 of them. */
  lemma UnbiasedIff(minValue: int32, maxValue: int32)
    requires minValue < maxValue
    ensures Unbiased(minValue, maxValue) <==> maxValue - minValue <= TWO_31
  {
    var d := Span(minValue, maxValue);
    assert TWO_32 / d >= 2;
    forall v ensures |DrawsOf(minValue, maxValue, v)| == if minValue <= v < minValue + d then TWO_32 / d else 0 {
      DrawCount(minValue, maxValue, v);
    }
    if maxValue - minValue > TWO_31 {
      assert |DrawsOf(minValue, maxValue, minValue)| != |DrawsOf(minValue, maxValue, maxValue - 1)|;
    }
  }

  /** More than half of all draws are accepted. */
  lemma MostDrawsAreAccepted(minValue: int32, maxValue: int32)
    requires minValue < maxValue
    ensures TWO_31 < |Accepted(minValue, maxValue)| <= TWO_32
  {
    var d := Span(minValue, maxValue);
    var n := TWO_32 - TWO_32 % d;
    hide Picked, Filling;
    forall m: nat | m < TWO_32 ensures Picked(minValue, maxValue, Filling(m)).0.Value? <==> m < n {
      PickedFromFilling(minValue, maxValue, m);
    }
    assert Accepted(minValue, maxValue) == Residues(1, 0, n);
    ResidueCount(1, 0, n);
  }

  // ---- passwords ----

  function Alphabet(i: nat): string {
    var chars := if i % 2 == 1 then DIGIT_CHARS else if i % 4 == 0 then ALPHA_CHARS else CAPITAL_ALPHA_CHARS;
    chars[..|chars| - 1]
  }

  /** What the two flags of the loop choose. */
  lemma AlphabetOf(i: nat, chars: string)
    requires chars == if i % 2 == 1 then DIGIT_CHARS else if i % 4 == 0 then ALPHA_CHARS else CAPITAL_ALPHA_CHARS
    ensures 2 <= |chars| <= 100 && chars[..|chars| - 1] == Alphabet(i)
  {
  }

  lemma LowerCase()
    ensures ALPHA_CHARS[..25] == "abcdefghijklmnopqrstuvwxy"
  {
  }

  lemma UpperCase()
    ensures CAPITAL_ALPHA_CHARS[..25] == "ABCDEFGHIJKLMNOPQRSTUVWXY"
  {
  }

  /** Passwords are drawn from 25, 9 and 25 characters, not from 26, 10 and 26. */
  lemma LastCharactersAreNeverUsed(i: nat)
    ensures Alphabet(i) == if i % 2 == 1 then "123456789"
                           else if i % 4 == 0 then "abcdefghijklmnopqrstuvwxy" else "ABCDEFGHIJKLMNOPQRSTUVWXY"
  {
    AlphabetSize(i);
    if i % 2 == 0 {
      if i % 4 == 0 {
        LowerCase();
      } else {
        UpperCase();
      }
    }
  }

  lemma AlphabetSize(i: nat)
    ensures |Alphabet(i)| == if i % 2 == 1 then 9 else 25
  {
  }

  /** Every character costs one number below the size of its alphabet; the bytes after it are left. */
  function Password(bytes: Bytes, length: nat): (Option<string>, Bytes) {
    if length == 0 then (Some(""), bytes)
    else
      var (front, left) := Password(bytes, length - 1);
      var chars := Alphabet(length - 1);
      AlphabetSize(length - 1);
      FirstAcceptedInRange(0, |chars|, left);
      var (index, rest) := if front.Some? then Picked(0, |chars|, left) else (StillDrawing, left);
      if index.Value? then (Some(front.value + [chars[index.value]]), rest) else (None, rest)
  }

  /** The block after that of the character before. */
  function From(ks: seq<nat>, i: nat): nat
    requires i <= |ks|
  {
    if i == 0 then 0 else ks[i - 1] + 1
  }

  /** The `i`-th character is the one that the first taken block after the previous character's names. */
  predicate ReadAt(bytes: Bytes, s: string, ks: seq<nat>, i: nat)
    requires i < |ks| && i < |s|
  {
    var chars := Alphabet(i);
    && |chars| > 0 && From(ks, i) <= ks[i] && 4 * (ks[i] + 1) <= |bytes|
    && IsTaken(|chars|, Block(bytes, ks[i]))
    && (forall j :: From(ks, i) <= j < ks[i] ==> !IsTaken(|chars|, Block(bytes, j)))
    && s[i] == chars[Block(bytes, ks[i]) % |chars|]
  }

  predicate ReadFrom(bytes: Bytes, s: string, rest: Bytes, ks: seq<nat>) {
    && |ks| == |s| && (forall i :: 0 <= i < |s| ==> ReadAt(bytes, s, ks, i))
    && 4 * From(ks, |s|) <= |bytes| && rest == bytes[4 * From(ks, |s|)..]
  }

  lemma BlockAfter(bytes: Bytes, m: nat, k: nat)
    requires 4 * (m + k + 1) <= |bytes|
    ensures Block(bytes[4 * m..], k) == Block(bytes, m + k)
  {
  }

  lemma TakenAfter(d: nat, bytes: Bytes, m: nat, k: nat)
    requires d > 0 && 4 * m <= |bytes|
    ensures FirstTaken(d, bytes[4 * m..], k) <==>
              && 4 * (m + k + 1) <= |bytes| && IsTaken(d, Block(bytes, m + k))
              && forall j :: m <= j < m + k ==> !IsTaken(d, Block(bytes, j))
  {
    hide Block, IsTaken;
    var tail := bytes[4 * m..];
    forall j: nat | 4 * (m + j + 1) <= |bytes| ensures Block(tail, j) == Block(bytes, m + j) {
      BlockAfter(bytes, m, j);
    }
    if 4 * (m + k + 1) <= |bytes| && forall j :: m <= j < m + k ==> !IsTaken(d, Block(bytes, j)) {
      forall j | 0 <= j < k ensures !IsTaken(d, Block(tail, j)) {
        assert Block(tail, j) == Block(bytes, m + j);
      }
    }
    if FirstTaken(d, tail, k) {
      forall j | m <= j < m + k ensures !IsTaken(d, Block(bytes, j)) {
        assert Block(tail, j - m) == Block(bytes, j);
      }
    }
  }

  /** One more character. */
  lemma ReadOneMoreIff(bytes: Bytes, s: string, rest: Bytes, ks: seq<nat>, left: Bytes)
    requires ks != [] && |ks| == |s| && 4 * From(ks, |s| - 1) <= |bytes| && left == bytes[4 * From(ks, |s| - 1)..]
    requires |Alphabet(|s| - 1)| > 0 && From(ks, |s| - 1) <= ks[|s| - 1]
    ensures ReadFrom(bytes, s, rest, ks) <==>
              var k, d := ks[|s| - 1] - From(ks, |s| - 1), |Alphabet(|s| - 1)|;
              && ReadFrom(bytes, s[..|s| - 1], left, ks[..|s| - 1])
              && FirstTaken(d, left, k) && s[|s| - 1] == Alphabet(|s| - 1)[Block(left, k) % d]
              && rest == left[4 * (k + 1)..]
  {
    hide Block, IsTaken, FirstTaken, Alphabet;
    var n := |s| - 1;
    var m, d := From(ks, n), |Alphabet(n)|;
    var k := ks[n] - m;
    TakenAfter(d, bytes, m, k);
    forall i | 0 <= i < n ensures ReadAt(bytes, s, ks, i) <==> ReadAt(bytes, s[..n], ks[..n], i) {
      assert From(ks[..n], i) == From(ks, i);
    }
    assert From(ks[..n], n) == m && From(ks, n + 1) == m + k + 1;
    if 4 * (m + k + 1) <= |bytes| {
      BlockAfter(bytes, m, k);
      assert left[4 * (k + 1)..] == bytes[4 * (m + k + 1)..];
      assert ReadAt(bytes, s, ks, n) <==>
          FirstTaken(d, left, k) && s[n] == Alphabet(n)[Block(left, k) % d];
    }
  }

  lemma SpanOfAlphabet(d: nat)
    requires 0 < d <= 100
    ensures Span(0, d) == d
  {
  }

  lemma {:induction false} PasswordIsRead(bytes: Bytes, length: nat, s: string, rest: Bytes) returns (ks: seq<nat>)
    requires Password(bytes, length) == (Some(s), rest)
    ensures |s| == length && ReadFrom(bytes, s, rest, ks)
    decreases length
  {
    hide Block, IsTaken, Alphabet, Picked;
    if length == 0 {
      return [];
    }
    hide ReadAt, ReadFrom, From;
    var n, d := length - 1, |Alphabet(length - 1)|;
    var (front, left) := Password(bytes, n);
    AlphabetSize(n);
    SpanOfAlphabet(d);
    var before := PasswordIsRead(bytes, n, front.value, left);
    var index := Picked(0, d, left).0.value;
    PickedIff(0, d, left, index, rest);
    var k: nat :| FirstTaken(d, left, k) && index == Block(left, k) % d && rest == left[4 * (k + 1)..];
    ReadMore(bytes, front.value, left, before, k);
    ks := before + [From(before, n) + k];
  }

  lemma ReadMore(bytes: Bytes, s: string, rest: Bytes, ks: seq<nat>, k: nat)
    requires ReadFrom(bytes, s, rest, ks) && |Alphabet(|s|)| > 0 && FirstTaken(|Alphabet(|s|)|, rest, k)
    ensures var c := Alphabet(|s|)[Block(rest, k) % |Alphabet(|s|)|];
            ReadFrom(bytes, s + [c], rest[4 * (k + 1)..], ks + [From(ks, |s|) + k])
  {
    hide Block, IsTaken, Alphabet, ReadAt, ReadFrom;
    ReadIsLong(bytes, s, rest, ks);
    var more := ks + [From(ks, |s|) + k];
    var t := s + [Alphabet(|s|)[Block(rest, k) % |Alphabet(|s|)|]];
    assert more[..|s|] == ks && t[..|s|] == s && From(more, |s|) == From(ks, |s|);
    ReadOneMoreIff(bytes, t, rest[4 * (k + 1)..], more, rest);
  }

  lemma ReadIsLong(bytes: Bytes, s: string, rest: Bytes, ks: seq<nat>)
    requires ReadFrom(bytes, s, rest, ks)
    ensures |ks| == |s| && 4 * From(ks, |s|) <= |bytes| && rest == bytes[4 * From(ks, |s|)..]
    ensures s != [] ==>
              From(ks, |s| - 1) <= ks[|s| - 1] && 4 * From(ks, |s| - 1) <= |bytes|
  {
    assert s != [] ==> ReadAt(bytes, s, ks, |s| - 1);
  }

  lemma {:induction false} ReadIsPassword(bytes: Bytes, s: string, rest: Bytes, ks: seq<nat>)
    requires ReadFrom(bytes, s, rest, ks)
    ensures Password(bytes, |s|) == (Some(s), rest)
    decreases |s|
  {
    hide Block, IsTaken, Alphabet, Picked, ReadAt;
    if s != [] {
      hide ReadFrom;
      var n, d := |s| - 1, |Alphabet(|s| - 1)|;
      AlphabetSize(n);
      SpanOfAlphabet(d);
      ReadIsLong(bytes, s, rest, ks);
      var left := bytes[4 * From(ks, n)..];
      ReadOneMoreIff(bytes, s, rest, ks, left);
      ReadIsPassword(bytes, s[..n], left, ks[..n]);
      var k := ks[n] - From(ks, n);
      PickedIff(0, d, left, Block(left, k) % d, rest);
      assert s == s[..n] + [s[n]];
    }
  }

  /** A password is read off the blocks, each character at the first block that is taken for its alphabet
      after the block of the one before. */
  lemma PasswordIff(bytes: Bytes, length: nat, s: string, rest: Bytes)
    ensures Password(bytes, length) == (Some(s), rest) <==> |s| == length && exists ks :: ReadFrom(bytes, s, rest, ks)
  {
    hide ReadFrom, Password;
    if Password(bytes, length) == (Some(s), rest) {
      var ks := PasswordIsRead(bytes, length, s, rest);
    }
    if ks :| |s| == length && ReadFrom(bytes, s, rest, ks) {
      ReadIsPassword(bytes, s, rest, ks);
    }
  }

  lemma {:induction false} NoneForLonger(bytes: Bytes, n: nat, length: nat)
    requires n <= length && Password(bytes, n).0.None?
    ensures Password(bytes, length) == Password(bytes, n)
    decreases length - n
  {
    if n < length {
      NoneForLonger(bytes, n + 1, length);
    }
  }

  // ---- the service ----

  class SafeRandomizerService {
    /** The bytes the random number generator is going to produce. */
    var upcoming: Bytes
    const uint32Buffer: array<byte>

    constructor (upcoming: Bytes)
      ensures this.upcoming == upcoming && fresh(uint32Buffer) && uint32Buffer.Length == 4
    {
      this.upcoming := upcoming;
      uint32Buffer := new byte[4];
    }

    method GetBytes()
      requires uint32Buffer.Length == 4 && |upcoming| >= 4
      modifies this, uint32Buffer
      ensures uint32Buffer[..] == old(upcoming)[..4] && upcoming == old(upcoming)[4..]
    {
      for i := 0 to 4
        invariant upcoming == old(upcoming) && uint32Buffer[..i] == upcoming[..i]
      {
        uint32Buffer[i] := upcoming[i];
      }
      upcoming := upcoming[4..];
    }

    method Next(minValue: int32, maxValue: int32) returns (r: Sample)
      requires uint32Buffer.Length == 4
      modifies this, uint32Buffer
      ensures (r, upcoming) == Picked(minValue, maxValue, old(upcoming))
    {
      if minValue > maxValue {
        return ArgumentOutOfRange;
      }
      if minValue == maxValue {
        return Value(minValue);
      }
      DifferenceIsNotZero(minValue, maxValue);
      var diff := ToInt32(maxValue - minValue);
      while |upcoming| >= 4
        invariant FirstAccepted(minValue, maxValue, old(upcoming)) == FirstAccepted(minValue, maxValue, upcoming)
        decreases |upcoming|
      {
        GetBytes();
        var rand := ToUInt32(uint32Buffer[..]);
        var remainder := Remainder(TWO_32, diff);
        if rand < TWO_32 - remainder {
          return Value(ToInt32(minValue + Remainder(rand, diff)));
        }
      }
      return StillDrawing;
    }

    /** A character at a random index below the last. */
    method Pick(chars: string) returns (c: Option<char>)
      requires uint32Buffer.Length == 4 && 2 <= |chars| <= 100
      modifies this, uint32Buffer
      ensures var (r, rest) := Picked(0, |chars| - 1, old(upcoming));
              && upcoming == rest && (c.Some? <==> r.Value?)
              && (r.Value? ==> 0 <= r.value < |chars| - 1 && c == Some(chars[r.value]))
    {
      FirstAcceptedInRange(0, |chars| - 1, upcoming);
      var index := Next(0, |chars| - 1);
      if !index.Value? {
        return None;
      }
      c := Some(chars[index.value]);
    }

    /** Letters and digits alternate, and letters alternate between lower and upper case; the last
        character of each alphabet is never used. */
    method RandomString(maxLength: int) returns (s: Option<string>)
      requires uint32Buffer.Length == 4
      modifies this, uint32Buffer
      ensures (s, upcoming) == Password(old(upcoming), if maxLength < 0 then 0 else maxLength)
    {
      hide Alphabet, DIGIT_CHARS, CAPITAL_ALPHA_CHARS, ALPHA_CHARS, Picked;
      var randomValueSb := "";
      var getNum, getCaps := false, false;
      var i := 0;
      while i < maxLength
        invariant 0 <= i && (i <= maxLength || i == 0)
        invariant getNum == (i % 2 == 1) && getCaps == (i % 4 == 1 || i % 4 == 2)
        invariant Password(old(upcoming), i) == (Some(randomValueSb), upcoming)
      {
        var chars := DIGIT_CHARS;
        if getNum {
          getNum := false;
        } else {
          getNum := true;
          if getCaps {
            getCaps := false;
            chars := CAPITAL_ALPHA_CHARS;
          } else {
            getCaps := true;
            chars := ALPHA_CHARS;
          }
        }
        AlphabetOf(i, chars);
        ghost var left := upcoming;
        var c := Pick(chars);
        AlphabetSize(i);
        assert c.Some? ==> c.value == Alphabet(i)[Picked(0, |Alphabet(i)|, left).0.value];
        assert Password(old(upcoming), i + 1) ==
            (if c.Some? then Some(randomValueSb + [c.value]) else None, upcoming);
        if c.None? {
          NoneForLonger(old(upcoming), i + 1, maxLength);
          return None;
        }
        randomValueSb := randomValueSb + [c.value];
        i := i + 1;
      }
      return Some(randomValueSb);
    }
  }
}
