/** Two-factor recovery codes: kept as one text of hashes, and each good for one sign-in. */
module RecoveryCodes {
  import opened Results
  import opened Strings
  import opened Numbers

  const PROVIDER := "[AspNetUserStore]"
  const AUTHENTICATOR_KEY := "AuthenticatorKey"
  const RECOVERY_CODES := "RecoveryCodes"

  /** The SHA-256 hash of a text's bytes. */
  type Sha256 = string -> Bytes

  ghost predicate IsHash(sha: Sha256) {
    forall code :: |sha(code)| == 32
  }

  // ---- hexadecimal text ----

  function HexDigit(n: nat): char
    requires n < 16
  {
    if n < 10 then '0' + n as char else 'A' + (n - 10) as char
  }

  /** Two upper-case digits a byte, with dashes between the bytes. */
  function Dashed(bytes: Bytes): string {
    if bytes == [] then []
    else [HexDigit(bytes[0] / 16), HexDigit(bytes[0] % 16)] + if |bytes| == 1 then [] else ['-'] + Dashed(bytes[1..])
  }

  function Without(s: string, gone: char): string {
    if s == [] then [] else (if s[0] == gone then [] else [s[0]]) + Without(s[1..], gone)
  }

  function Lower(c: char): char {
    if 'A' <= c <= 'Z' then 'a' + (c - 'A') else c
  }

  function ToLower(s: string): string {
    seq(|s|, i requires 0 <= i < |s| => Lower(s[i]))
  }

  function Hashed(sha: Sha256, code: string): string {
    ToLower(Without(Dashed(sha(code)), '-'))
  }

  function Plain(bytes: Bytes): string {
    if bytes == [] then [] else [HexDigit(bytes[0] / 16), HexDigit(bytes[0] % 16)] + Plain(bytes[1..])
  }

  lemma DigitsAreNoDashes(n: nat)
    requires n < 16
    ensures HexDigit(n) != '-' && Lower(HexDigit(n)) != ';'
    ensures forall m: nat :: m < 16 && Lower(HexDigit(m)) == Lower(HexDigit(n)) ==> m == n
  {
  }

  lemma WithoutTwo(a: char, b: char, rest: string, gone: char)
    requires a != gone && b != gone
    ensures Without([a, b] + rest, gone) == [a, b] + Without(rest, gone)
  {
    var s := [a, b] + rest;
    assert s[1..] == [b] + rest && s[1..][1..] == rest;
  }

  lemma WithoutFirst(rest: string, gone: char)
    ensures Without([gone] + rest, gone) == Without(rest, gone)
  {
    assert ([gone] + rest)[1..] == rest;
  }

  lemma {:induction false} DashesRemoved(bytes: Bytes)
    ensures Without(Dashed(bytes), '-') == Plain(bytes)
  {
    if bytes != [] {
      DigitsAreNoDashes(bytes[0] / 16);
      DigitsAreNoDashes(bytes[0] % 16);
      var a, b := HexDigit(bytes[0] / 16), HexDigit(bytes[0] % 16);
      var tail := if |bytes| == 1 then [] else ['-'] + Dashed(bytes[1..]);
      DashesRemoved(bytes[1..]);
      WithoutFirst(Dashed(bytes[1..]), '-');
      WithoutTwo(a, b, tail, '-');
      assert Without(tail, '-') == Plain(bytes[1..]);
      assert Dashed(bytes) == [a, b] + tail;
    }
  }

  lemma {:induction false} PlainText(bytes: Bytes, i: nat)
    requires i < 2 * |bytes|
    ensures |Plain(bytes)| == 2 * |bytes| && Lower(Plain(bytes)[i]) != ';'
  {
    DigitsAreNoDashes(bytes[0] / 16);
    DigitsAreNoDashes(bytes[0] % 16);
    if |bytes| == 1 {
      assert Plain(bytes[1..]) == [];
    } else {
      PlainText(bytes[1..], if i >= 2 then i - 2 else 0);
    }
  }

  lemma {:induction false} PlainIsInjective(a: Bytes, b: Bytes)
    requires |a| == |b| && ToLower(Plain(a)) == ToLower(Plain(b))
    ensures a == b
  {
    if a != [] {
      PlainText(a, 0);
      PlainText(b, 0);
      var s, t := ToLower(Plain(a)), ToLower(Plain(b));
      assert s[0] == Lower(HexDigit(a[0] / 16)) && t[0] == Lower(HexDigit(b[0] / 16));
      assert s[1] == Lower(HexDigit(a[0] % 16)) && t[1] == Lower(HexDigit(b[0] % 16));
      DigitsAreNoDashes(a[0] / 16);
      DigitsAreNoDashes(a[0] % 16);
      assert ToLower(Plain(a[1..])) == s[2..] && ToLower(Plain(b[1..])) == t[2..];
      PlainIsInjective(a[1..], b[1..]);
      assert a == [a[0]] + a[1..] && b == [b[0]] + b[1..];
    }
  }

  /** The value of a lower-case hexadecimal digit. */
  function HexValue(c: char): Option<nat> {
    if '0' <= c <= '9' then Some((c - '0') as nat)
    else if 'a' <= c <= 'f' then Some((c - 'a') as nat + 10)
    else None
  }

  lemma DigitReadBack(n: nat)
    requires n < 16
    ensures HexValue(Lower(HexDigit(n))) == Some(n)
  {
  }

  lemma {:induction false} PlainAt(bytes: Bytes, i: nat)
    requires i < |bytes|
    ensures |Plain(bytes)| == 2 * |bytes|
    ensures Plain(bytes)[2 * i] == HexDigit(bytes[i] / 16) && Plain(bytes)[2 * i + 1] == HexDigit(bytes[i] % 16)
  {
    if |bytes| == 1 {
      assert Plain(bytes[1..]) == [];
    } else {
      PlainAt(bytes[1..], if i > 0 then i - 1 else 0);
    }
  }

  /** What is stored for a code are the 64 lower-case hexadecimal digits of its hash, two for each byte. */
  lemma HashedIsHexadecimal(sha: Sha256, code: string, i: nat)
    requires |sha(code)| == 32 && i < 32
    ensures |Hashed(sha, code)| == 64
    ensures var high, low := HexValue(Hashed(sha, code)[2 * i]), HexValue(Hashed(sha, code)[2 * i + 1]);
            high.Some? && low.Some? && 16 * high.value + low.value == sha(code)[i]
  {
    hide HexValue, HexDigit, Lower;
    DashesRemoved(sha(code));
    PlainAt(sha(code), i);
    DigitReadBack(sha(code)[i] / 16);
    DigitReadBack(sha(code)[i] % 16);
  }

  /** What is stored for a code: no separator in it, never empty, and different for different hashes. */
  lemma HashedText(sha: Sha256, code: string)
    requires |sha(code)| == 32
    ensures Hashed(sha, code) != [] && ';' !in Hashed(sha, code)
  {
    DashesRemoved(sha(code));
    PlainText(sha(code), 0);
    forall i | 0 <= i < |Hashed(sha, code)| ensures Hashed(sha, code)[i] != ';' {
      PlainText(sha(code), i);
    }
  }

  lemma HashedDiffers(sha: Sha256, a: string, b: string)
    requires |sha(a)| == 32 && |sha(b)| == 32
    ensures Hashed(sha, a) == Hashed(sha, b) <==> sha(a) == sha(b)
  {
    DashesRemoved(sha(a));
    DashesRemoved(sha(b));
    if Hashed(sha, a) == Hashed(sha, b) {
      PlainIsInjective(sha(a), sha(b));
    }
  }

  // ---- one text for all codes ----

  predicate Separable(xs: seq<string>) {
    forall x <- xs :: x != [] && ';' !in x
  }

  /** Splitting undoes joining, except that the empty text is split into one empty code. */
  lemma {:induction false} SplitUndoesJoin(xs: seq<string>)
    requires Separable(xs)
    ensures Split(Join(xs, ';'), ';') == if xs == [] then [[]] else xs
  {
    if |xs| == 1 {
      SplitOne(xs[0], ';');
    } else if |xs| > 1 {
      assert xs == [xs[0]] + xs[1..];
      assert forall x <- xs[1..] :: x in xs;
      SplitUndoesJoin(xs[1..]);
      SplitFirst(xs[0], Join(xs[1..], ';'), ';');
    }
  }

  // ---- what the operations do to the text ----

  function Others(xs: seq<string>, x: string): seq<string> {
    if xs == [] then [] else (if xs[0] == x then [] else [xs[0]]) + Others(xs[1..], x)
  }

  function AllHashed(sha: Sha256, codes: seq<string>): seq<string> {
    seq(|codes|, i requires 0 <= i < |codes| => Hashed(sha, codes[i]))
  }

  /** Whether a hashed code is accepted, and the text that is stored then. */
  function Redeemed(text: string, hash: string): (bool, string) {
    if hash in Split(text, ';') then (true, Join(Others(Split(text, ';'), hash), ';')) else (false, text)
  }

  function Count(text: string): nat {
    if |text| > 0 then |Split(text, ';')| else 0
  }

  lemma {:induction false} OthersKept(xs: seq<string>, x: string)
    ensures forall y :: y in Others(xs, x) <==> y in xs && y != x
    ensures Separable(xs) ==> Separable(Others(xs, x))
    ensures Different(xs) ==> Different(Others(xs, x)) && |Others(xs, x)| == |xs| - if x in xs then 1 else 0
  {
    if xs != [] {
      OthersKept(xs[1..], x);
      assert xs == [xs[0]] + xs[1..];
      if Different(xs) {
        assert Different(xs[1..]);
        assert xs[0] !in xs[1..];
      }
    }
  }

  predicate Different(xs: seq<string>) {
    forall i, j :: 0 <= i < j < |xs| ==> xs[i] != xs[j]
  }

  /** On the text of a list of hashes, the operations are those of the list. */
  lemma TextActsAsList(xs: seq<string>, hash: string)
    requires Separable(xs) && hash != []
    ensures Redeemed(Join(xs, ';'), hash) == (hash in xs, Join(Others(xs, hash), ';'))
    ensures Count(Join(xs, ';')) == |xs|
  {
    SplitUndoesJoin(xs);
    if xs != [] {
      assert xs[0] in xs && Join(xs, ';') != [];
    }
    if hash !in xs {
      OthersUnchanged(xs, hash);
    }
  }

  lemma {:induction false} OthersUnchanged(xs: seq<string>, x: string)
    requires x !in xs
    ensures Others(xs, x) == xs
  {
    if xs != [] {
      OthersUnchanged(xs[1..], x);
      assert xs == [xs[0]] + xs[1..];
    }
  }

  // ---- runs ----

  /** The answers to a run of codes, and the text they leave. */
  function RunOf(sha: Sha256, text: string, tried: seq<string>): (seq<bool>, string)
    decreases |tried|
  {
    if tried == [] then ([], text)
    else
      var (ok, next) := Redeemed(text, Hashed(sha, tried[0]));
      var (more, last) := RunOf(sha, next, tried[1..]);
      ([ok] + more, last)
  }

  function Successes(oks: seq<bool>): nat {
    if oks == [] then 0 else (if oks[0] then 1 else 0) + Successes(oks[1..])
  }

  /** The hash is stored and was not tried before. */
  predicate Fresh(sha: Sha256, xs: seq<string>, tried: seq<string>, i: nat)
    requires i < |tried|
  {
    Hashed(sha, tried[i]) in xs && forall j :: 0 <= j < i ==> Hashed(sha, tried[j]) != Hashed(sha, tried[i])
  }

  lemma FreshLater(sha: Sha256, xs: seq<string>, tried: seq<string>, i: nat)
    requires 0 < i < |tried|
    ensures Fresh(sha, Others(xs, Hashed(sha, tried[0])), tried[1..], i - 1) <==> Fresh(sha, xs, tried, i)
  {
    OthersKept(xs, Hashed(sha, tried[0]));
    var rest := tried[1..];
    if Fresh(sha, Others(xs, Hashed(sha, tried[0])), rest, i - 1) {
      forall j | 0 <= j < i ensures Hashed(sha, tried[j]) != Hashed(sha, tried[i]) {
        assert j > 0 ==> tried[j] == rest[j - 1];
      }
    }
    if Fresh(sha, xs, tried, i) {
      assert forall j :: 0 <= j < i - 1 ==> rest[j] == tried[j + 1];
    }
  }

  lemma {:induction false} RunOnList(sha: Sha256, xs: seq<string>, tried: seq<string>)
    requires IsHash(sha) && Separable(xs) && Different(xs)
    ensures var (oks, text) := RunOf(sha, Join(xs, ';'), tried);
            && |oks| == |tried|
            && (forall i :: 0 <= i < |tried| ==> (oks[i] <==> Fresh(sha, xs, tried, i)))
            && Count(text) + Successes(oks) == |xs|
    decreases |tried|
  {
    if tried == [] {
      TextActsAsList(xs, "x");
    } else {
      var h := Hashed(sha, tried[0]);
      HashedText(sha, tried[0]);
      TextActsAsList(xs, h);
      OthersKept(xs, h);
      if h !in xs {
        OthersUnchanged(xs, h);
      }
      var next := Others(xs, h);
      RunOnList(sha, next, tried[1..]);
      var (oks, text) := RunOf(sha, Join(xs, ';'), tried);
      var (more, last) := RunOf(sha, Join(next, ';'), tried[1..]);
      assert oks == [h in xs] + more && oks[1..] == more && text == last;
      forall i | 0 <= i < |tried| ensures oks[i] <==> Fresh(sha, xs, tried, i) {
        if i > 0 {
          FreshLater(sha, xs, tried, i);
        }
      }
    }
  }

  ghost predicate NoCollision(sha: Sha256, codes: seq<string>) {
    forall a <- codes, b <- codes :: sha(a) == sha(b) ==> a == b
  }

  lemma IssuedHashes(sha: Sha256, codes: seq<string>)
    requires IsHash(sha) && Different(codes) && NoCollision(sha, codes)
    ensures Separable(AllHashed(sha, codes)) && Different(AllHashed(sha, codes))
  {
    var xs := AllHashed(sha, codes);
    forall i | 0 <= i < |xs| ensures xs[i] != [] && ';' !in xs[i] {
      HashedText(sha, codes[i]);
    }
    forall i, j | 0 <= i < j < |xs| ensures xs[i] != xs[j] {
      HashedDiffers(sha, codes[i], codes[j]);
      assert codes[i] in codes && codes[j] in codes;
    }
  }

  /** After any run of attempts on freshly issued codes: a code is accepted exactly when it was issued
      and not accepted, or even tried, before, and the count is what was issued less what was
      accepted. */
  lemma EachCodeWorksOnce(sha: Sha256, codes: seq<string>, tried: seq<string>)
    requires IsHash(sha) && Different(codes) && NoCollision(sha, codes + tried)
    ensures var (oks, text) := RunOf(sha, Join(AllHashed(sha, codes), ';'), tried);
            && |oks| == |tried|
            && (forall i :: 0 <= i < |tried| ==> (oks[i] <==> tried[i] in codes && tried[i] !in tried[..i]))
            && Count(text) + Successes(oks) == |codes|
  {
    assert forall c <- codes :: c in codes + tried;
    assert forall c <- tried :: c in codes + tried;
    IssuedHashes(sha, codes);
    var xs := AllHashed(sha, codes);
    RunOnList(sha, xs, tried);
    forall i | 0 <= i < |tried| ensures Fresh(sha, xs, tried, i) <==> tried[i] in codes && tried[i] !in tried[..i] {
      FreshIsUntried(sha, codes, tried, i);
    }
  }

  lemma SameHash(sha: Sha256, all: seq<string>, a: string, b: string)
    requires IsHash(sha) && NoCollision(sha, all) && a in all && b in all
    ensures Hashed(sha, a) == Hashed(sha, b) <==> a == b
  {
    HashedDiffers(sha, a, b);
  }

  lemma FreshIsUntried(sha: Sha256, codes: seq<string>, tried: seq<string>, i: nat)
    requires IsHash(sha) && NoCollision(sha, codes + tried) && i < |tried|
    ensures Fresh(sha, AllHashed(sha, codes), tried, i) <==> tried[i] in codes && tried[i] !in tried[..i]
  {
    var all, xs, h := codes + tried, AllHashed(sha, codes), Hashed(sha, tried[i]);
    forall k | 0 <= k < |codes| ensures xs[k] == h <==> codes[k] == tried[i] {
      SameHash(sha, all, codes[k], tried[i]);
    }
    assert h in xs <==> tried[i] in codes by {
      if h in xs {
        var k :| 0 <= k < |xs| && xs[k] == h;
      }
      if tried[i] in codes {
        var k :| 0 <= k < |codes| && codes[k] == tried[i];
        assert xs[k] == h;
      }
    }
    forall j | 0 <= j < i ensures Hashed(sha, tried[j]) == h <==> tried[j] == tried[i] {
      SameHash(sha, all, tried[j], tried[i]);
    }
    assert (exists j :: 0 <= j < i && tried[j] == tried[i]) <==> tried[i] in tried[..i];
  }

  // ---- the store ----

  lemma NamesDiffer()
    ensures RECOVERY_CODES != AUTHENTICATOR_KEY
  {
    assert |RECOVERY_CODES| != |AUTHENTICATOR_KEY|;
  }

  datatype TokenKey = TokenKey(user: string, loginProvider: string, name: string)
  datatype Token = Token(value: string, isVerified: bool)
  datatype Write = Write(key: TokenKey, value: string)

  /** Authenticator keys are encrypted in the database; a row of recovery codes counts as verified. */
  function WithToken(tokens: map<TokenKey, Token>, w: Write, seal: string -> string): map<TokenKey, Token> {
    var verified := w.key.name == RECOVERY_CODES || (w.key in tokens && tokens[w.key].isVerified);
    tokens[w.key := Token(if w.key.name == AUTHENTICATOR_KEY then seal(w.value) else w.value, verified)]
  }

  function TokenOf(tokens: map<TokenKey, Token>, key: TokenKey, unseal: string -> string): Option<string> {
    if key !in tokens then None
    else Some(if key.name == AUTHENTICATOR_KEY then unseal(tokens[key].value) else tokens[key].value)
  }

  function AfterWrites(tokens: map<TokenKey, Token>, writes: seq<Write>, seal: string -> string): map<TokenKey, Token>
    decreases |writes|
  {
    if writes == [] then tokens else AfterWrites(WithToken(tokens, writes[0], seal), writes[1..], seal)
  }

  function LastWritten(writes: seq<Write>, key: TokenKey): Option<string> {
    if writes == [] then None
    else if LastWritten(writes[1..], key).Some? then LastWritten(writes[1..], key)
    else if writes[0].key == key then Some(writes[0].value)
    else None
  }

  /** Whatever is written before and after: a token is read as it was written last, encrypted or not. */
  lemma {:induction false} WritesReadBack(tokens: map<TokenKey, Token>, writes: seq<Write>, key: TokenKey,
                                          seal: string -> string, unseal: string -> string)
    requires forall v :: unseal(seal(v)) == v
    ensures TokenOf(AfterWrites(tokens, writes, seal), key, unseal) ==
            if LastWritten(writes, key).Some? then LastWritten(writes, key) else TokenOf(tokens, key, unseal)
    decreases |writes|
  {
    if writes != [] {
      WritesReadBack(WithToken(tokens, writes[0], seal), writes[1..], key, seal, unseal);
    }
  }

  /** What is stored under a key after any writes: the last text, sealed for authenticator keys only; and a
      row counts as verified when it did before, or when recovery codes have been written to it. */
  lemma {:induction false} WrittenRows(tokens: map<TokenKey, Token>, writes: seq<Write>, key: TokenKey,
                                       seal: string -> string)
    ensures var after, last := AfterWrites(tokens, writes, seal), LastWritten(writes, key);
            && (key in after <==> key in tokens || last.Some?)
            && (last.None? && key in tokens ==> after[key] == tokens[key])
            && (last.Some? ==>
                  after[key] == Token(if key.name == "AuthenticatorKey" then seal(last.value) else last.value,
                                      key.name == "RecoveryCodes" || (key in tokens && tokens[key].isVerified)))
    decreases |writes|
  {
    if writes != [] {
      NamesDiffer();
      WrittenRows(WithToken(tokens, writes[0], seal), writes[1..], key, seal);
    }
  }

  class CustomUserStore {
    var tokens: map<TokenKey, Token>
    /** Encryption in the database, and its inverse. */
    const seal: string -> string
    const unseal: string -> string

    constructor (seal: string -> string, unseal: string -> string)
      ensures tokens == map[] && this.seal == seal && this.unseal == unseal
    {
      tokens := map[];
      this.seal := seal;
      this.unseal := unseal;
    }

    function CodesKey(user: string): TokenKey {
      TokenKey(user, PROVIDER, RECOVERY_CODES)
    }

    /** The stored text of a user's codes; a user without a row has none. */
    function Text(user: string): string
      reads this
    {
      if CodesKey(user) in tokens then tokens[CodesKey(user)].value else ""
    }

    method SetToken(key: TokenKey, value: string)
      modifies this`tokens
      ensures tokens == WithToken(old(tokens), Write(key, value), seal)
    {
      var encrypt := key.name == AUTHENTICATOR_KEY;
      var isAutomaticallyVerified := key.name == RECOVERY_CODES;
      if key in tokens {
        var entity := tokens[key].(value := if encrypt then "" else value);
        if isAutomaticallyVerified {
          entity := entity.(isVerified := true);
        }
        tokens := tokens[key := entity];
      } else {
        tokens := tokens[key := Token(if encrypt then "" else value, isAutomaticallyVerified)];
      }
      if encrypt {
        tokens := tokens[key := tokens[key].(value := seal(value))];
      }
    }

    method GetToken(key: TokenKey) returns (value: Option<string>)
      ensures value == TokenOf(tokens, key, unseal)
    {
      if key !in tokens {
        return None;
      }
      return Some(if key.name == AUTHENTICATOR_KEY then unseal(tokens[key].value) else tokens[key].value);
    }

    method ReplaceCodes(sha: Sha256, user: string, recoveryCodes: seq<string>)
      modifies this`tokens
      ensures tokens == old(tokens)[TokenKey(user, "[AspNetUserStore]", "RecoveryCodes") :=
                                    Token(Join(AllHashed(sha, recoveryCodes), ';'), true)]
      ensures Text(user) == Join(AllHashed(sha, recoveryCodes), ';')
      ensures forall other :: other != user ==> Text(other) == old(Text(other))
    {
      hide Hashed, Join;
      NamesDiffer();
      var recoveryCodesList := recoveryCodes;
      for i := 0 to |recoveryCodesList|
        invariant |recoveryCodesList| == |recoveryCodes|
        invariant recoveryCodesList == AllHashed(sha, recoveryCodes)[..i] + recoveryCodes[i..]
      {
        recoveryCodesList := recoveryCodesList[i := Hashed(sha, recoveryCodesList[i])];
      }
      assert recoveryCodesList == AllHashed(sha, recoveryCodes);
      SetToken(CodesKey(user), Join(recoveryCodesList, ';'));
    }

    /** The codes but for one hash. */
    method Where(splitCodes: seq<string>, hash: string) returns (updatedCodes: seq<string>)
      ensures updatedCodes == Others(splitCodes, hash)
    {
      updatedCodes := [];
      for i := 0 to |splitCodes|
        invariant Others(splitCodes, hash) == updatedCodes + Others(splitCodes[i..], hash)
      {
        if splitCodes[i] != hash {
          updatedCodes := updatedCodes + [splitCodes[i]];
        }
      }
    }

    method RedeemCode(sha: Sha256, user: string, code: string) returns (redeemed: bool)
      modifies this`tokens
      ensures (redeemed, Text(user)) == Redeemed(old(Text(user)), Hashed(sha, code))
      ensures tokens == if redeemed then
                          old(tokens)[TokenKey(user, "[AspNetUserStore]", "RecoveryCodes") := Token(Text(user), true)]
                        else old(tokens)
      ensures forall other :: other != user ==> Text(other) == old(Text(other))
    {
      hide Hashed, Join, Split;
      NamesDiffer();
      var hash := Hashed(sha, code);
      var stored := GetToken(CodesKey(user));
      var splitCodes := Split(if stored.Some? then stored.value else "", ';');
      if hash in splitCodes {
        var updatedCodes := Where(splitCodes, hash);
        SetToken(CodesKey(user), Join(updatedCodes, ';'));
        return true;
      }
      return false;
    }

    method CountCodes(user: string) returns (n: nat)
      ensures n == Count(Text(user))
    {
      NamesDiffer();
      var stored := GetToken(CodesKey(user));
      var mergedCodes := if stored.Some? then stored.value else "";
      if |mergedCodes| > 0 {
        return |Split(mergedCodes, ';')|;
      }
      return 0;
    }
  }
}
