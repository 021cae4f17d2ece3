/** The string operations the services use. */
module Strings {

  /** ASCII white space. */
  predicate IsSpace(c: char) {
    c == ' ' || '\t' <= c <= '\r'
  }

  function TrimStart(s: string): string {
    if s != [] && IsSpace(s[0]) then TrimStart(s[1..]) else s
  }

  function TrimEnd(s: string): string {
    if s != [] && IsSpace(s[|s| - 1]) then TrimEnd(s[..|s| - 1]) else s
  }

  function Trim(s: string): string {
    TrimEnd(TrimStart(s))
  }

  lemma {:induction false} TrimStartEnds(s: string)
    ensures TrimStart(s) == [] || !IsSpace(TrimStart(s)[0])
  {
    if s != [] && IsSpace(s[0]) {
      TrimStartEnds(s[1..]);
    }
  }

  lemma {:induction false} TrimEndEnds(s: string)
    ensures TrimEnd(s) <= s
    ensures TrimEnd(s) == [] || !IsSpace(TrimEnd(s)[|TrimEnd(s)| - 1])
  {
    if s != [] && IsSpace(s[|s| - 1]) {
      TrimEndEnds(s[..|s| - 1]);
    }
  }

  lemma {:induction false} TrimStartIs(s: string)
    ensures |TrimStart(s)| <= |s| && TrimStart(s) == s[|s| - |TrimStart(s)|..]
    ensures forall k :: 0 <= k < |s| - |TrimStart(s)| ==> IsSpace(s[k])
  {
    if s != [] && IsSpace(s[0]) {
      TrimStartIs(s[1..]);
      forall k | 0 <= k < |s| - |TrimStart(s)| ensures IsSpace(s[k]) {
        assert k > 0 ==> s[k] == s[1..][k - 1];
      }
    }
  }

  lemma {:induction false} TrimEndIs(s: string)
    ensures TrimEnd(s) <= s && forall k :: |TrimEnd(s)| <= k < |s| ==> IsSpace(s[k])
  {
    if s != [] && IsSpace(s[|s| - 1]) {
      TrimEndIs(s[..|s| - 1]);
      forall k | |TrimEnd(s)| <= k < |s| ensures IsSpace(s[k]) {
        assert k < |s| - 1 ==> s[k] == s[..|s| - 1][k];
      }
    }
  }

  /** Trimming removes all white space from both ends and nothing else. */
  lemma TrimIs(s: string) returns (i: nat, j: nat)
    ensures i <= j <= |s| && Trim(s) == s[i..j]
    ensures forall k :: 0 <= k < i || j <= k < |s| ==> s[k] in " \t\n\U{0B}\U{0C}\r"
    ensures Trim(s) != [] ==> s[i] !in " \t\n\U{0B}\U{0C}\r" && s[j - 1] !in " \t\n\U{0B}\U{0C}\r"
  {
    TrimStartIs(s);
    TrimStartEnds(s);
    var t := TrimStart(s);
    TrimEndIs(t);
    TrimEndEnds(t);
    i, j := |s| - |t|, |s| - |t| + |TrimEnd(t)|;
    forall c ensures IsSpace(c) <==> c in " \t\n\U{0B}\U{0C}\r" {
    }
    forall k | 0 <= k < i || j <= k < |s| ensures IsSpace(s[k]) {
      assert k >= j ==> s[k] == t[k - i];
    }
  }

  lemma TrimIsIdempotent(s: string)
    ensures Trim(Trim(s)) == Trim(s)
  {
    TrimStartEnds(s);
    TrimEndEnds(TrimStart(s));
  }

  lemma NothingToTrim(s: string)
    requires s != [] && !IsSpace(s[0]) && !IsSpace(s[|s| - 1])
    ensures Trim(s) == s
  {
  }

  // ---- joining and splitting ----

  function Join(xs: seq<string>, separator: char): string {
    if xs == [] then [] else if |xs| == 1 then xs[0] else xs[0] + [separator] + Join(xs[1..], separator)
  }

  function Split(s: string, separator: char): (xs: seq<string>)
    ensures xs != []
  {
    if s == [] then [[]]
    else
      var rest := Split(s[1..], separator);
      if s[0] == separator then [[]] + rest else [[s[0]] + rest[0]] + rest[1..]
  }

  lemma {:induction false} SplitOne(a: string, separator: char)
    requires separator !in a
    ensures Split(a, separator) == [a]
  {
    if a != [] {
      SplitOne(a[1..], separator);
      assert a == [a[0]] + a[1..];
    }
  }

  lemma {:induction false} SplitFirst(a: string, rest: string, separator: char)
    requires separator !in a
    ensures Split(a + [separator] + rest, separator) == [a] + Split(rest, separator)
  {
    var s := a + [separator] + rest;
    if a == [] {
      assert s[1..] == rest;
    } else {
      assert s[1..] == a[1..] + [separator] + rest;
      SplitFirst(a[1..], rest, separator);
      assert a == [a[0]] + a[1..];
    }
  }

  /** Joining undoes splitting, and no part holds the separator. */
  lemma {:induction false} JoinUndoesSplit(s: string, separator: char)
    ensures Join(Split(s, separator), separator) == s
    ensures forall part <- Split(s, separator) :: separator !in part
  {
    if s != [] {
      JoinUndoesSplit(s[1..], separator);
      var rest, parts := Split(s[1..], separator), Split(s, separator);
      assert parts[1..] == if s[0] == separator then rest else rest[1..];
      assert rest == [rest[0]] + rest[1..];
      assert s == [s[0]] + s[1..];
      forall part <- parts ensures separator !in part {
        assert part == parts[0] || part in parts[1..];
        assert part in parts[1..] ==> part in rest;
        assert rest[0] in rest;
      }
      if s[0] != separator {
        assert Join(parts, separator) == [s[0]] + Join(rest, separator);
      }
    }
  }
}
