/** What listing an archive guarantees on any bytes, and on well-formed archives. */
module ArchiveReading {
  import opened Results
  import opened Strings
  import opened Numbers
  import opened Archives

  // ---- any bytes ----

  /** A round that starts with less than a block left ends the list if the name is blank, and
      throws otherwise. */
  lemma ShortRoundThrows(data: Bytes, position: nat, buffer: Bytes, parse: OctalParser)
    requires |buffer| == 100 && |data| < position + BLOCK
    ensures var r := RoundAt(data, position, buffer, parse);
            if IsBlank(NameIn(Overwrite(buffer, Chunk(data, position, 100)))) then r.Stop? else r.Throw?
  {
    NextNeedsABlock(data, position, buffer, parse);
  }

  lemma {:induction false} NamesFitFrom(data: Bytes, position: nat, buffer: Bytes, parse: OctalParser)
    requires |buffer| == 100
    ensures var r := FilesFrom(data, position, buffer, parse);
            r.Names? && r.names != [] ==> position + BLOCK * |r.names| <= |data|
    decreases if position <= |data| then |data| + 1 - position else 0
  {
    NextNeedsABlock(data, position, buffer, parse);
    var r := RoundAt(data, position, buffer, parse);
    if r.Next? {
      NamesFitFrom(data, r.position, r.buffer, parse);
    }
  }

  /** At most one name for every block of the archive. */
  lemma NamesFit(data: Bytes, flatten: bool, parse: OctalParser)
    ensures var r := Listed(data, 0, flatten, parse);
            r.Names? ==> |r.names| <= |data| / BLOCK
  {
    NamesFitFrom(data, 0, Zeros(100), parse);
  }

  // ---- an archive that ends with its last file ----

  /** A parser that reads digits has no use for empty texts or texts with a NUL in them. */
  ghost predicate ReadsDigits(parse: OctalParser) {
    forall s :: parse(s).Some? ==> s != [] && '\0' !in s
  }

  lemma TrimmedHasNonSpace(s: string) returns (k: nat)
    requires Trim(s) != []
    ensures k < |s| && !IsSpace(s[k]) && s[k] in Trim(s)
  {
    var t := TrimStart(s);
    TrimStartIs(s);
    TrimEndEnds(t);
    var trimmed := TrimEnd(t);
    assert trimmed[|trimmed| - 1] == t[|trimmed| - 1];
    k := |s| - |t| + |trimmed| - 1;
  }

  lemma {:induction false} TrimNulsKeeps(s: string, k: nat)
    requires k < |s| && s[k] != '\0'
    ensures s[k] in TrimNulsLeft(s) && s[k] in TrimNulsRight(s)
  {
    if s[0] == '\0' {
      TrimNulsKeeps(s[1..], k - 1);
    }
    if s[|s| - 1] == '\0' {
      TrimNulsKeeps(s[..|s| - 1], k);
    }
  }

  /** A file that reaches the end of the data leaves its size in the buffer, and the next round,
      which reads nothing, takes that for a name: without an end marker there is no list. */
  lemma EndMarkerIsNeeded(data: Bytes, position: nat, buffer: Bytes, parse: OctalParser)
    requires |buffer| == 100 && ReadsDigits(parse)
    requires RoundAt(data, position, buffer, parse).Next? && RoundAt(data, position, buffer, parse).position >= |data|
    ensures FilesFrom(data, position, buffer, parse).Failed?
  {
    var r := RoundAt(data, position, buffer, parse);
    var field := Ascii(r.buffer[..12]);
    var k := TrimmedHasNonSpace(field);
    var text := Ascii(r.buffer);
    assert text[k] == field[k];
    TrimNulsKeeps(text, k);
    var left := TrimNulsLeft(text);
    var j :| 0 <= j < |left| && left[j] == text[k];
    TrimNulsKeeps(left, j);
    assert Overwrite(r.buffer, []) == r.buffer;
    assert text[k] in NameIn(r.buffer);
    ShortRoundThrows(data, r.position, r.buffer, parse);
  }

  // ---- well-formed archives ----

  /** A header block, the file's bytes, and what fills the last block. */
  datatype TarFile = TarFile(header: Bytes, body: Bytes, padding: Bytes) {
    function Laid(): Bytes { header + body + padding }
  }

  predicate IsName(name: string) {
    && 1 <= |name| <= 100 && !IsBlank(name)
    && forall i :: 0 <= i < |name| ==> name[i] != '\0' && name[i] as int < 128
  }

  function Encode(name: string): Bytes
    requires forall i :: 0 <= i < |name| ==> name[i] as int < 128
  {
    seq<byte>(|name|, i requires 0 <= i < |name| => name[i] as int)
  }

  predicate IsFile(f: TarFile, name: string, parse: OctalParser) {
    && IsName(name)
    && |f.header| == BLOCK && f.header[..100] == Encode(name) + Zeros(100 - |name|)
    && parse(Trim(Ascii(f.header[124..136]))) == Some(|f.body|) && |f.body| <= MAX_ARRAY
    && |f.padding| < BLOCK && |f.Laid()| % BLOCK == 0
  }

  function Laid(files: seq<TarFile>): Bytes {
    if files == [] then [] else files[0].Laid() + Laid(files[1..])
  }

  predicate AreFiles(files: seq<TarFile>, names: seq<string>, parse: OctalParser) {
    |files| == |names| && forall i :: 0 <= i < |files| ==> IsFile(files[i], names[i], parse)
  }

  lemma {:induction false} NulsTrimmed(name: string, n: nat)
    requires name != [] && name[|name| - 1] != '\0'
    ensures TrimNulsRight(name + seq(n, _ => '\0')) == name
  {
    var s := name + seq(n, _ => '\0');
    if n > 0 {
      assert s[..|s| - 1] == name + seq(n - 1, _ => '\0');
      NulsTrimmed(name, n - 1);
    } else {
      assert s == name;
    }
  }

  lemma NameReadBack(name: string)
    requires IsName(name)
    ensures NameIn(Encode(name) + Zeros(100 - |name|)) == name
  {
    var text := Ascii(Encode(name) + Zeros(100 - |name|));
    assert text == name + seq(100 - |name|, _ => '\0');
    NulsTrimmed(name, 100 - |name|);
  }

  lemma {:induction false} OnlyNuls(n: nat)
    ensures TrimNulsLeft(seq(n, _ => '\0')) == []
  {
    if n > 0 {
      assert seq(n, _ => '\0')[1..] == seq(n - 1, _ => '\0');
      OnlyNuls(n - 1);
    }
  }

  /** A block of zeros ends the list. */
  lemma ZeroBlockStops(data: Bytes, position: nat, buffer: Bytes, parse: OctalParser)
    requires |buffer| == 100 && position + 100 <= |data| && data[position..position + 100] == Zeros(100)
    ensures RoundAt(data, position, buffer, parse) == Stop
  {
    assert Overwrite(buffer, Zeros(100)) == Zeros(100);
    assert Ascii(Zeros(100)) == seq(100, _ => '\0');
    OnlyNuls(100);
  }

  /** So does a block whose name is nothing but white space. */
  lemma BlankNameStops(data: Bytes, position: nat, name: string, buffer: Bytes, parse: OctalParser)
    requires |buffer| == 100 && 1 <= |name| <= 100
    requires forall i :: 0 <= i < |name| ==> IsSpace(name[i]) && name[i] as int < 128
    requires position + 100 <= |data| && data[position..position + 100] == Encode(name) + Zeros(100 - |name|)
    ensures RoundAt(data, position, buffer, parse) == Stop
  {
    var field := Encode(name) + Zeros(100 - |name|);
    assert Overwrite(buffer, field) == field;
    assert Ascii(field) == name + seq(100 - |name|, _ => '\0');
    NulsTrimmed(name, 100 - |name|);
    assert NameIn(field) == name;
  }

  /** What the three reads of the round find. */
  lemma FileChunks(before: Bytes, f: TarFile, after: Bytes)
    requires |f.header| == BLOCK
    ensures var data, p := before + f.Laid() + after, |before|;
            && Chunk(data, p, 100) == f.header[..100]
            && Chunk(data, p + 124, 12) == f.header[124..136]
            && |Chunk(data, p + BLOCK, |f.body|)| == |f.body|
  {
    var data, p := before + f.Laid() + after, |before|;
    assert data[p..p + BLOCK] == f.header;
  }

  lemma HeaderRead(f: TarFile, name: string, buffer: Bytes)
    requires |buffer| == 100 && |f.header| == BLOCK && IsName(name)
             && f.header[..100] == Encode(name) + Zeros(100 - |name|)
    ensures var named := Overwrite(buffer, f.header[..100]);
            && |named| == 100 && NameIn(named) == name
            && |Overwrite(named, f.header[124..136])| == 100
                && Overwrite(named, f.header[124..136])[..12] == f.header[124..136]
  {
    assert Overwrite(buffer, f.header[..100]) == f.header[..100];
    NameReadBack(name);
  }

  lemma FileRound(before: Bytes, f: TarFile, after: Bytes, name: string, buffer: Bytes, parse: OctalParser)
    requires |buffer| == 100 && |before| % BLOCK == 0 && IsFile(f, name, parse)
    ensures var r := RoundAt(before + f.Laid() + after, |before|, buffer, parse);
            r.Next? && r.name == name && r.position == |before + f.Laid()| && r.position % BLOCK == 0
                && |r.buffer| == 100
  {
    hide Chunk, NameIn, Trim, Ascii, Overwrite;
    var data := before + f.Laid() + after;
    FileChunks(before, f, after);
    HeaderRead(f, name, buffer);
  }

  lemma {:induction false} FilesReadBack(before: Bytes, files: seq<TarFile>, names: seq<string>, tail: Bytes,
                                         buffer: Bytes, parse: OctalParser)
    requires |buffer| == 100 && |before| % BLOCK == 0 && AreFiles(files, names, parse)
    ensures FilesFrom(before + Laid(files) + Zeros(BLOCK) + tail, |before|, buffer, parse) == Names(names)
    decreases |files|
  {
    hide RoundAt, IsFile, Aligned;
    var data := before + Laid(files) + Zeros(BLOCK) + tail;
    if files == [] {
      assert data[|before|..|before| + 100] == Zeros(100);
      ZeroBlockStops(data, |before|, buffer, parse);
    } else {
      var f, next := files[0], before + files[0].Laid();
      var after := Laid(files[1..]) + Zeros(BLOCK) + tail;
      assert data == before + f.Laid() + after;
      FileRound(before, f, after, names[0], buffer, parse);
      assert data == next + Laid(files[1..]) + Zeros(BLOCK) + tail;
      FilesReadBack(next, files[1..], names[1..], tail, RoundAt(data, |before|, buffer, parse).buffer, parse);
      assert names == [names[0]] + names[1..];
    }
  }

  /** The reader returns the names of the files of an archive, in order, or what follows the last
      slash of each. */
  lemma ArchiveReadBack(files: seq<TarFile>, names: seq<string>, tail: Bytes, flatten: bool, parse: OctalParser)
    requires AreFiles(files, names, parse)
    ensures Listed(Laid(files) + Zeros(BLOCK) + tail, 0, flatten, parse) ==
            Names(if flatten then BaseNames(names) else names)
  {
    hide AreFiles, Laid, FilesFrom;
    FilesReadBack([], files, names, tail, Zeros(100), parse);
    assert [] + Laid(files) + Zeros(BLOCK) + tail == Laid(files) + Zeros(BLOCK) + tail;
  }

  // ---- archives that cannot be listed ----

  /** A header with a name and a size field, and what of the file follows it. */
  lemma HeaderRefused(before: Bytes, header: Bytes, rest: Bytes, name: string, buffer: Bytes, parse: OctalParser)
    requires |buffer| == 100 && |header| == BLOCK && IsName(name)
    requires header[..100] == Encode(name) + Zeros(100 - |name|)
    ensures var field := Trim(Ascii(header[124..136]));
            var size, r := parse(field), RoundAt(before + header + rest, |before|, buffer, parse);
            && (size.None? ==> r == Throw(BadSize(field)))
            && (size.Some? && size.value > 0x7FFFFFC7 ==> r == Throw(TooLarge(size.value)))
  {
    hide Chunk, NameIn, Trim, Ascii, Overwrite;
    var f := TarFile(header, [], []);
    var data := before + header + rest;
    assert f.Laid() == header && before + f.Laid() + rest == data;
    FileChunks(before, f, rest);
    HeaderRead(f, name, buffer);
  }

  lemma {:induction false} ListingFails(before: Bytes, files: seq<TarFile>, names: seq<string>, header: Bytes,
                                        rest: Bytes, name: string, buffer: Bytes, parse: OctalParser)
    requires |buffer| == 100 && |before| % BLOCK == 0 && AreFiles(files, names, parse)
    requires |header| == BLOCK && IsName(name) && header[..100] == Encode(name) + Zeros(100 - |name|)
    ensures var field := Trim(Ascii(header[124..136]));
            var size, r := parse(field), FilesFrom(before + Laid(files) + header + rest, |before|, buffer, parse);
            && (size.None? ==> r == Failed(BadSize(field)))
            && (size.Some? && size.value > 0x7FFFFFC7 ==> r == Failed(TooLarge(size.value)))
    decreases |files|
  {
    hide RoundAt, IsFile, Trim, Ascii, Encode, IsName;
    var data := before + Laid(files) + header + rest;
    if files == [] {
      assert data == before + header + rest;
      HeaderRefused(before, header, rest, name, buffer, parse);
    } else {
      var f, next := files[0], before + files[0].Laid();
      var after := Laid(files[1..]) + header + rest;
      assert data == before + f.Laid() + after;
      FileRound(before, f, after, names[0], buffer, parse);
      assert data == next + Laid(files[1..]) + header + rest;
      ListingFails(next, files[1..], names[1..], header, rest, name, RoundAt(data, |before|, buffer, parse).buffer,
          parse);
    }
  }

  /** After any well-formed files, a size that cannot be read, or that no array can have, is the error of the
      conversion or of the allocation. */
  lemma BadSizeFails(files: seq<TarFile>, names: seq<string>, header: Bytes, rest: Bytes, name: string, flatten: bool,
                     parse: OctalParser)
    requires AreFiles(files, names, parse)
    requires |header| == BLOCK && IsName(name) && header[..100] == Encode(name) + Zeros(100 - |name|)
    ensures var field := Trim(Ascii(header[124..136]));
            var size, r := parse(field), Listed(Laid(files) + header + rest, 0, flatten, parse);
            && (size.None? ==> r == Failed(BadSize(field)))
            && (size.Some? && size.value > 0x7FFFFFC7 ==> r == Failed(TooLarge(size.value)))
  {
    hide Trim, Ascii, AreFiles, IsName, Encode;
    ListingFails([], files, names, header, rest, name, Zeros(100), parse);
    assert [] + Laid(files) + header + rest == Laid(files) + header + rest;
  }

  // ---- octal sizes ----

  function OctalValue(s: string): Option<nat> {
    if s == [] then Some(0)
    else
      var c, front := s[|s| - 1], OctalValue(s[..|s| - 1]);
      if front.None? || !('0' <= c <= '7') then None else Some(8 * front.value + (c - '0') as nat)
  }

  function Octal(s: string): Option<nat> {
    if s == [] then None else OctalValue(s)
  }

  function Digits(n: nat, width: nat): string {
    if width == 0 then [] else Digits(n / 8, width - 1) + ['0' + (n % 8) as char]
  }

  function Power8(e: nat): nat {
    if e == 0 then 1 else 8 * Power8(e - 1)
  }

  lemma {:induction false} DigitsReadBack(n: nat, width: nat)
    requires n < Power8(width)
    ensures |Digits(n, width)| == width && OctalValue(Digits(n, width)) == Some(n)
    ensures forall i :: 0 <= i < width ==> '0' <= Digits(n, width)[i] <= '7'
  {
    if width > 0 {
      DigitsReadBack(n / 8, width - 1);
      var s := Digits(n, width);
      assert s[..|s| - 1] == Digits(n / 8, width - 1);
    }
  }

  lemma {:induction false} OctalReadsDigits(s: string, i: nat)
    requires OctalValue(s).Some? && i < |s|
    ensures '0' <= s[i] <= '7'
  {
    if i < |s| - 1 {
      OctalReadsDigits(s[..|s| - 1], i);
    }
  }

  lemma OctalParserReadsDigits()
    ensures ReadsDigits(Octal)
  {
    forall s | Octal(s).Some? ensures s != [] && '\0' !in s {
      forall i | 0 <= i < |s| ensures s[i] != '\0' {
        OctalReadsDigits(s, i);
      }
    }
  }

  function Spaces(n: nat): string {
    seq(n, _ => ' ')
  }

  lemma {:induction false} SpacesTrimmed(left: nat, s: string, right: nat)
    requires s != [] && !IsSpace(s[0]) && !IsSpace(s[|s| - 1])
    ensures Trim(Spaces(left) + s + Spaces(right)) == s
    decreases left + right
  {
    var text := Spaces(left) + s + Spaces(right);
    if left > 0 {
      assert text[1..] == Spaces(left - 1) + s + Spaces(right);
      SpacesTrimmed(left - 1, s, right);
    } else {
      assert text == s + Spaces(right) && TrimStart(text) == text;
      if right > 0 {
        var shorter := s + Spaces(right - 1);
        assert text[..|text| - 1] == shorter && shorter == Spaces(0) + s + Spaces(right - 1);
        assert TrimStart(shorter) == shorter;
        SpacesTrimmed(0, s, right - 1);
      } else {
        assert text == s;
      }
    }
  }

  /** The size field of the "ustar Interchange Format": octal digits padded with spaces. */
  predicate IsSizeField(field: string, size: nat, left: nat, width: nat, right: nat) {
    && width > 0 && left + width + right == 12 && size < Power8(width)
    && field == Spaces(left) + Digits(size, width) + Spaces(right)
  }

  /** Archives whose sizes are written that way are read back, with octal numbers read digit by
      digit. */
  lemma UstarIsFile(f: TarFile, name: string, left: nat, width: nat, right: nat)
    requires IsName(name) && |f.header| == BLOCK && f.header[..100] == Encode(name) + Zeros(100 - |name|)
    requires IsSizeField(Ascii(f.header[124..136]), |f.body|, left, width, right)
    requires |f.body| <= MAX_ARRAY && |f.padding| < BLOCK && |f.Laid()| % BLOCK == 0
    ensures IsFile(f, name, Octal)
  {
    var digits := Digits(|f.body|, width);
    DigitsReadBack(|f.body|, width);
    SpacesTrimmed(left, digits, right);
  }
}
