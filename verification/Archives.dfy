/** Listing the files of a tar archive that has been decompressed into memory. */
module Archives {
  import opened Results
  import opened Strings
  import opened Numbers

  /** `Damaged` is the service's own exception; the others come from converting and from allocating. */
  datatype ArchiveError = BadSize(field: string) | TooLarge(size: nat) | Damaged
  datatype FileList = Names(names: seq<string>) | Failed(error: ArchiveError)

  /** `Convert.ToInt64(text, 8)`: `None` is any of its exceptions. */
  type OctalParser = string -> Option<nat>

  const BLOCK := 512
  const MAX_ARRAY := 0x7FFFFFC7

  // ---- bytes and text ----

  /** The ASCII decoder replaces bytes outside its range. */
  function Ascii(bytes: Bytes): string {
    seq(|bytes|, i requires 0 <= i < |bytes| => if bytes[i] < 128 then bytes[i] as char else '?')
  }

  function TrimNulsLeft(s: string): string {
    if s != [] && s[0] == '\0' then TrimNulsLeft(s[1..]) else s
  }

  function TrimNulsRight(s: string): string {
    if s != [] && s[|s| - 1] == '\0' then TrimNulsRight(s[..|s| - 1]) else s
  }

  function TrimNuls(s: string): string {
    TrimNulsRight(TrimNulsLeft(s))
  }

  predicate IsBlank(s: string) {
    forall c <- s :: IsSpace(c)
  }

  /** What follows the last slash. */
  function BaseName(path: string): (base: string)
    ensures |base| <= |path| && base == path[|path| - |base|..] && '/' !in base
    ensures base == path || path[|path| - |base| - 1] == '/'
  {
    if '/' !in path then path
    else
      var base := BaseName(path[1..]);
      assert path[|path| - |base|..] == path[1..][|path[1..]| - |base|..];
      base
  }

  function BaseNames(paths: seq<string>): seq<string> {
    seq(|paths|, i requires 0 <= i < |paths| => BaseName(paths[i]))
  }

  // ---- the stream ----

  function Min(a: int, b: int): int {
    if a <= b then a else b
  }

  /** The bytes a read of `count` bytes gets: fewer at the end, none beyond it. */
  function Chunk(data: Bytes, position: nat, count: nat): (chunk: Bytes)
    ensures |chunk| == if position + count <= |data| then count else if position <= |data| then |data| - position else 0
    ensures forall k :: 0 <= k < |chunk| ==> chunk[k] == data[position + k]
  {
    if position >= |data| then [] else data[position..Min(position + count, |data|)]
  }

  /** A read leaves the rest of the buffer as it was. */
  function Overwrite(buffer: Bytes, chunk: Bytes): Bytes
    requires |chunk| <= |buffer|
  {
    chunk + buffer[|chunk|..]
  }

  class MemoryStream {
    const data: Bytes
    var position: nat

    constructor (data: Bytes)
      ensures this.data == data && position == 0
    {
      this.data := data;
      position := 0;
    }

    method Read(buffer: array<byte>, count: nat)
      requires count <= buffer.Length
      modifies this, buffer
      ensures buffer[..] == Overwrite(old(buffer[..]), Chunk(data, old(position), count))
      ensures position == old(position) + |Chunk(data, old(position), count)|
    {
      var chunk := Chunk(data, position, count);
      for i := 0 to |chunk|
        invariant forall k :: 0 <= k < buffer.Length ==> buffer[k] == if k < i then chunk[k] else old(buffer[k])
        invariant position == old(position)
      {
        buffer[i] := chunk[i];
      }
      position := position + |chunk|;
    }

    method Seek(offset: nat)
      modifies this
      ensures position == old(position) + offset
    {
      position := position + offset;
    }
  }

  // ---- one round ----

  datatype Round = Stop | Throw(error: ArchiveError) | Next(name: string, position: nat, buffer: Bytes)

  function Aligned(position: nat): nat {
    if position % BLOCK == 0 then position else position + (BLOCK - position % BLOCK)
  }

  function NameIn(buffer: Bytes): string {
    TrimNuls(Ascii(buffer))
  }

  /** What one pass of the loop does, from the position and the buffer it starts with. */
  function RoundAt(data: Bytes, position: nat, buffer: Bytes, parse: OctalParser): Round
    requires |buffer| == 100
  {
    var named := Overwrite(buffer, Chunk(data, position, 100));
    var name := NameIn(named);
    if IsBlank(name) then Stop
    else
      var p := position + |Chunk(data, position, 100)| + 24;
      var sized := Overwrite(named, Chunk(data, p, 12));
      var field := Trim(Ascii(sized[..12]));
      match parse(field)
      case None => Throw(BadSize(field))
      case Some(size) =>
        if size > MAX_ARRAY then Throw(TooLarge(size))
        else
          var body := p + |Chunk(data, p, 12)| + 376;
          var end := body + |Chunk(data, body, size)|;
          if end > |data| then Throw(Damaged) else Next(name, Aligned(end), sized)
  }

  /** Fewer than a block's bytes cannot hold a file: the round ends the list or throws. */
  lemma NextNeedsABlock(data: Bytes, position: nat, buffer: Bytes, parse: OctalParser)
    requires |buffer| == 100
    ensures var r := RoundAt(data, position, buffer, parse);
            r.Next? ==>
              && position + BLOCK <= |data| && r.position >= position + BLOCK && r.position % BLOCK == 0
              && |r.buffer| == 100
  {
  }

  /** All rounds from a position on. */
  function FilesFrom(data: Bytes, position: nat, buffer: Bytes, parse: OctalParser): FileList
    requires |buffer| == 100
    decreases if position <= |data| then |data| + 1 - position else 0
  {
    NextNeedsABlock(data, position, buffer, parse);
    match RoundAt(data, position, buffer, parse)
    case Stop => Names([])
    case Throw(e) => Failed(e)
    case Next(name, next, b) => Prepend([name], FilesFrom(data, next, b, parse))
  }

  function Prepend(names: seq<string>, rest: FileList): FileList {
    match rest
    case Names(more) => Names(names + more)
    case Failed(e) => Failed(e)
  }

  function Flattened(list: FileList): FileList {
    match list
    case Names(names) => Names(BaseNames(names))
    case Failed(e) => Failed(e)
  }

  function Zeros(n: nat): Bytes {
    seq(n, _ => 0)
  }

  function Listed(data: Bytes, position: nat, flatten: bool, parse: OctalParser): FileList {
    var list := FilesFrom(data, position, Zeros(100), parse);
    if flatten then Flattened(list) else list
  }

  /** One pass of the loop on the real buffer and stream. */
  method ReadEntry(stream: MemoryStream, buffer: array<byte>, parse: OctalParser) returns (r: Round)
    requires buffer.Length == 100
    modifies stream, buffer
    ensures r == RoundAt(stream.data, old(stream.position), old(buffer[..]), parse)
    ensures r.Next? ==> stream.position == r.position && buffer[..] == r.buffer
  {
    hide NameIn, Trim, Ascii, IsBlank;
    stream.Read(buffer, 100);
    var name := NameIn(buffer[..]);
    if IsBlank(name) {
      return Stop;
    }
    stream.Seek(24);
    stream.Read(buffer, 12);
    var field := Trim(Ascii(buffer[..12]));
    var size := parse(field);
    if size.None? {
      return Throw(BadSize(field));
    }
    stream.Seek(376);
    if size.value > MAX_ARRAY {
      return Throw(TooLarge(size.value));
    }
    var buf := new byte[size.value];
    stream.Read(buf, buf.Length);
    if stream.position > |stream.data| {
      return Throw(Damaged);
    }
    var offset := BLOCK - stream.position % BLOCK;
    if offset == BLOCK {
      offset := 0;
    }
    stream.Seek(offset);
    return Next(name, stream.position, buffer[..]);
  }

  method Flatten(outFileList: seq<string>) returns (flattened: seq<string>)
    ensures flattened == BaseNames(outFileList)
  {
    flattened := [];
    for i := 0 to |outFileList|
      invariant flattened == BaseNames(outFileList[..i])
    {
      flattened := flattened + [BaseName(outFileList[i])];
    }
  }

  method ReturnFilesListInTar(stream: MemoryStream, flatten: bool, parse: OctalParser) returns (r: FileList)
    modifies stream
    ensures r == Listed(stream.data, old(stream.position), flatten, parse)
  {
    hide RoundAt;
    var data := stream.data;
    var buffer := new byte[100](_ => 0);
    assert buffer[..] == Zeros(100);
    var outFileList := [];
    ghost var start := stream.position;
    while true
      invariant fresh(buffer) && buffer.Length == 100
      invariant FilesFrom(data, start, Zeros(100), parse)
             == Prepend(outFileList, FilesFrom(data, stream.position, buffer[..], parse))
      invariant start % BLOCK == 0 ==> stream.position % BLOCK == 0
      decreases if stream.position <= |data| then |data| + 1 - stream.position else 0
    {
      ghost var position, before := stream.position, buffer[..];
      NextNeedsABlock(data, position, before, parse);
      var round := ReadEntry(stream, buffer, parse);
      if round.Stop? {
        break;
      }
      if round.Throw? {
        return Failed(round.error);
      }
      ghost var rest := FilesFrom(data, stream.position, buffer[..], parse);
      assert Prepend(outFileList, Prepend([round.name], rest)) == Prepend(outFileList + [round.name], rest);
      outFileList := outFileList + [round.name];
    }
    if flatten {
      outFileList := Flatten(outFileList);
    }
    return Names(outFileList);
  }
}
