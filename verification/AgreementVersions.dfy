/** Terms-of-service agreements and the numbering of their versions. */
module AgreementVersions {
  import opened Results
  import opened Strings
  import opened Numbers
  import opened Archives
  import opened ArchiveReading

  const INT_MAX := 0x7FFF_FFFF
  const INT_MIN := -0x8000_0000

  // ---- decimal numbers ----

  function Decimal(n: nat): string {
    if n < 10 then ['0' + n as char] else Decimal(n / 10) + ['0' + (n % 10) as char]
  }

  function Print(x: int): string {
    if x < 0 then "-" + Decimal(-x) else Decimal(x)
  }

  function DecimalValue(s: string): Option<nat> {
    if s == [] then Some(0)
    else
      var c, front := s[|s| - 1], DecimalValue(s[..|s| - 1]);
      if front.None? || !('0' <= c <= '9') then None else Some(10 * front.value + (c - '0') as nat)
  }

  function InRange(x: int): Option<int> {
    if INT_MIN <= x <= INT_MAX then Some(x) else None
  }

  function ParseDigits(s: string, negative: bool): Option<int> {
    if s == [] then None
    else
      match DecimalValue(s)
      case None => None
      case Some(n) => InRange(if negative then 0 - n else n)
  }

  /** `int.TryParse`: white space around the number and one sign are accepted. */
  function ParseInt(text: string): Option<int> {
    var s := Trim(text);
    if s == [] then None
    else if s[0] == '-' || s[0] == '+' then ParseDigits(s[1..], s[0] == '-')
    else ParseDigits(s, false)
  }

  lemma {:induction false} DecimalReadBack(n: nat)
    ensures Decimal(n) != [] && DecimalValue(Decimal(n)) == Some(n)
    ensures forall c <- Decimal(n) :: '0' <= c <= '9'
  {
    if n < 10 {
      assert Decimal(n)[..0] == [];
    } else {
      DecimalReadBack(n / 10);
      var s := Decimal(n);
      assert s[..|s| - 1] == Decimal(n / 10);
    }
  }

  lemma PrintReadBack(x: int)
    requires INT_MIN <= x <= INT_MAX
    ensures ParseInt(Print(x)) == Some(x) && '.' !in Print(x)
  {
    hide Decimal, DecimalValue, Trim;
    if x < 0 {
      DecimalReadBack(-x);
      var s := Print(x);
      assert s[1..] == Decimal(-x) && s[|s| - 1] in Decimal(-x);
      NothingToTrim(s);
    } else {
      DecimalReadBack(x);
      var s := Print(x);
      assert s[0] in s && s[|s| - 1] in s;
      NothingToTrim(s);
    }
  }

  /** White space around the digits and one sign before them are allowed; what does not fit 32 bits is not a
      number. */
  lemma ParseReads(left: nat, sign: string, n: nat, right: nat)
    requires sign in {"", "+", "-"}
    ensures var x := if sign == "-" then 0 - n else n;
            ParseInt(Spaces(left) + (sign + Decimal(n)) + Spaces(right)) ==
            if -0x8000_0000 <= x <= 0x7FFF_FFFF then Some(x) else None
  {
    hide Decimal, DecimalValue, Trim;
    DecimalReadBack(n);
    var s := sign + Decimal(n);
    assert s[|s| - 1] == Decimal(n)[|Decimal(n)| - 1] && s[|s| - 1] in Decimal(n);
    assert sign == "" ==> s[0] in Decimal(n);
    SpacesTrimmed(left, s, right);
    assert sign != "" ==> s[1..] == Decimal(n);
    assert sign == "" ==> s == Decimal(n);
  }

  // ---- versions ----

  datatype Version = Version(year: int, number: int)

  predicate Before(a: Version, b: Version) {
    a.year < b.year || (a.year == b.year && a.number < b.number)
  }

  function Read(text: string): Option<Version> {
    var parts := Split(text, '.');
    if |parts| != 2 then None
    else
      match (ParseInt(parts[0]), ParseInt(parts[1]))
      case (Some(year), Some(number)) => Some(Version(year, number))
      case _ => None
  }

  function Write(v: Version): string {
    Print(v.year) + "." + Print(v.number)
  }

  predicate IsInt(x: int) {
    INT_MIN <= x <= INT_MAX
  }

  /** The text is one the service writes. */
  predicate IsWritten(text: string) {
    && Read(text).Some? && IsInt(Read(text).value.year) && IsInt(Read(text).value.number)
    && text == Write(Read(text).value)
  }

  lemma WriteReadBack(v: Version)
    requires IsInt(v.year) && IsInt(v.number)
    ensures Read(Write(v)) == Some(v) && Split(Write(v), '.') == [Print(v.year), Print(v.number)] && IsWritten(Write(v))
  {
    PrintReadBack(v.year);
    PrintReadBack(v.number);
    SplitFirst(Print(v.year), Print(v.number), '.');
    SplitOne(Print(v.number), '.');
  }

  /** Addition of 32-bit integers wraps around. */
  function Successor(x: int): int {
    if x == INT_MAX then INT_MIN else x + 1
  }

  /** The version after the latest stored one, if any; texts that are not versions start over. */
  function NewVersion(latest: Option<string>, year: nat): string {
    match latest
    case None => Print(year) + ".1"
    case Some(text) =>
      var parts := Split(text, '.');
      if |parts| != 2 then Print(year) + ".1"
      else
        match (ParseInt(parts[0]), ParseInt(parts[1]))
        case (Some(y), Some(n)) => if y < year then Print(year) + ".1" else parts[0] + "." + Print(Successor(n))
        case _ => Print(year) + ".1"
  }

  predicate IsYear(year: nat) {
    1 <= year <= 9999
  }

  function NextVersion(latest: Option<Version>, year: nat): Version {
    if latest.None? || latest.value.year < year then Version(year, 1)
    else Version(latest.value.year, Successor(latest.value.number))
  }

  /** On texts the service wrote, it writes the next version. */
  lemma NewVersionIsNext(latest: Option<string>, year: nat)
    requires IsYear(year) && (latest.Some? ==> IsWritten(latest.value))
    ensures var next := NextVersion(if latest.Some? then Read(latest.value) else None, year);
            NewVersion(latest, year) == Write(next) && Read(Write(next)) == Some(next) && IsWritten(Write(next))
  {
    assert Print(1) == "1";
    WriteReadBack(Version(year, 1));
    if latest.Some? {
      var v := Read(latest.value).value;
      WriteReadBack(v);
      WriteReadBack(Version(v.year, Successor(v.number)));
    }
  }

  /** Texts that are not versions start over; others keep their year as it is written. */
  lemma NewVersionOfAny(text: string, year: nat)
    ensures Read(text).None? ==> NewVersion(Some(text), year) == Print(year) + ".1"
    ensures Read(text).Some? && Read(text).value.year < year ==> NewVersion(Some(text), year) == Print(year) + ".1"
    ensures Read(text).Some? && Read(text).value.year >= year && Read(text).value.number < 0x7FFF_FFFF ==>
              |Split(text, '.')| == 2
              && NewVersion(Some(text), year) == Split(text, '.')[0] + "." + Print(Read(text).value.number + 1)
  {
    hide Split, ParseInt, Print;
  }

  /** The next version is later exactly when its number does not overflow. */
  lemma NextIsLaterIff(latest: Version, year: nat)
    requires IsInt(latest.number)
    ensures Before(latest, NextVersion(Some(latest), year)) <==> latest.year < year || latest.number < INT_MAX
  {
  }

  /** After the largest number comes the smallest. */
  lemma NumbersOverflow()
    ensures var last, next := Version(2020, INT_MAX), Version(2020, INT_MIN);
            NewVersion(Some(Write(last)), 2020) == Write(next) && Before(next, last)
  {
    hide Write, NewVersion, Read;
    WriteReadBack(Version(2020, INT_MAX));
    NewVersionIsNext(Some(Write(Version(2020, INT_MAX))), 2020);
  }

  // ---- the stored agreements, in the order of their creation ----

  datatype Agreement = Agreement(id: nat, name: string, version: string)

  function Named(rows: seq<Agreement>, name: string): seq<Agreement> {
    if rows == [] then []
    else
      var last := rows[|rows| - 1];
      Named(rows[..|rows| - 1], name) + if last.name == name then [last] else []
  }

  /** The version of the row created last. */
  function LatestVersion(rows: seq<Agreement>, name: string): Option<string> {
    var named := Named(rows, name);
    if named == [] then None else Some(named[|named| - 1].version)
  }

  function WithoutId(rows: seq<Agreement>, id: nat): seq<Agreement> {
    if rows == [] then []
    else
      var last := rows[|rows| - 1];
      WithoutId(rows[..|rows| - 1], id) + if last.id == id then [] else [last]
  }

  const PAGE := "terms_of_service.html"
  const STYLE := "terms_of_service.css"

  /** The archive lists both files; a damaged archive is the service's own error. */
  function CheckFile(file: Bytes, parse: OctalParser): Outcome {
    match Listed(file, 0, true, parse)
    case Failed(Damaged) => Fail(NotProcessable("archive"))
    case Failed(_) => Fail(Unhandled("archive"))
    case Names(names) =>
      if PAGE !in names then Fail(NotProcessable(PAGE))
      else if STYLE !in names then Fail(NotProcessable(STYLE))
      else Pass
  }

  /** A file passes when it can be listed and both files are on the list. */
  lemma CheckFileIff(file: Bytes, parse: OctalParser)
    ensures var list := Listed(file, 0, true, parse);
            && (CheckFile(file, parse).Pass? <==>
                  list.Names? && "terms_of_service.html" in list.names && "terms_of_service.css" in list.names)
            && (list.Names? && CheckFile(file, parse).Fail? ==>
                  CheckFile(file, parse).error == NotProcessable(
                    if "terms_of_service.html" in list.names then "terms_of_service.css" else "terms_of_service.html"))
            && (list.Failed? ==>
                  CheckFile(file, parse) ==
                  Fail(if list.error.Damaged? then NotProcessable("archive") else Unhandled("archive")))
  {
  }

  /** A well-formed archive passes when it holds both files, in whatever directories. */
  lemma ArchivePassesIff(files: seq<TarFile>, names: seq<string>, tail: Bytes, parse: OctalParser)
    requires AreFiles(files, names, parse)
    ensures CheckFile(Laid(files) + Zeros(BLOCK) + tail, parse).Pass? <==>
              && (exists i :: 0 <= i < |names| && BaseName(names[i]) == "terms_of_service.html")
              && (exists i :: 0 <= i < |names| && BaseName(names[i]) == "terms_of_service.css")
  {
    hide AreFiles, Laid, CheckFile;
    ArchiveReadBack(files, names, tail, true, parse);
    CheckFileIff(Laid(files) + Zeros(BLOCK) + tail, parse);
    var bases := BaseNames(names);
    forall name ensures name in bases <==> exists i :: 0 <= i < |names| && BaseName(names[i]) == name {
      if i :| 0 <= i < |names| && BaseName(names[i]) == name {
        assert bases[i] == name;
      }
      if i :| 0 <= i < |bases| && bases[i] == name {
        assert BaseName(names[i]) == name;
      }
    }
  }

  datatype Agreements = Agreements(rows: seq<Agreement>, nextId: nat)

  datatype Request =
    | Create(name: string, file: Bytes, year: nat)
    | Delete(id: nat)

  function AfterCreate(s: Agreements, name: string, file: Bytes, year: nat, parse: OctalParser): Result<Agreements> {
    var trimmed := Trim(name);
    var row := Agreement(s.nextId, trimmed, NewVersion(LatestVersion(s.rows, trimmed), year));
    CheckFile(file, parse).Then(Ok(Agreements(s.rows + [row], s.nextId + 1)))
  }

  function AfterDelete(s: Agreements, id: nat): Result<Agreements> {
    if exists row <- s.rows :: row.id == id then Ok(s.(rows := WithoutId(s.rows, id))) else Err(NotFound("agreement"))
  }

  function After(s: Agreements, r: Request, parse: OctalParser): Agreements {
    var t := match r
      case Create(name, file, year) => AfterCreate(s, name, file, year, parse)
      case Delete(id) => AfterDelete(s, id);
    if t.Ok? then t.value else s
  }

  class TermsOfServiceService {
    var rows: seq<Agreement>
    var nextId: nat

    constructor ()
      ensures State() == Agreements([], 0)
    {
      rows, nextId := [], 0;
    }

    function State(): Agreements
      reads this
    {
      Agreements(rows, nextId)
    }

    method ValidateFile(file: Bytes, parse: OctalParser) returns (r: Outcome)
      ensures r == CheckFile(file, parse)
    {
      var stream := new MemoryStream(file);
      var list := ReturnFilesListInTar(stream, true, parse);
      match list
      case Failed(e) =>
        return Fail(if e.Damaged? then NotProcessable("archive") else Unhandled("archive"));
      case Names(names) =>
        if PAGE !in names {
          return Fail(NotProcessable(PAGE));
        }
        if STYLE !in names {
          return Fail(NotProcessable(STYLE));
        }
        return Pass;
    }

    method Create(agreementName: string, file: Bytes, year: nat, parse: OctalParser) returns (r: Outcome)
      modifies this
      ensures Realises(r, State(), AfterCreate(old(State()), agreementName, file, year, parse))
      ensures r.Fail? ==> State() == old(State())
    {
      var name := Trim(agreementName);
      var version := NewVersion(LatestVersion(rows, name), year);
      r := ValidateFile(file, parse);
      if r.Pass? {
        rows, nextId := rows + [Agreement(nextId, name, version)], nextId + 1;
      }
    }

    method Delete(id: nat) returns (r: Outcome)
      modifies this
      ensures Realises(r, State(), AfterDelete(old(State()), id))
      ensures r.Fail? ==> State() == old(State())
    {
      if !exists row <- rows :: row.id == id {
        return Fail(NotFound("agreement"));
      }
      rows := WithoutId(rows, id);
      r := Pass;
    }
  }

  // ---- versions increase ----

  predicate Written(rows: seq<Agreement>) {
    forall i :: 0 <= i < |rows| ==> IsWritten(rows[i].version)
  }

  predicate Later(a: Agreement, b: Agreement) {
    Read(a.version).Some? && Read(b.version).Some? && Before(Read(a.version).value, Read(b.version).value)
  }

  /** Later rows carry later versions. */
  predicate Increasing(rows: seq<Agreement>) {
    forall i, j :: 0 <= i < j < |rows| ==> Later(rows[i], rows[j])
  }

  predicate InOrder(rows: seq<Agreement>, name: string) {
    Written(Named(rows, name)) && Increasing(Named(rows, name))
  }

  lemma NamedAppend(rows: seq<Agreement>, row: Agreement, name: string)
    ensures Named(rows + [row], name) == Named(rows, name) + if row.name == name then [row] else []
  {
    assert (rows + [row])[..|rows|] == rows;
  }

  lemma WithoutAppend(rows: seq<Agreement>, row: Agreement, id: nat)
    ensures WithoutId(rows + [row], id) == WithoutId(rows, id) + if row.id == id then [] else [row]
  {
    assert (rows + [row])[..|rows|] == rows;
  }

  lemma {:induction false} DeletionCommutes(rows: seq<Agreement>, id: nat, name: string)
    ensures Named(WithoutId(rows, id), name) == WithoutId(Named(rows, name), id)
  {
    if rows != [] {
      var front, last := rows[..|rows| - 1], rows[|rows| - 1];
      DeletionCommutes(front, id, name);
      assert Named(front, name) + [] == Named(front, name) && WithoutId(front, id) + [] == WithoutId(front, id);
      NamedAppend(WithoutId(front, id), last, name);
      WithoutAppend(Named(front, name), last, id);
    }
  }

  lemma {:induction false} DeletionKeepsOrder(rows: seq<Agreement>, id: nat)
    requires Written(rows) && Increasing(rows)
    ensures Written(WithoutId(rows, id)) && Increasing(WithoutId(rows, id))
    ensures forall row <- WithoutId(rows, id) :: row in rows
  {
    hide IsWritten, Later;
    if rows != [] {
      var front, last := rows[..|rows| - 1], rows[|rows| - 1];
      DeletionKeepsOrder(front, id);
      var kept := WithoutId(front, id);
      forall i | 0 <= i < |kept| ensures Later(kept[i], last) {
        assert kept[i] in front;
        var k :| 0 <= k < |front| && front[k] == kept[i];
        assert rows[k] == kept[i];
      }
      assert front <= rows;
    }
  }

  lemma LaterThanLast(rows: seq<Agreement>, row: Agreement)
    requires Increasing(rows) && rows != []
    ensures Increasing(rows + [row]) <==> Later(rows[|rows| - 1], row)
  {
    var more := rows + [row];
    if Increasing(more) {
      assert Later(more[|rows| - 1], more[|rows|]);
    }
    if Later(rows[|rows| - 1], row) {
      forall i, j | 0 <= i < j < |more| ensures Later(more[i], more[j]) {
        if j == |rows| && i < |rows| - 1 {
          assert Later(rows[i], rows[|rows| - 1]);
        }
      }
    }
  }

  /** Creating an agreement keeps its versions increasing exactly when the latest number leaves room
      for another, or the year has moved on. */
  lemma CreateKeepsOrderIff(s: Agreements, name: string, file: Bytes, year: nat, parse: OctalParser, t: Agreements)
    requires IsYear(year) && InOrder(s.rows, Trim(name)) && AfterCreate(s, name, file, year, parse) == Ok(t)
    ensures Written(Named(t.rows, Trim(name)))
    ensures InOrder(t.rows, Trim(name)) <==> HasRoom(s.rows, Trim(name), year)
  {
    var trimmed := Trim(name);
    var named, latest := Named(s.rows, trimmed), LatestVersion(s.rows, trimmed);
    var row := Agreement(s.nextId, trimmed, NewVersion(latest, year));
    hide IsWritten, Read, NewVersion, Write, Increasing, Before, NextVersion, CheckFile, Trim, Named;
    NewVersionIsNext(latest, year);
    NamedAppend(s.rows, row, trimmed);
    assert Named(t.rows, trimmed) == named + [row];
    if named == [] {
      SingleIsIncreasing(row);
      assert named + [row] == [row];
    } else {
      WrittenIsInt(latest.value);
      NextIsLaterIff(Read(latest.value).value, year);
      LaterThanLast(named, row);
    }
  }

  lemma SingleIsIncreasing(row: Agreement)
    ensures Increasing([row])
  {
  }

  lemma WrittenIsInt(text: string)
    requires IsWritten(text)
    ensures Read(text).Some? && IsInt(Read(text).value.number)
  {
  }

  /** What a creation stores: one more row, under the trimmed name, with an identifier of its own, and the
      version that follows the latest one of the name. */
  lemma CreateStores(s: Agreements, name: string, file: Bytes, year: nat, parse: OctalParser)
    requires IsYear(year) && InOrder(s.rows, Trim(name))
    ensures var r, check := AfterCreate(s, name, file, year, parse), CheckFile(file, parse);
            if check.Fail? then r == Err(check.error)
            else
              var named := Named(s.rows, Trim(name));
              && r.Ok? && r.value.nextId == s.nextId + 1 && |r.value.rows| == |s.rows| + 1 && s.rows <= r.value.rows
              && r.value.rows[|s.rows|].id == s.nextId && r.value.rows[|s.rows|].name == Trim(name)
              && Read(r.value.rows[|s.rows|].version) ==
                   if named == [] then Some(Version(year, 1))
                   else
                     var last := Read(named[|named| - 1].version).value;
                     Some(if last.year < year then Version(year, 1)
                          else Version(last.year, if last.number == 0x7FFF_FFFF then -0x8000_0000 else last.number + 1))
  {
    hide IsWritten, Read, NewVersion, Write, CheckFile, Trim, Increasing;
    if Named(s.rows, Trim(name)) != [] {
      LatestIsWritten(s.rows, Trim(name));
    }
    NewVersionIsNext(LatestVersion(s.rows, Trim(name)), year);
  }

  lemma LatestIsWritten(rows: seq<Agreement>, name: string)
    requires Written(Named(rows, name)) && Named(rows, name) != []
    ensures var latest := LatestVersion(rows, name); latest.Some? && IsWritten(latest.value) && Read(latest.value).Some?
  {
  }

  // ---- identifiers ----

  /** Identifiers are given once. */
  predicate Identified(s: Agreements) {
    && (forall i :: 0 <= i < |s.rows| ==> s.rows[i].id < s.nextId)
    && forall i, j :: 0 <= i < j < |s.rows| ==> s.rows[i].id != s.rows[j].id
  }

  lemma {:induction false} NoneWithId(rows: seq<Agreement>, id: nat)
    requires forall row <- rows :: row.id != id
    ensures WithoutId(rows, id) == rows
  {
    if rows != [] {
      NoneWithId(rows[..|rows| - 1], id);
      assert rows == rows[..|rows| - 1] + [rows[|rows| - 1]];
    }
  }

  lemma {:induction false} OneWithId(rows: seq<Agreement>, k: nat)
    requires k < |rows| && forall i :: 0 <= i < |rows| && i != k ==> rows[i].id != rows[k].id
    ensures WithoutId(rows, rows[k].id) == rows[..k] + rows[k + 1..]
  {
    var n := |rows| - 1;
    if k == n {
      NoneWithId(rows[..n], rows[k].id);
      assert rows[k + 1..] == [] && rows[..n] + [] == rows[..n];
    } else {
      OneWithId(rows[..n], k);
      assert rows[..k] + rows[k + 1..] == rows[..n][..k] + rows[..n][k + 1..] + [rows[n]];
    }
  }

  /** A deletion removes the one row with the identifier, and the others keep their order. */
  lemma DeleteIff(s: Agreements, id: nat)
    requires Identified(s)
    ensures var r := AfterDelete(s, id);
            if k :| 0 <= k < |s.rows| && s.rows[k].id == id then
              r == Ok(Agreements(s.rows[..k] + s.rows[k + 1..], s.nextId))
            else r == Err(NotFound("agreement"))
  {
    if k :| 0 <= k < |s.rows| && s.rows[k].id == id {
      assert s.rows[k] in s.rows;
      OneWithId(s.rows, k);
    }
  }

  /** A refused request leaves everything as it was. */
  lemma StepIs(s: Agreements, r: Request, parse: OctalParser)
    ensures r.Create? ==>
              After(s, r, parse) == if CheckFile(r.file, parse).Fail? then s
                                    else AfterCreate(s, r.name, r.file, r.year, parse).value
    ensures r.Delete? ==>
              After(s, r, parse) == if forall row <- s.rows :: row.id != r.id then s else AfterDelete(s, r.id).value
  {
    hide CheckFile, NewVersion, Trim;
  }

  lemma StepKeepsIdentified(s: Agreements, r: Request, parse: OctalParser)
    requires Identified(s)
    ensures Identified(After(s, r, parse))
  {
    hide CheckFile, NewVersion;
    match r
    case Create(name, file, year) =>
    case Delete(id) =>
      DeleteIff(s, id);
  }

  lemma {:induction false} RunsKeepIdentified(trace: seq<Agreements>, requests: seq<Request>, parse: OctalParser,
                                              i: nat)
    requires IsRun(trace, requests, parse) && i < |trace| && Identified(trace[0])
    ensures Identified(trace[i])
  {
    hide After, Identified;
    if i > 0 {
      RunsKeepIdentified(trace, requests, parse, i - 1);
      StepKeepsIdentified(trace[i - 1], requests[i - 1], parse);
    }
  }

  /** There is no agreement of the name, or its number is below the largest, or its year is past. */
  predicate HasRoom(rows: seq<Agreement>, name: string, year: nat) {
    var latest := LatestVersion(rows, name);
    latest.Some? && Read(latest.value).Some? ==>
      Read(latest.value).value.year < year || Read(latest.value).value.number < INT_MAX
  }

  lemma OtherNamesStay(s: Agreements, name: string, file: Bytes, year: nat, parse: OctalParser, t: Agreements,
                       other: string)
    requires AfterCreate(s, name, file, year, parse) == Ok(t) && other != Trim(name)
    ensures Named(t.rows, other) == Named(s.rows, other)
  {
    NamedAppend(s.rows, t.rows[|s.rows|], other);
  }

  /** The clock shows a year of the calendar, any year, and the latest number has room. */
  predicate Fits(s: Agreements, r: Request) {
    r.Create? ==> IsYear(r.year) && HasRoom(s.rows, Trim(r.name), r.year)
  }

  lemma StepKeepsOrder(s: Agreements, r: Request, parse: OctalParser, name: string)
    requires InOrder(s.rows, name) && Fits(s, r)
    ensures InOrder(After(s, r, parse).rows, name)
  {
    hide InOrder, HasRoom, CheckFile;
    var t := After(s, r, parse);
    match r
    case Create(submitted, file, year) =>
      if AfterCreate(s, submitted, file, year, parse).Ok? {
        if Trim(submitted) == name {
          CreateKeepsOrderIff(s, submitted, file, year, parse, t);
        } else {
          OtherNamesStay(s, submitted, file, year, parse, t, name);
          SameOrder(s.rows, t.rows, name);
        }
      }
    case Delete(id) =>
      DeleteKeepsOrder(s.rows, id, name);
  }

  lemma SameOrder(a: seq<Agreement>, b: seq<Agreement>, name: string)
    requires InOrder(a, name) && Named(a, name) == Named(b, name)
    ensures InOrder(b, name)
  {
  }

  lemma DeleteKeepsOrder(rows: seq<Agreement>, id: nat, name: string)
    requires InOrder(rows, name)
    ensures InOrder(WithoutId(rows, id), name)
  {
    DeletionCommutes(rows, id, name);
    DeletionKeepsOrder(Named(rows, name), id);
  }

  predicate IsRun(trace: seq<Agreements>, requests: seq<Request>, parse: OctalParser) {
    && |trace| == |requests| + 1
    && forall i :: 0 <= i < |requests| ==> trace[i + 1] == After(trace[i], requests[i], parse)
  }

  /** Whatever is created and deleted, under whatever names and whatever the clock says: the stored
      versions of a name read as year and number, and increase in the order of creation. */
  lemma {:induction false} RunsKeepOrder(trace: seq<Agreements>, requests: seq<Request>, parse: OctalParser, i: nat,
                                         name: string)
    requires IsRun(trace, requests, parse) && i < |trace| && InOrder(trace[0].rows, name)
    requires forall k :: 0 <= k < |requests| ==> Fits(trace[k], requests[k])
    ensures InOrder(trace[i].rows, name)
  {
    hide After, Fits;
    if i > 0 {
      RunsKeepOrder(trace, requests, parse, i - 1, name);
      StepKeepsOrder(trace[i - 1], requests[i - 1], parse, name);
    }
  }

  /** No two stored agreements of a name have the same version. */
  lemma VersionsAreUnique(trace: seq<Agreements>, requests: seq<Request>, parse: OctalParser, i: nat, name: string,
                          j: nat, k: nat)
    requires IsRun(trace, requests, parse) && i < |trace| && InOrder(trace[0].rows, name)
    requires forall k :: 0 <= k < |requests| ==> Fits(trace[k], requests[k])
    requires j < k < |Named(trace[i].rows, name)|
    ensures Named(trace[i].rows, name)[j].version != Named(trace[i].rows, name)[k].version
  {
    RunsKeepOrder(trace, requests, parse, i, name);
  }
}
