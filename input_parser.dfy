/**
 * The spreadsheet reader: five sheets (Courses, Teachers, Rooms, Timeslots,
 * Groups) become five insertion-ordered dicts, row by row, after a check that
 * the sheet has the columns it needs; then a consistency check lists the
 * dangling course references and the courses no teacher handles.
 *
 * A sheet is its column names and its rows; a row maps each column of the
 * sheet to its cell, None for an empty (NaN) cell.
 */
module InputParser {
  import opened Wrappers
  import opened Text
  import opened Seqs
  import opened Dicts
  import opened Entities

  type Row = map<string, Option<string>>

  datatype Sheet = Sheet(columns: seq<string>, rows: seq<Row>)

  /** The exceptions the parser raises. */
  datatype ParseError =
    | MissingColumns(sheet: string, missing: seq<string>)  // ValueError listing the absent required columns
    | NotAnInteger(column: string, text: string)            // ValueError from int() on a cell
    | NoSuchColumn(column: string)                          // KeyError from row[column]

  const CourseColumns: seq<string> := ["CourseID", "CourseName", "Type", "Semester", "Duration"]
  const TeacherColumns: seq<string> := ["TeacherID", "TeacherName", "CoursesHandled"]
  const RoomColumns: seq<string> := ["RoomID", "Capacity", "Type"]
  const TimeslotColumns: seq<string> := ["SlotID", "Day", "Time"]
  const GroupColumns: seq<string> := ["GroupID", "Semester", "Courses"]

  /** str(cell): an empty cell prints as "nan". */
  function Str(cell: Option<string>): string
  {
    match cell
    case None => "nan"
    case Some(s) => s
  }

  /** row[column], which raises KeyError when the row has no such column. */
  function Column(row: Row, column: string): Result<Option<string>, ParseError>
  {
    if column in row then Ok(row[column]) else Err(NoSuchColumn(column))
  }

  /** `str(row[column]).strip()` where the column exists, "" otherwise (used to name rows in lemmas). */
  function IdOf(row: Row, column: string): string
  {
    if column in row then Strip(Str(row[column])) else ""
  }

  /** `int(cell) if pd.notna(cell) else default`. */
  function IntOr(cell: Option<string>, column: string, default: int): Result<int, ParseError>
  {
    match cell
    case None => Ok(default)
    case Some(s) =>
      match ParseInt(s)
      case None => Err(NotAnInteger(column, s))
      case Some(n) => Ok(n)
  }

  /** A comma-separated cell as a list: `[c.strip() for c in str(cell).strip().split(',') if c.strip()]`, [] when empty. */
  function CommaList(cell: Option<string>): (r: seq<string>)
    ensures cell.None? ==> r == []
    ensures forall k :: 0 <= k < |r| ==> r[k] != [] && Trimmed(r[k]) && ',' !in r[k]
  {
    match cell
    case None => []
    case Some(s) => Tokens(s)
  }

  /** The list a comma list was written from comes back unchanged, in its order. */
  lemma CommaListOfJoin(items: seq<string>)
    requires forall k :: 0 <= k < |items| ==> items[k] != [] && Trimmed(items[k]) && ',' !in items[k]
    ensures CommaList(Some(Join(items, ','))) == items
  {
    TokensOfJoin(items);
  }

  /** The Availability cell: a blank text short-cuts to [], otherwise the comma list. */
  function AvailabilityList(cell: Option<string>): seq<string>
  {
    match cell
    case None => []
    case Some(s) => if Strip(s) != [] then Tokens(s) else []
  }

  /** The blank-text short cut changes nothing: Availability is tokenised like the other lists. */
  lemma AvailabilityIsCommaList(cell: Option<string>)
    ensures AvailabilityList(cell) == CommaList(cell)
  {
    if cell.Some? && Strip(cell.value) == [] {
      assert Split([], ',') == [[]];
      assert CleanParts([[]]) == [] by {
        StripTrimmed([]);
      }
    }
  }

  /** One row of the Courses sheet: the course id and its record. */
  function CourseRow(row: Row, size: nat): (r: Result<(string, Course), ParseError>)
    ensures r.Ok? <==>
      && "CourseID" in row && "CourseName" in row && "Type" in row && "Semester" in row && "Duration" in row
      && (row["Duration"].Some? ==> ParseInt(row["Duration"].value).Some?)
    ensures r.Ok? ==>
      var (id, c) := r.value;
      && id == IdOf(row, "CourseID") && Trimmed(id)
      && c.name == Strip(Str(row["CourseName"])) && Trimmed(c.name)
      && c.semester == Strip(Str(row["Semester"])) && Trimmed(c.semester)
      && c.kind == Upper(Strip(Str(row["Type"]))) && Trimmed(c.kind)
      && (forall i :: 0 <= i < |c.kind| ==> !('a' <= c.kind[i] <= 'z'))
      && c.duration == (if row["Duration"].None? then 1 else ParseInt(row["Duration"].value).value)
  {
    var id :- Column(row, "CourseID");
    var name :- Column(row, "CourseName");
    var kind :- Column(row, "Type");
    var semester :- Column(row, "Semester");
    var durationCell :- Column(row, "Duration");
    var duration :- IntOr(durationCell, "Duration", 1);
    var kindText := Strip(Str(kind));
    UpperTrimmed(kindText);
    Ok((Strip(Str(id)), Course(Strip(Str(name)), Upper(kindText), Strip(Str(semester)), duration)))
  }

  /**
   * One row of the Teachers sheet. Availability is read with row.get(..., '')
   * and then with row[...]: a sheet without that column fails on its first row.
   */
  function TeacherRow(row: Row, size: nat): (r: Result<(string, Teacher), ParseError>)
    ensures r.Ok? <==> "TeacherID" in row && "TeacherName" in row && "CoursesHandled" in row && "Availability" in row
    ensures r.Ok? ==>
      var (id, t) := r.value;
      && id == IdOf(row, "TeacherID") && Trimmed(id)
      && t.name == Strip(Str(row["TeacherName"])) && Trimmed(t.name)
      && t.coursesHandled == CommaList(row["CoursesHandled"])
      && t.availability == CommaList(row["Availability"])
  {
    var id :- Column(row, "TeacherID");
    var handled :- Column(row, "CoursesHandled");
    var availability :- Column(row, "Availability");
    var name :- Column(row, "TeacherName");
    AvailabilityIsCommaList(availability);
    Ok((Strip(Str(id)), Teacher(Strip(Str(name)), CommaList(handled), AvailabilityList(availability))))
  }

  /** One row of the Rooms sheet. */
  function RoomRow(row: Row, size: nat): (r: Result<(string, Room), ParseError>)
    ensures r.Ok? <==>
      && "RoomID" in row && "Capacity" in row && "Type" in row
      && (row["Capacity"].Some? ==> ParseInt(row["Capacity"].value).Some?)
    ensures r.Ok? ==>
      var (id, room) := r.value;
      && id == IdOf(row, "RoomID") && Trimmed(id)
      && room.kind == Lower(Strip(Str(row["Type"]))) && Trimmed(room.kind)
      && (forall i :: 0 <= i < |room.kind| ==> !('A' <= room.kind[i] <= 'Z'))
      && room.capacity == (if row["Capacity"].None? then 50 else ParseInt(row["Capacity"].value).value)
  {
    var id :- Column(row, "RoomID");
    var capacityCell :- Column(row, "Capacity");
    var capacity :- IntOr(capacityCell, "Capacity", 50);
    var kind :- Column(row, "Type");
    var kindText := Strip(Str(kind));
    LowerTrimmed(kindText);
    Ok((Strip(Str(id)), Room(capacity, Lower(kindText))))
  }

  /** A Courses row written from a course record, every cell filled. */
  function CourseRecordRow(id: string, c: Course): Row
    requires c.duration >= 0
  {
    map["CourseID" := Some(id), "CourseName" := Some(c.name), "Type" := Some(c.kind),
        "Semester" := Some(c.semester), "Duration" := Some(NatToString(c.duration))]
  }

  /**
   * The course normalisation loses nothing it keeps: a record whose texts are
   * already trimmed, whose type is already upper case and whose duration is a
   * natural number is read back unchanged from the row written from it.
   */
  lemma CourseRowOfRecord(id: string, c: Course, size: nat)
    requires Trimmed(id) && Trimmed(c.name) && Trimmed(c.semester) && Trimmed(c.kind)
    requires Upper(c.kind) == c.kind && c.duration >= 0
    ensures CourseRow(CourseRecordRow(id, c), size) == Ok((id, c))
  {
    StripTrimmed(id);
    StripTrimmed(c.name);
    StripTrimmed(c.semester);
    StripTrimmed(c.kind);
    ParseIntOfNatToString(c.duration);
  }

  /** A Rooms row written from a room record, every cell filled. */
  function RoomRecordRow(id: string, room: Room): Row
    requires room.capacity >= 0
  {
    map["RoomID" := Some(id), "Capacity" := Some(NatToString(room.capacity)), "Type" := Some(room.kind)]
  }

  /** Likewise for rooms: a trimmed, lower-case type and a natural capacity are read back unchanged. */
  lemma RoomRowOfRecord(id: string, room: Room, size: nat)
    requires Trimmed(id) && Trimmed(room.kind)
    requires Lower(room.kind) == room.kind && room.capacity >= 0
    ensures RoomRow(RoomRecordRow(id, room), size) == Ok((id, room))
  {
    StripTrimmed(id);
    StripTrimmed(room.kind);
    ParseIntOfNatToString(room.capacity);
  }

  /** One row of the Timeslots sheet; `size` is the number of timeslots read so far. */
  function TimeslotRow(row: Row, size: nat): (r: Result<(string, Timeslot), ParseError>)
    ensures r.Ok? <==> "SlotID" in row && "Day" in row && "Time" in row
    ensures r.Ok? ==>
      var (id, ts) := r.value;
      && id == IdOf(row, "SlotID") && Trimmed(id)
      && ts.day == Strip(Str(row["Day"])) && Trimmed(ts.day)
      && ts.time == Strip(Str(row["Time"])) && Trimmed(ts.time)
      && ts.slotIndex == size
  {
    var id :- Column(row, "SlotID");
    var day :- Column(row, "Day");
    var time :- Column(row, "Time");
    Ok((Strip(Str(id)), Timeslot(Strip(Str(day)), Strip(Str(time)), size)))
  }

  /** One row of the Groups sheet. */
  function GroupRow(row: Row, size: nat): (r: Result<(string, Group), ParseError>)
    ensures r.Ok? <==> "GroupID" in row && "Semester" in row && "Courses" in row
    ensures r.Ok? ==>
      var (id, g) := r.value;
      && id == IdOf(row, "GroupID") && Trimmed(id)
      && g.semester == Strip(Str(row["Semester"])) && Trimmed(g.semester)
      && g.courses == CommaList(row["Courses"])
  {
    var id :- Column(row, "GroupID");
    var courses :- Column(row, "Courses");
    var semester :- Column(row, "Semester");
    Ok((Strip(Str(id)), Group(Strip(Str(semester)), CommaList(courses))))
  }

  /** `[col for col in required if col not in df.columns]`. */
  function MissingOf(required: seq<string>, columns: seq<string>): seq<string>
  {
    Filter(required, c => c !in columns)
  }

  /** The missing list names exactly the absent required columns, in the required order. */
  lemma MissingOfExact(required: seq<string>, columns: seq<string>)
    ensures forall c :: c in MissingOf(required, columns) <==> c in required && c !in columns
    ensures SubsequenceOf(MissingOf(required, columns), required)
    ensures MissingOf(required, columns) == [] <==> forall c :: c in required ==> c in columns
  {
    forall c ensures c in MissingOf(required, columns) <==> c in required && c !in columns {
      FilterMembers(required, c => c !in columns, c);
    }
    FilterIsSubsequence(required, c => c !in columns);
    if MissingOf(required, columns) != [] {
      assert MissingOf(required, columns)[0] in MissingOf(required, columns);
    }
  }

  /**
   * The row loop: each row's record is stored under its id (a repeated id
   * overwrites). The first row that raises stops the loop; the rows before
   * it stay stored.
   */
  function LoadRows<V>(d: Dict<V>, rows: seq<Row>, build: (Row, nat) -> Result<(string, V), ParseError>)
    : (r: (Dict<V>, Option<ParseError>))
    requires d.Valid()
    ensures r.0.Valid()
    ensures d.keys <= r.0.keys
    ensures forall k :: k in d.vals ==> k in r.0.vals
    decreases |rows|
  {
    if rows == [] then (d, None)
    else
      match build(rows[0], d.Size())
      case Err(e) => (d, Some(e))
      case Ok((k, v)) => LoadRows(d.Put(k, v), rows[1..], build)
  }

  /** A sheet: the column check first (a failing one adds no row), then the row loop. */
  function ReadSheet<V>(d: Dict<V>, sheet: Sheet, name: string, required: seq<string>,
                        build: (Row, nat) -> Result<(string, V), ParseError>)
    : (r: (Dict<V>, Option<ParseError>))
    requires d.Valid()
    ensures r.0.Valid()
    ensures MissingOf(required, sheet.columns) != [] ==>
      r == (d, Some(MissingColumns(name, MissingOf(required, sheet.columns))))
    ensures MissingOf(required, sheet.columns) == [] ==> r == LoadRows(d, sheet.rows, build)
  {
    var missing := MissingOf(required, sheet.columns);
    if missing != [] then (d, Some(MissingColumns(name, missing)))
    else LoadRows(d, sheet.rows, build)
  }

  /** The row loop, run imperatively over a copy of the dict. */
  method LoadSheet<V>(d: Dict<V>, rows: seq<Row>, build: (Row, nat) -> Result<(string, V), ParseError>)
    returns (out: Dict<V>, err: Option<ParseError>)
    requires d.Valid()
    ensures (out, err) == LoadRows(d, rows, build)
  {
    out := d;
    var i := 0;
    while i < |rows|
      invariant 0 <= i <= |rows|
      invariant out.Valid()
      invariant LoadRows(out, rows[i..], build) == LoadRows(d, rows, build)
    {
      assert rows[i..][1..] == rows[i + 1..];
      var built := build(rows[i], out.Size());
      if built.Err? {
        return out, Some(built.error);
      }
      var (k, v) := built.value;
      out := out.Put(k, v);
      i := i + 1;
    }
    err := None;
  }

  /** One more row is one more dict assignment, unless an earlier row already raised. */
  lemma {:induction false} LoadRowsSnoc<V>(d: Dict<V>, rows: seq<Row>, row: Row,
                                          build: (Row, nat) -> Result<(string, V), ParseError>)
    requires d.Valid()
    ensures var (before, e) := LoadRows(d, rows, build);
      LoadRows(d, rows + [row], build) ==
        if e.Some? then (before, e)
        else match build(row, before.Size())
          case Err(e') => (before, Some(e'))
          case Ok((k, v)) => (before.Put(k, v), None)
    decreases |rows|
  {
    if rows == [] {
      assert rows + [row] == [row];
    } else {
      assert (rows + [row])[1..] == rows[1..] + [row];
      match build(rows[0], d.Size())
      case Err(_) =>
      case Ok((k, v)) => LoadRowsSnoc(d.Put(k, v), rows[1..], row, build);
    }
  }

  /** A later row with an id already read replaces the earlier record under that id. */
  lemma LaterRowReplaces<V>(d: Dict<V>, rows: seq<Row>, row: Row,
                            build: (Row, nat) -> Result<(string, V), ParseError>)
    requires d.Valid()
    requires LoadRows(d, rows + [row], build).1 == None
    ensures var before := LoadRows(d, rows, build).0;
      && build(row, before.Size()).Ok?
      && var (k, v) := build(row, before.Size()).value;
         LoadRows(d, rows + [row], build).0.vals == before.vals[k := v]
  {
    LoadRowsSnoc(d, rows, row, build);
  }

  /** Some row of `rows` has id `key` in `column`. */
  predicate HasRowWithId(rows: seq<Row>, column: string, key: string)
  {
    exists i :: 0 <= i < |rows| && IdOf(rows[i], column) == key
  }

  /** After a loop without error, the ids stored are the old ones plus exactly the ids of the rows. */
  lemma {:induction false} LoadRowsKeys<V>(d: Dict<V>, rows: seq<Row>, column: string,
                                          build: (Row, nat) -> Result<(string, V), ParseError>)
    requires d.Valid()
    requires forall row, n :: build(row, n).Ok? ==> build(row, n).value.0 == IdOf(row, column)
    requires LoadRows(d, rows, build).1 == None
    ensures forall k :: k in LoadRows(d, rows, build).0.vals <==> k in d.vals || HasRowWithId(rows, column, k)
    decreases |rows|
  {
    if rows != [] {
      var (k, v) := build(rows[0], d.Size()).value;
      LoadRowsKeys(d.Put(k, v), rows[1..], column, build);
      forall key ensures HasRowWithId(rows, column, key) <==> key == k || HasRowWithId(rows[1..], column, key) {
        HasRowWithIdCons(rows, column, key);
      }
    }
  }

  lemma HasRowWithIdCons(rows: seq<Row>, column: string, key: string)
    requires rows != []
    ensures HasRowWithId(rows, column, key) <==> IdOf(rows[0], column) == key || HasRowWithId(rows[1..], column, key)
  {
    if HasRowWithId(rows, column, key) {
      var i :| 0 <= i < |rows| && IdOf(rows[i], column) == key;
      if i > 0 {
        assert IdOf(rows[1..][i - 1], column) == key;
      }
    }
    if HasRowWithId(rows[1..], column, key) {
      var i :| 0 <= i < |rows[1..]| && IdOf(rows[1..][i], column) == key;
      assert IdOf(rows[i + 1], column) == key;
    }
    if IdOf(rows[0], column) == key {
      assert rows[0] == rows[0];
    }
  }

  /** The Courses, Teachers, Rooms and Groups loops store one record per distinct id of their rows. */
  lemma OneEntryPerId<V>(rows: seq<Row>, column: string, build: (Row, nat) -> Result<(string, V), ParseError>)
    requires forall row, n :: build(row, n).Ok? ==> build(row, n).value.0 == IdOf(row, column)
    requires LoadRows(Empty(), rows, build).1 == None
    ensures var r := LoadRows(Empty(), rows, build).0;
      && Distinct(r.keys)
      && forall k :: k in r.keys <==> HasRowWithId(rows, column, k)
  {
    LoadRowsKeys(Empty(), rows, column, build);
  }

  /** The ids of the rows in `column`, in row order. */
  function IdsOf(rows: seq<Row>, column: string): (r: seq<string>)
    ensures |r| == |rows|
    ensures forall i :: 0 <= i < |rows| ==> r[i] == IdOf(rows[i], column)
  {
    if rows == [] then [] else [IdOf(rows[0], column)] + IdsOf(rows[1..], column)
  }

  /** A row that builds is stored, and the loop goes on with the next row. */
  lemma LoadRowsStep<V>(d: Dict<V>, rows: seq<Row>, build: (Row, nat) -> Result<(string, V), ParseError>)
    requires d.Valid() && rows != [] && build(rows[0], d.Size()).Ok?
    ensures LoadRows(d, rows, build) ==
      LoadRows(d.Put(build(rows[0], d.Size()).value.0, build(rows[0], d.Size()).value.1), rows[1..], build)
  {
  }

  /** The Timeslots row builder stores a row under its SlotID with the size read so far as its index. */
  ghost predicate NumbersBySize(build: (Row, nat) -> Result<(string, Timeslot), ParseError>)
  {
    forall row, n :: build(row, n).Ok? ==>
      build(row, n).value.0 == IdOf(row, "SlotID") && build(row, n).value.1.slotIndex == n
  }

  /** The rows all build, whatever size they are read at. */
  ghost predicate AllBuild<V>(rows: seq<Row>, build: (Row, nat) -> Result<(string, V), ParseError>)
  {
    forall i, n :: 0 <= i < |rows| ==> build(rows[i], n).Ok?
  }

  /** The rows' slot ids are distinct and none is a key of `vals` yet. */
  ghost predicate FreshIds<V>(vals: map<string, V>, rows: seq<Row>)
  {
    Distinct(IdsOf(rows, "SlotID")) && forall i :: 0 <= i < |rows| ==> IdOf(rows[i], "SlotID") !in vals
  }

  lemma AllBuildTail<V>(rows: seq<Row>, build: (Row, nat) -> Result<(string, V), ParseError>)
    requires rows != [] && AllBuild(rows, build)
    ensures build(rows[0], 0).Ok? && AllBuild(rows[1..], build)
  {
    forall i, n | 0 <= i < |rows[1..]| ensures build(rows[1..][i], n).Ok? {
      assert rows[1..][i] == rows[i + 1];
    }
  }

  lemma FreshIdsTail<V>(vals: map<string, V>, rows: seq<Row>, v: V)
    requires rows != [] && FreshIds(vals, rows)
    ensures IdOf(rows[0], "SlotID") !in vals
    ensures FreshIds(vals[IdOf(rows[0], "SlotID") := v], rows[1..])
  {
    var ids := IdsOf(rows, "SlotID");
    assert ids == [IdOf(rows[0], "SlotID")] + IdsOf(rows[1..], "SlotID");
    forall i | 0 <= i < |rows[1..]| ensures IdOf(rows[1..][i], "SlotID") !in vals[IdOf(rows[0], "SlotID") := v] {
      assert ids[i + 1] == IdOf(rows[1..][i], "SlotID");
      assert ids[0] != ids[i + 1];
    }
  }

  /** Reading the first of such rows: the loop goes on from one more entry, with the same guarantees. */
  lemma SlotStep(d: Dict<Timeslot>, rows: seq<Row>, build: (Row, nat) -> Result<(string, Timeslot), ParseError>)
    requires d.Valid() && rows != []
    requires NumbersBySize(build)
    requires AllBuild(rows, build) && FreshIds(d.vals, rows)
    ensures var k := IdOf(rows[0], "SlotID");
      var d' := d.Put(k, build(rows[0], d.Size()).value.1);
      && LoadRows(d, rows, build) == LoadRows(d', rows[1..], build)
      && d'.keys == d.keys + [k]
      && d'.vals[k].slotIndex == |d.keys|
      && (forall key :: key in d.vals ==> d'.vals[key] == d.vals[key])
      && AllBuild(rows[1..], build) && FreshIds(d'.vals, rows[1..])
  {
    KeysCount(d.keys, d.vals);
    AllBuildTail(rows, build);
    FreshIdsTail(d.vals, rows, build(rows[0], d.Size()).value.1);
    LoadRowsStep(d, rows, build);
  }

  /** Rows with distinct fresh slot ids are all read, and their ids are appended in row order. */
  lemma {:induction false} SlotKeys(d: Dict<Timeslot>, rows: seq<Row>,
                                   build: (Row, nat) -> Result<(string, Timeslot), ParseError>)
    requires d.Valid()
    requires NumbersBySize(build)
    requires AllBuild(rows, build) && FreshIds(d.vals, rows)
    ensures LoadRows(d, rows, build).1 == None
    ensures LoadRows(d, rows, build).0.keys == d.keys + IdsOf(rows, "SlotID")
    decreases |rows|
  {
    if rows == [] {
      assert d.keys + IdsOf(rows, "SlotID") == d.keys;
    } else {
      SlotStep(d, rows, build);
      var k := IdOf(rows[0], "SlotID");
      var d' := d.Put(k, build(rows[0], d.Size()).value.1);
      SlotKeys(d', rows[1..], build);
      assert IdsOf(rows, "SlotID") == [k] + IdsOf(rows[1..], "SlotID");
      SnocThenAppend(d.keys, k, IdsOf(rows[1..], "SlotID"));
    }
  }

  /** With distinct slot ids, the k-th row read gets slot_index (timeslots before it) + k. */
  lemma {:induction false} SlotNumbering(d: Dict<Timeslot>, rows: seq<Row>,
                                        build: (Row, nat) -> Result<(string, Timeslot), ParseError>)
    requires d.Valid()
    requires NumbersBySize(build)
    requires AllBuild(rows, build) && FreshIds(d.vals, rows)
    ensures forall k :: k in d.vals ==> LoadRows(d, rows, build).0.vals[k] == d.vals[k]
    ensures var r := LoadRows(d, rows, build).0;
      forall i :: |d.keys| <= i < |r.keys| ==> r.vals[r.keys[i]].slotIndex == i
    decreases |rows|
  {
    if rows != [] {
      SlotStep(d, rows, build);
      var k := IdOf(rows[0], "SlotID");
      var d' := d.Put(k, build(rows[0], d.Size()).value.1);
      SlotNumbering(d', rows[1..], build);
      SlotKeys(d', rows[1..], build);
      var r := LoadRows(d', rows[1..], build).0;
      assert r.keys[|d.keys|] == k by {
        SnocIndex(d.keys, k, IdsOf(rows[1..], "SlotID"));
      }
    }
  }

  lemma TimeslotRowNumbersBySize()
    ensures NumbersBySize(TimeslotRow)
  {
  }

  lemma TimeslotRowsBuild(rows: seq<Row>)
    requires forall i :: 0 <= i < |rows| ==> "SlotID" in rows[i] && "Day" in rows[i] && "Time" in rows[i]
    ensures AllBuild(rows, TimeslotRow)
  {
  }

  /** A timeslot sheet read into an empty dict numbers distinct slots 0, 1, 2, ... in row order. */
  lemma SlotIndicesInRowOrder(rows: seq<Row>)
    requires forall i :: 0 <= i < |rows| ==> "SlotID" in rows[i] && "Day" in rows[i] && "Time" in rows[i]
    requires Distinct(IdsOf(rows, "SlotID"))
    ensures LoadRows(Empty(), rows, TimeslotRow).1 == None
    ensures LoadRows(Empty(), rows, TimeslotRow).0.keys == IdsOf(rows, "SlotID")
    ensures var r := LoadRows(Empty(), rows, TimeslotRow).0;
      forall i :: 0 <= i < |r.keys| ==> r.vals[r.keys[i]].slotIndex == i
  {
    TimeslotRowNumbersBySize();
    TimeslotRowsBuild(rows);
    assert FreshIds(Empty<Timeslot>().vals, rows);
    SlotKeys(Empty(), rows, TimeslotRow);
    SlotNumbering(Empty(), rows, TimeslotRow);
    assert [] + IdsOf(rows, "SlotID") == IdsOf(rows, "SlotID");
  }

  /** Reading a + b is reading a, then (when a raised nothing) reading b from there. */
  lemma {:induction false} LoadRowsAppend<V>(d: Dict<V>, a: seq<Row>, b: seq<Row>,
                                            build: (Row, nat) -> Result<(string, V), ParseError>)
    requires d.Valid()
    ensures var (d1, e) := LoadRows(d, a, build);
      LoadRows(d, a + b, build) == if e.Some? then (d1, e) else LoadRows(d1, b, build)
    decreases |a|
  {
    if a == [] {
      assert a + b == b;
    } else {
      assert (a + b)[0] == a[0] && (a + b)[1..] == a[1..] + b;
      match build(a[0], d.Size())
      case Err(_) =>
      case Ok((k, v)) => LoadRowsAppend(d.Put(k, v), a[1..], b, build);
    }
  }

  /** A last row that builds is stored and ends the loop. */
  lemma LastRowRead<V>(d: Dict<V>, row: Row, build: (Row, nat) -> Result<(string, V), ParseError>)
    requires d.Valid() && build(row, d.Size()).Ok?
    ensures LoadRows(d, [row], build) == (d.Put(build(row, d.Size()).value.0, build(row, d.Size()).value.1), None)
  {
    LoadRowsStep(d, [row], build);
    assert [row][1..] == [];
  }

  /** A first row that builds starts the dict with one entry. */
  lemma FirstRowRead(r1: Row, rest: seq<Row>, build: (Row, nat) -> Result<(string, Timeslot), ParseError>)
    requires NumbersBySize(build) && build(r1, 0).Ok?
    ensures var a := IdOf(r1, "SlotID");
      LoadRows(Empty(), [r1] + rest, build) == LoadRows(Dict([a], map[a := build(r1, 0).value.1]), rest, build)
  {
    var a := IdOf(r1, "SlotID");
    var v := build(r1, 0).value.1;
    var d0: Dict<Timeslot> := Empty();
    assert d0.Size() == 0 && build(r1, 0).value.0 == a;
    LoadRowsStep(d0, [r1] + rest, build);
    assert ([r1] + rest)[1..] == rest;
    assert d0.Put(a, v).keys == [a];
    assert d0.Put(a, v).vals == map[a := v];
  }

  /** Two rows with one id leave one entry, built from the second row with index 1. */
  lemma TwoRowsOneId(r1: Row, r2: Row, build: (Row, nat) -> Result<(string, Timeslot), ParseError>)
    requires NumbersBySize(build)
    requires forall n :: build(r1, n).Ok? && build(r2, n).Ok?
    requires IdOf(r1, "SlotID") == IdOf(r2, "SlotID")
    ensures var a := IdOf(r1, "SlotID");
      LoadRows(Empty(), [r1, r2], build) == (Dict([a], map[a := build(r2, 1).value.1]), None)
  {
    var a := IdOf(r1, "SlotID");
    FirstRowRead(r1, [r2], build);
    assert [r1, r2][1..] == [r2];
    var d1 := Dict([a], map[a := build(r1, 0).value.1]);
    assert d1.Valid() && d1.Size() == 1 && build(r2, 1).value.0 == a;
    LastRowRead(d1, r2, build);
    assert d1.Put(a, build(r2, 1).value.1).vals == map[a := build(r2, 1).value.1];
  }

  /** One more row with a new id is appended with index 1 to a one-entry dict. */
  lemma NewIdAfterOne(a: string, v: Timeslot, r3: Row, build: (Row, nat) -> Result<(string, Timeslot), ParseError>)
    requires NumbersBySize(build)
    requires forall n :: build(r3, n).Ok?
    requires a != IdOf(r3, "SlotID")
    ensures var b := IdOf(r3, "SlotID");
      LoadRows(Dict([a], map[a := v]), [r3], build) == (Dict([a, b], map[a := v, b := build(r3, 1).value.1]), None)
  {
    var d := Dict([a], map[a := v]);
    var b := IdOf(r3, "SlotID");
    assert d.Valid() && d.Size() == 1 && build(r3, 1).value.0 == b;
    LastRowRead(d, r3, build);
    assert d.Put(b, build(r3, 1).value.1) == Dict([a, b], map[a := v, b := build(r3, 1).value.1]);
  }

  lemma {:induction false} RepeatedIdsShareAnIndex(r1: Row, r2: Row, r3: Row,
                                                  build: (Row, nat) -> Result<(string, Timeslot), ParseError>)
    requires NumbersBySize(build)
    requires forall n :: build(r1, n).Ok? && build(r2, n).Ok? && build(r3, n).Ok?
    requires IdOf(r1, "SlotID") == IdOf(r2, "SlotID") != IdOf(r3, "SlotID")
    ensures var (r, e) := LoadRows(Empty(), [r1, r2, r3], build);
      && e == None && r.keys == [IdOf(r1, "SlotID"), IdOf(r3, "SlotID")]
      && r.vals[IdOf(r1, "SlotID")].slotIndex == 1 && r.vals[IdOf(r3, "SlotID")].slotIndex == 1
  {
    var a := IdOf(r1, "SlotID");
    assert [r1, r2, r3] == [r1, r2] + [r3];
    TwoRowsOneId(r1, r2, build);
    LoadRowsAppend(Empty(), [r1, r2], [r3], build);
    NewIdAfterOne(a, build(r2, 1).value.1, r3, build);
  }

  /**
   * With a repeated slot id the numbering is not a bijection: rows with ids
   * a, a, b give a index 1 (the second a replaces the first) and b index 1 as well.
   */
  lemma RepeatedSlotIdsShareAnIndex(r1: Row, r2: Row, r3: Row)
    requires "SlotID" in r1 && "Day" in r1 && "Time" in r1
    requires "SlotID" in r2 && "Day" in r2 && "Time" in r2
    requires "SlotID" in r3 && "Day" in r3 && "Time" in r3
    requires IdOf(r1, "SlotID") == IdOf(r2, "SlotID") != IdOf(r3, "SlotID")
    ensures var (r, e) := LoadRows(Empty(), [r1, r2, r3], TimeslotRow);
      && e == None && r.keys == [IdOf(r1, "SlotID"), IdOf(r3, "SlotID")]
      && r.vals[IdOf(r1, "SlotID")].slotIndex == 1 && r.vals[IdOf(r3, "SlotID")].slotIndex == 1
  {
    TimeslotRowNumbersBySize();
    RepeatedIdsShareAnIndex(r1, r2, r3, TimeslotRow);
  }

  // ---------------------------------------------------------------- validation

  /** One finding of validate_data. */
  datatype Issue =
    | UnknownTeacherCourse(teacher: string, course: string)
    | UnknownGroupCourse(group: string, course: string)
    | UncoveredCourse(course: string)

  function Message(issue: Issue): string
  {
    match issue
    case UnknownTeacherCourse(t, c) => "Teacher " + t + " assigned to non-existent course " + c
    case UnknownGroupCourse(g, c) => "Group " + g + " assigned to non-existent course " + c
    case UncoveredCourse(c) => "Course " + c + " has no assigned teacher"
  }

  function Messages(issues: seq<Issue>): (r: seq<string>)
    ensures |r| == |issues|
  {
    if issues == [] then [] else Messages(issues[..|issues| - 1]) + [Message(issues[|issues| - 1])]
  }

  /** The three passes come in this order. */
  function Rank(issue: Issue): nat
  {
    match issue
    case UnknownTeacherCourse(_, _) => 0
    case UnknownGroupCourse(_, _) => 1
    case UncoveredCourse(_) => 2
  }

  function Handled(teachers: Dict<Teacher>, t: string): seq<string>
  {
    if t in teachers.vals then teachers.vals[t].coursesHandled else []
  }

  function GroupCourses(groups: Dict<Group>, g: string): seq<string>
  {
    if g in groups.vals then groups.vals[g].courses else []
  }

  /** The issues for owner's references `refs` that are not course ids, in reference order. */
  function RefIssues(courses: Dict<Course>, owner: string, refs: seq<string>, ofTeacher: bool): (r: seq<Issue>)
    ensures forall k :: 0 <= k < |r| ==> Rank(r[k]) == if ofTeacher then 0 else 1
  {
    if refs == [] then []
    else
      var c := refs[|refs| - 1];
      RefIssues(courses, owner, refs[..|refs| - 1], ofTeacher) +
        if c in courses.vals then []
        else if ofTeacher then [UnknownTeacherCourse(owner, c)]
        else [UnknownGroupCourse(owner, c)]
  }

  /** The first pass, over the teachers `ids` in dict order. */
  function TeacherIssues(courses: Dict<Course>, teachers: Dict<Teacher>, ids: seq<string>): (r: seq<Issue>)
    ensures forall k :: 0 <= k < |r| ==> r[k].UnknownTeacherCourse?
  {
    if ids == [] then []
    else
      var t := ids[|ids| - 1];
      TeacherIssues(courses, teachers, ids[..|ids| - 1]) + RefIssues(courses, t, Handled(teachers, t), true)
  }

  /** The second pass, over the groups `ids` in dict order. */
  function GroupIssues(courses: Dict<Course>, groups: Dict<Group>, ids: seq<string>): (r: seq<Issue>)
    ensures forall k :: 0 <= k < |r| ==> r[k].UnknownGroupCourse?
  {
    if ids == [] then []
    else
      var g := ids[|ids| - 1];
      GroupIssues(courses, groups, ids[..|ids| - 1]) + RefIssues(courses, g, GroupCourses(groups, g), false)
  }

  /** `any(c in t['courses_handled'] for t in teachers.values())`, over the first `n` teachers. */
  predicate HandledByOneOf(teachers: Dict<Teacher>, n: nat, c: string)
  {
    exists i :: 0 <= i < n && i < |teachers.keys| && c in Handled(teachers, teachers.keys[i])
  }

  /** The third pass, over the course `ids` in dict order. */
  function UncoveredIssues(teachers: Dict<Teacher>, ids: seq<string>): (r: seq<Issue>)
    ensures forall k :: 0 <= k < |r| ==> r[k].UncoveredCourse?
  {
    if ids == [] then []
    else
      var c := ids[|ids| - 1];
      UncoveredIssues(teachers, ids[..|ids| - 1]) +
        if HandledByOneOf(teachers, |teachers.keys|, c) then [] else [UncoveredCourse(c)]
  }

  /** Everything validate_data reports, in report order. */
  function Issues(courses: Dict<Course>, teachers: Dict<Teacher>, groups: Dict<Group>): (r: seq<Issue>)
    ensures forall i, j :: 0 <= i < j < |r| ==> Rank(r[i]) <= Rank(r[j])
  {
    var a := TeacherIssues(courses, teachers, teachers.keys);
    var b := GroupIssues(courses, groups, groups.keys);
    var c := UncoveredIssues(teachers, courses.keys);
    assert forall i :: 0 <= i < |a + b + c| ==>
      Rank((a + b + c)[i]) == if i < |a| then 0 else if i < |a| + |b| then 1 else 2;
    a + b + c
  }

  /** Every reference resolves and every course has a teacher. */
  ghost predicate Consistent(courses: Dict<Course>, teachers: Dict<Teacher>, groups: Dict<Group>)
  {
    && (forall t, c :: t in teachers.vals && c in teachers.vals[t].coursesHandled ==> c in courses.vals)
    && (forall g, c :: g in groups.vals && c in groups.vals[g].courses ==> c in courses.vals)
    && (forall c :: c in courses.vals ==> exists t :: t in teachers.vals && c in teachers.vals[t].coursesHandled)
  }

  lemma {:induction false} RefIssuesMembers(courses: Dict<Course>, owner: string, refs: seq<string>, ofTeacher: bool, o: string, c: string)
    ensures UnknownTeacherCourse(o, c) in RefIssues(courses, owner, refs, ofTeacher) <==>
      ofTeacher && o == owner && c in refs && c !in courses.vals
    ensures UnknownGroupCourse(o, c) in RefIssues(courses, owner, refs, ofTeacher) <==>
      !ofTeacher && o == owner && c in refs && c !in courses.vals
  {
    if refs != [] {
      RefIssuesMembers(courses, owner, refs[..|refs| - 1], ofTeacher, o, c);
      assert refs == refs[..|refs| - 1] + [refs[|refs| - 1]];
    }
  }

  lemma {:induction false} TeacherIssuesMembers(courses: Dict<Course>, teachers: Dict<Teacher>, ids: seq<string>, t: string, c: string)
    ensures UnknownTeacherCourse(t, c) in TeacherIssues(courses, teachers, ids) <==>
      t in ids && c in Handled(teachers, t) && c !in courses.vals
  {
    if ids != [] {
      var last := ids[|ids| - 1];
      TeacherIssuesMembers(courses, teachers, ids[..|ids| - 1], t, c);
      RefIssuesMembers(courses, last, Handled(teachers, last), true, t, c);
      assert ids == ids[..|ids| - 1] + [last];
    }
  }

  lemma {:induction false} GroupIssuesMembers(courses: Dict<Course>, groups: Dict<Group>, ids: seq<string>, g: string, c: string)
    ensures UnknownGroupCourse(g, c) in GroupIssues(courses, groups, ids) <==>
      g in ids && c in GroupCourses(groups, g) && c !in courses.vals
  {
    if ids != [] {
      var last := ids[|ids| - 1];
      GroupIssuesMembers(courses, groups, ids[..|ids| - 1], g, c);
      RefIssuesMembers(courses, last, GroupCourses(groups, last), false, g, c);
      assert ids == ids[..|ids| - 1] + [last];
    }
  }

  lemma {:induction false} UncoveredIssuesMembers(teachers: Dict<Teacher>, ids: seq<string>, c: string)
    ensures UncoveredCourse(c) in UncoveredIssues(teachers, ids) <==>
      c in ids && !HandledByOneOf(teachers, |teachers.keys|, c)
  {
    if ids != [] {
      UncoveredIssuesMembers(teachers, ids[..|ids| - 1], c);
      assert ids == ids[..|ids| - 1] + [ids[|ids| - 1]];
    }
  }

  /**
   * validate_data reports each dangling teacher reference, each dangling
   * group reference and each course nobody handles, and nothing else.
   */
  lemma IssuesExact(courses: Dict<Course>, teachers: Dict<Teacher>, groups: Dict<Group>, o: string, c: string)
    requires courses.Valid() && teachers.Valid() && groups.Valid()
    ensures UnknownTeacherCourse(o, c) in Issues(courses, teachers, groups) <==>
      o in teachers.vals && c in teachers.vals[o].coursesHandled && c !in courses.vals
    ensures UnknownGroupCourse(o, c) in Issues(courses, teachers, groups) <==>
      o in groups.vals && c in groups.vals[o].courses && c !in courses.vals
    ensures UncoveredCourse(c) in Issues(courses, teachers, groups) <==>
      c in courses.vals && !exists t :: t in teachers.vals && c in teachers.vals[t].coursesHandled
  {
    var a := TeacherIssues(courses, teachers, teachers.keys);
    var b := GroupIssues(courses, groups, groups.keys);
    var u := UncoveredIssues(teachers, courses.keys);
    TeacherIssuesMembers(courses, teachers, teachers.keys, o, c);
    GroupIssuesMembers(courses, groups, groups.keys, o, c);
    UncoveredIssuesMembers(teachers, courses.keys, c);
    assert HandledByOneOf(teachers, |teachers.keys|, c) <==> exists t :: t in teachers.vals && c in teachers.vals[t].coursesHandled;
    assert UnknownTeacherCourse(o, c) !in b + u;
    assert UnknownGroupCourse(o, c) !in a + u;
    assert UncoveredCourse(c) !in a + b;
  }

  /** validate_data returns no message exactly when the data is consistent. */
  lemma NoIssuesIffConsistent(courses: Dict<Course>, teachers: Dict<Teacher>, groups: Dict<Group>)
    requires courses.Valid() && teachers.Valid() && groups.Valid()
    ensures Issues(courses, teachers, groups) == [] <==> Consistent(courses, teachers, groups)
  {
    var issues := Issues(courses, teachers, groups);
    if issues != [] {
      var x := issues[0];
      match x
      case UnknownTeacherCourse(o, c) => IssuesExact(courses, teachers, groups, o, c);
      case UnknownGroupCourse(o, c) => IssuesExact(courses, teachers, groups, o, c);
      case UncoveredCourse(c) => IssuesExact(courses, teachers, groups, "", c);
    } else {
      forall t, c | t in teachers.vals && c in teachers.vals[t].coursesHandled ensures c in courses.vals {
        IssuesExact(courses, teachers, groups, t, c);
      }
      forall g, c | g in groups.vals && c in groups.vals[g].courses ensures c in courses.vals {
        IssuesExact(courses, teachers, groups, g, c);
      }
      forall c | c in courses.vals ensures exists t :: t in teachers.vals && c in teachers.vals[t].coursesHandled {
        IssuesExact(courses, teachers, groups, "", c);
      }
    }
  }

  lemma {:induction false} MessagesAppend(a: seq<Issue>, b: seq<Issue>)
    ensures Messages(a + b) == Messages(a) + Messages(b)
    decreases |b|
  {
    if b == [] {
      assert a + b == a;
    } else {
      var b' := b[..|b| - 1];
      assert a + b == (a + b') + [b[|b| - 1]];
      MessagesSnoc(a + b', b[|b| - 1]);
      MessagesSnoc(b', b[|b| - 1]);
      assert b' + [b[|b| - 1]] == b;
      MessagesAppend(a, b');
    }
  }

  lemma RefIssuesSnoc(courses: Dict<Course>, owner: string, refs: seq<string>, c: string, ofTeacher: bool)
    ensures RefIssues(courses, owner, refs + [c], ofTeacher) ==
      RefIssues(courses, owner, refs, ofTeacher) +
        if c in courses.vals then []
        else if ofTeacher then [UnknownTeacherCourse(owner, c)]
        else [UnknownGroupCourse(owner, c)]
  {
    assert (refs + [c])[..|refs|] == refs;
  }

  lemma UncoveredIssuesSnoc(teachers: Dict<Teacher>, ids: seq<string>, c: string)
    ensures UncoveredIssues(teachers, ids + [c]) ==
      UncoveredIssues(teachers, ids) + if HandledByOneOf(teachers, |teachers.keys|, c) then [] else [UncoveredCourse(c)]
  {
    assert (ids + [c])[..|ids|] == ids;
  }

  lemma MessagesSnoc(issues: seq<Issue>, x: Issue)
    ensures Messages(issues + [x]) == Messages(issues) + [Message(x)]
  {
    assert (issues + [x])[..|issues|] == issues;
  }

  // ---------------------------------------------------------------- the parser object

  /** One sheet when the workbook has it; a workbook without it changes nothing. */
  function ReadIfPresent<V>(d: Dict<V>, book: map<string, Sheet>, name: string, required: seq<string>,
                            build: (Row, nat) -> Result<(string, V), ParseError>)
    : (r: (Dict<V>, Option<ParseError>))
    requires d.Valid()
    ensures r.0.Valid()
    ensures name !in book ==> r == (d, None)
  {
    if name in book then ReadSheet(d, book[name], name, required, build) else (d, None)
  }

  /** The whole workbook in sheet order; a missing sheet is skipped, the first error stops the rest. */
  function ParseBook(s: Inputs, book: map<string, Sheet>): (r: (Inputs, Option<ParseError>))
    requires s.Valid()
    ensures r.0.Valid()
    ensures "Courses" !in book ==> r.0.courses == s.courses
    ensures "Teachers" !in book ==> r.0.teachers == s.teachers
    ensures "Rooms" !in book ==> r.0.rooms == s.rooms
    ensures "Timeslots" !in book ==> r.0.timeslots == s.timeslots
    ensures "Groups" !in book ==> r.0.groups == s.groups
  {
    var (courses, e1) := ReadIfPresent(s.courses, book, "Courses", CourseColumns, CourseRow);
    var s1 := s.(courses := courses);
    if e1.Some? then (s1, e1) else
    var (teachers, e2) := ReadIfPresent(s.teachers, book, "Teachers", TeacherColumns, TeacherRow);
    var s2 := s1.(teachers := teachers);
    if e2.Some? then (s2, e2) else
    var (rooms, e3) := ReadIfPresent(s.rooms, book, "Rooms", RoomColumns, RoomRow);
    var s3 := s2.(rooms := rooms);
    if e3.Some? then (s3, e3) else
    var (timeslots, e4) := ReadIfPresent(s.timeslots, book, "Timeslots", TimeslotColumns, TimeslotRow);
    var s4 := s3.(timeslots := timeslots);
    if e4.Some? then (s4, e4) else
    var (groups, e5) := ReadIfPresent(s.groups, book, "Groups", GroupColumns, GroupRow);
    (s4.(groups := groups), e5)
  }

  class InputParser {
    var courses: Dict<Course>
    var teachers: Dict<Teacher>
    var rooms: Dict<Room>
    var timeslots: Dict<Timeslot>
    var groups: Dict<Group>

    ghost predicate Valid()
      reads this
    {
      Data().Valid()
    }

    function Data(): Inputs
      reads this
    {
      Inputs(courses, teachers, rooms, timeslots, groups)
    }

    /** All five dicts start empty (the file path is not modelled). */
    constructor ()
      ensures Valid()
      ensures courses == Empty() && teachers == Empty() && rooms == Empty()
      ensures timeslots == Empty() && groups == Empty()
    {
      courses, teachers, rooms, timeslots, groups := Empty(), Empty(), Empty(), Empty(), Empty();
    }

    method ParseCourses(sheet: Sheet) returns (err: Option<ParseError>)
      requires Valid()
      modifies this
      ensures Valid()
      ensures (courses, err) == ReadSheet(old(courses), sheet, "Courses", CourseColumns, CourseRow)
      ensures teachers == old(teachers) && rooms == old(rooms) && timeslots == old(timeslots) && groups == old(groups)
    {
      var missing := MissingOf(CourseColumns, sheet.columns);
      if missing != [] {
        return Some(MissingColumns("Courses", missing));
      }
      courses, err := LoadSheet(courses, sheet.rows, CourseRow);
    }

    method ParseTeachers(sheet: Sheet) returns (err: Option<ParseError>)
      requires Valid()
      modifies this
      ensures Valid()
      ensures (teachers, err) == ReadSheet(old(teachers), sheet, "Teachers", TeacherColumns, TeacherRow)
      ensures courses == old(courses) && rooms == old(rooms) && timeslots == old(timeslots) && groups == old(groups)
    {
      var missing := MissingOf(TeacherColumns, sheet.columns);
      if missing != [] {
        return Some(MissingColumns("Teachers", missing));
      }
      teachers, err := LoadSheet(teachers, sheet.rows, TeacherRow);
    }

    method ParseRooms(sheet: Sheet) returns (err: Option<ParseError>)
      requires Valid()
      modifies this
      ensures Valid()
      ensures (rooms, err) == ReadSheet(old(rooms), sheet, "Rooms", RoomColumns, RoomRow)
      ensures courses == old(courses) && teachers == old(teachers) && timeslots == old(timeslots) && groups == old(groups)
    {
      var missing := MissingOf(RoomColumns, sheet.columns);
      if missing != [] {
        return Some(MissingColumns("Rooms", missing));
      }
      rooms, err := LoadSheet(rooms, sheet.rows, RoomRow);
    }

    method ParseTimeslots(sheet: Sheet) returns (err: Option<ParseError>)
      requires Valid()
      modifies this
      ensures Valid()
      ensures (timeslots, err) == ReadSheet(old(timeslots), sheet, "Timeslots", TimeslotColumns, TimeslotRow)
      ensures courses == old(courses) && teachers == old(teachers) && rooms == old(rooms) && groups == old(groups)
    {
      var missing := MissingOf(TimeslotColumns, sheet.columns);
      if missing != [] {
        return Some(MissingColumns("Timeslots", missing));
      }
      timeslots, err := LoadSheet(timeslots, sheet.rows, TimeslotRow);
    }

    method ParseGroups(sheet: Sheet) returns (err: Option<ParseError>)
      requires Valid()
      modifies this
      ensures Valid()
      ensures (groups, err) == ReadSheet(old(groups), sheet, "Groups", GroupColumns, GroupRow)
      ensures courses == old(courses) && teachers == old(teachers) && rooms == old(rooms) && timeslots == old(timeslots)
    {
      var missing := MissingOf(GroupColumns, sheet.columns);
      if missing != [] {
        return Some(MissingColumns("Groups", missing));
      }
      groups, err := LoadSheet(groups, sheet.rows, GroupRow);
    }

    /** parse_excel on an already opened workbook: sheet name -> sheet. */
    method ParseExcel(book: map<string, Sheet>) returns (err: Option<ParseError>)
      requires Valid()
      modifies this
      ensures Valid()
      ensures (Data(), err) == ParseBook(old(Data()), book)
    {
      ghost var s := Data();
      err := None;
      if "Courses" in book {
        err := ParseCourses(book["Courses"]);
      }
      assert (courses, err) == ReadIfPresent(s.courses, book, "Courses", CourseColumns, CourseRow);
      if err.Some? { return; }
      if "Teachers" in book {
        err := ParseTeachers(book["Teachers"]);
      }
      assert (teachers, err) == ReadIfPresent(s.teachers, book, "Teachers", TeacherColumns, TeacherRow);
      if err.Some? { return; }
      if "Rooms" in book {
        err := ParseRooms(book["Rooms"]);
      }
      assert (rooms, err) == ReadIfPresent(s.rooms, book, "Rooms", RoomColumns, RoomRow);
      if err.Some? { return; }
      if "Timeslots" in book {
        err := ParseTimeslots(book["Timeslots"]);
      }
      assert (timeslots, err) == ReadIfPresent(s.timeslots, book, "Timeslots", TimeslotColumns, TimeslotRow);
      if err.Some? { return; }
      if "Groups" in book {
        err := ParseGroups(book["Groups"]);
      }
    }

    /** The inner loop of the first two passes: one message per reference of `owner` that is not a course id. */
    method DanglingMessages(owner: string, refs: seq<string>, ofTeacher: bool) returns (msgs: seq<string>)
      ensures msgs == Messages(RefIssues(courses, owner, refs, ofTeacher))
    {
      msgs := [];
      var j := 0;
      while j < |refs|
        invariant 0 <= j <= |refs|
        invariant msgs == Messages(RefIssues(courses, owner, refs[..j], ofTeacher))
      {
        var before := RefIssues(courses, owner, refs[..j], ofTeacher);
        RefIssuesSnoc(courses, owner, refs[..j], refs[j], ofTeacher);
        assert refs[..j + 1] == refs[..j] + [refs[j]];
        if refs[j] in courses.vals {
          assert before + [] == before;
        } else {
          var issue := if ofTeacher then UnknownTeacherCourse(owner, refs[j]) else UnknownGroupCourse(owner, refs[j]);
          assert RefIssues(courses, owner, refs[..j + 1], ofTeacher) == before + [issue];
          MessagesSnoc(before, issue);
          msgs := msgs + [Message(issue)];
        }
        j := j + 1;
      }
      assert refs[..j] == refs;
    }

    /** The first pass: each teacher's courses_handled, teachers in dict order. */
    method UnknownTeacherCourseMessages() returns (msgs: seq<string>)
      ensures msgs == Messages(TeacherIssues(courses, teachers, teachers.keys))
    {
      msgs := [];
      var i := 0;
      while i < |teachers.keys|
        invariant 0 <= i <= |teachers.keys|
        invariant msgs == Messages(TeacherIssues(courses, teachers, teachers.keys[..i]))
      {
        var t := teachers.keys[i];
        var more := DanglingMessages(t, Handled(teachers, t), true);
        assert teachers.keys[..i + 1][..i] == teachers.keys[..i];
        MessagesAppend(TeacherIssues(courses, teachers, teachers.keys[..i]), RefIssues(courses, t, Handled(teachers, t), true));
        msgs := msgs + more;
        i := i + 1;
      }
      assert teachers.keys[..i] == teachers.keys;
    }

    /** The second pass: each group's courses, groups in dict order. */
    method UnknownGroupCourseMessages() returns (msgs: seq<string>)
      ensures msgs == Messages(GroupIssues(courses, groups, groups.keys))
    {
      msgs := [];
      var i := 0;
      while i < |groups.keys|
        invariant 0 <= i <= |groups.keys|
        invariant msgs == Messages(GroupIssues(courses, groups, groups.keys[..i]))
      {
        var g := groups.keys[i];
        var more := DanglingMessages(g, GroupCourses(groups, g), false);
        assert groups.keys[..i + 1][..i] == groups.keys[..i];
        MessagesAppend(GroupIssues(courses, groups, groups.keys[..i]), RefIssues(courses, g, GroupCourses(groups, g), false));
        msgs := msgs + more;
        i := i + 1;
      }
      assert groups.keys[..i] == groups.keys;
    }

    /** `any(course_id in teacher['courses_handled'] for teacher in self.teachers.values())`. */
    method HasTeacher(c: string) returns (found: bool)
      requires Valid()
      ensures found <==> HandledByOneOf(teachers, |teachers.keys|, c)
    {
      found := false;
      var j := 0;
      while j < |teachers.keys| && !found
        invariant 0 <= j <= |teachers.keys|
        invariant found <==> HandledByOneOf(teachers, j, c)
      {
        found := c in teachers.vals[teachers.keys[j]].coursesHandled;
        j := j + 1;
      }
    }

    /** The third pass: each course without a teacher, courses in dict order. */
    method UncoveredCourseMessages() returns (msgs: seq<string>)
      requires Valid()
      ensures msgs == Messages(UncoveredIssues(teachers, courses.keys))
    {
      msgs := [];
      var i := 0;
      while i < |courses.keys|
        invariant 0 <= i <= |courses.keys|
        invariant msgs == Messages(UncoveredIssues(teachers, courses.keys[..i]))
      {
        var c := courses.keys[i];
        var hasTeacher := HasTeacher(c);
        var before := UncoveredIssues(teachers, courses.keys[..i]);
        UncoveredIssuesSnoc(teachers, courses.keys[..i], c);
        assert courses.keys[..i + 1] == courses.keys[..i] + [c];
        if hasTeacher {
          assert before + [] == before;
        } else {
          MessagesSnoc(UncoveredIssues(teachers, courses.keys[..i]), UncoveredCourse(c));
          msgs := msgs + [Message(UncoveredCourse(c))];
        }
        i := i + 1;
      }
      assert courses.keys[..i] == courses.keys;
    }

    /** validate_data: the three passes' messages, in pass order. */
    method ValidateData() returns (errors: seq<string>)
      requires Valid()
      ensures errors == Messages(Issues(courses, teachers, groups))
      ensures errors == [] <==> Consistent(courses, teachers, groups)
    {
      var first := UnknownTeacherCourseMessages();
      var second := UnknownGroupCourseMessages();
      var third := UncoveredCourseMessages();
      errors := first + second + third;
      var a := TeacherIssues(courses, teachers, teachers.keys);
      var b := GroupIssues(courses, groups, groups.keys);
      var c := UncoveredIssues(teachers, courses.keys);
      MessagesAppend(a, b);
      MessagesAppend(a + b, c);
      NoIssuesIffConsistent(courses, teachers, groups);
    }
  }
}
