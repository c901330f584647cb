/**
 * The `shays` table (id INTEGER PRIMARY KEY AUTOINCREMENT, name TEXT NOT NULL
 * UNIQUE) held in memory as a sequence of rows in id order, together with the
 * AUTOINCREMENT counter, and the start-up seeding of an empty table from the
 * default-names file.
 */
module Catalog {
  import opened Wrappers
  import opened Text

  /** One row of the table. */
  datatype Row = Row(id: int, name: string)

  /** Why an INSERT was refused: the UNIQUE constraint on `name`. */
  datatype InsertError = UniqueViolation

  /** The `name` column, in id order. */
  function Names(rows: seq<Row>): seq<string> {
    seq(|rows|, i requires 0 <= i < |rows| => rows[i].name)
  }

  /** Rows are kept in id order, and ids never repeat. */
  predicate IdsIncreasing(rows: seq<Row>) {
    forall i, j :: 0 <= i < j < |rows| ==> rows[i].id < rows[j].id
  }

  /** The UNIQUE constraint on `name`. */
  predicate NamesUnique(rows: seq<Row>) {
    forall i, j :: 0 <= i < j < |rows| ==> rows[i].name != rows[j].name
  }

  /** A table SQLite can hold: increasing positive ids, all below the
      AUTOINCREMENT counter, and unique names. */
  predicate WellFormed(rows: seq<Row>, nextId: int) {
    && 1 <= nextId
    && IdsIncreasing(rows)
    && NamesUnique(rows)
    && forall i :: 0 <= i < |rows| ==> 1 <= rows[i].id < nextId
  }

  /** A table built only by this program: the ids are exactly 1..n and no id
      has been spent on a row that is not there. */
  predicate Compact(rows: seq<Row>, nextId: int) {
    && nextId == |rows| + 1
    && forall i :: 0 <= i < |rows| ==> rows[i].id == i + 1
  }

  /** `SELECT name FROM shays WHERE id = ?` followed by `[0]`: absent when no
      row has that id. */
  function NameById(rows: seq<Row>, id: int): (r: Option<string>)
    ensures r.None? <==> forall i :: 0 <= i < |rows| ==> rows[i].id != id
    ensures r.Some? ==> exists i :: 0 <= i < |rows| && rows[i] == Row(id, r.value)
  {
    if rows == [] then None
    else if rows[0].id == id then Some(rows[0].name)
    else NameById(rows[1..], id)
  }

  /** `SELECT name FROM shays WHERE name = ?`: the row holding that name. */
  function FindByName(rows: seq<Row>, name: string): (r: Option<Row>)
    ensures r.None? <==> name !in Names(rows)
    ensures r.Some? ==> r.value in rows && r.value.name == name
  {
    if rows == [] then None
    else
      assert Names(rows) == [rows[0].name] + Names(rows[1..]);
      if rows[0].name == name then Some(rows[0])
      else FindByName(rows[1..], name)
  }

  /** `MIN(id)` over a non-empty table. */
  function MinId(rows: seq<Row>): (m: int)
    requires rows != []
    ensures exists i :: 0 <= i < |rows| && rows[i].id == m
    ensures forall i :: 0 <= i < |rows| ==> m <= rows[i].id
  {
    if |rows| == 1 then rows[0].id
    else
      var m := MinId(rows[1..]);
      if rows[0].id <= m then rows[0].id else m
  }

  /** `MAX(id)` over a non-empty table. */
  function MaxId(rows: seq<Row>): (m: int)
    requires rows != []
    ensures exists i :: 0 <= i < |rows| && rows[i].id == m
    ensures forall i :: 0 <= i < |rows| ==> rows[i].id <= m
  {
    if |rows| == 1 then rows[0].id
    else
      var m := MaxId(rows[1..]);
      if rows[0].id >= m then rows[0].id else m
  }

  /** `SELECT MIN(id), MAX(id) FROM shays`: absent on an empty table, where
      SQLite returns NULL for both. */
  function IdRange(rows: seq<Row>): (r: Option<(int, int)>)
    ensures r.None? <==> rows == []
  {
    if rows == [] then None else Some((MinId(rows), MaxId(rows)))
  }

  /** In a table this program built, the id range is 1..n and every id in
      it names a row, so a lookup by any id in the range succeeds. */
  lemma {:induction false} CompactIdsAllNamed(rows: seq<Row>, nextId: int)
    requires Compact(rows, nextId) && rows != []
    ensures IdRange(rows) == Some((1, |rows|))
    ensures forall id :: 1 <= id <= |rows| ==> NameById(rows, id) == Some(rows[id - 1].name)
  {
    var lo, hi := MinId(rows), MaxId(rows);
    assert rows[0].id == 1 && rows[|rows| - 1].id == |rows|;
    forall id | 1 <= id <= |rows| ensures NameById(rows, id) == Some(rows[id - 1].name) {
      var r := NameById(rows, id);
      assert rows[id - 1].id == id;
      assert r.Some?;
      var i :| 0 <= i < |rows| && rows[i] == Row(id, r.value);
      assert i == id - 1;
    }
  }

  /** The rows `executemany('INSERT ...')` appends for `names`, the counter
      starting at `start`. */
  function Numbered(names: seq<string>, start: int): seq<Row> {
    seq(|names|, i requires 0 <= i < |names| => Row(start + i, names[i]))
  }

  /** No name occurs twice in the list. */
  predicate NoDuplicates(names: seq<string>) {
    forall i, j :: 0 <= i < j < |names| ==> names[i] != names[j]
  }

  /** Seeding an empty table with distinct names yields a well-formed table;
      a fresh table (counter 1) comes out with ids exactly 1..n. */
  lemma NumberedWellFormed(names: seq<string>, start: int)
    requires 1 <= start && NoDuplicates(names)
    ensures WellFormed(Numbered(names, start), start + |names|)
    ensures start == 1 ==> Compact(Numbered(names, start), start + |names|)
  {
  }

  /** `[line.strip() for line in f]`: every line of the file, stripped. */
  function StrippedLines(lines: seq<string>): (ss: seq<string>)
    ensures |ss| == |lines|
    ensures forall k :: 0 <= k < |ss| ==> ss[k] == Strip(lines[k]) && IsStripped(ss[k])
  {
    if lines == [] then []
    else
      [Strip(lines[0])] + StrippedLines(lines[1..])
  }

  /** The `if line.strip()` filter: the non-empty strings, in order. */
  function NonBlank(ss: seq<string>): (ns: seq<string>)
    ensures |ns| <= |ss|
    ensures forall k :: 0 <= k < |ns| ==> ns[k] != [] && ns[k] in ss
    ensures ns == [] <==> forall k :: 0 <= k < |ss| ==> ss[k] == []
  {
    if ss == [] then []
    else if ss[0] != [] then [ss[0]] + NonBlank(ss[1..])
    else NonBlank(ss[1..])
  }

  /** The filter works line by line: filtering a concatenation is
      concatenating the filtered parts, so the kept lines stay in file order. */
  lemma {:induction false} NonBlankAppend(a: seq<string>, b: seq<string>)
    ensures NonBlank(a + b) == NonBlank(a) + NonBlank(b)
  {
    if a != [] {
      assert (a + b)[1..] == a[1..] + b;
      NonBlankAppend(a[1..], b);
    } else {
      assert a + b == b;
    }
  }

  /** The filter keeps every non-empty string and drops only empty ones. */
  lemma {:induction false} NonBlankMembers(ss: seq<string>, x: string)
    ensures x in NonBlank(ss) <==> x != [] && x in ss
  {
    if ss != [] {
      NonBlankMembers(ss[1..], x);
      assert ss == [ss[0]] + ss[1..];
    }
  }

  /** The filter drops every copy of the empty string and keeps every copy of
      each other string: a repeated line stays repeated. */
  lemma {:induction false} NonBlankCount(ss: seq<string>)
    ensures forall x :: multiset(NonBlank(ss))[x] == if x == [] then 0 else multiset(ss)[x]
  {
    if ss != [] {
      NonBlankCount(ss[1..]);
      assert ss == [ss[0]] + ss[1..];
    }
  }

  /** A line of the file is blank when it strips to the empty string. */
  predicate AllBlank(lines: seq<string>) {
    forall k :: 0 <= k < |lines| ==> Strip(lines[k]) == []
  }

  /** `load_default_names`: the non-blank stripped lines of the file, or just
      the configured default name when the file is missing, unreadable (None)
      or holds only blank lines. */
  function DefaultNames(file: Option<seq<string>>, defaultName: string): (ns: seq<string>)
    ensures |ns| >= 1
    ensures ns == [defaultName] || (file.Some? && forall k :: 0 <= k < |ns| ==> ns[k] != [] && IsStripped(ns[k]))
    ensures file.None? || AllBlank(file.value) ==> ns == [defaultName]
    ensures file.Some? && !AllBlank(file.value) ==> ns == NonBlank(StrippedLines(file.value))
  {
    match file
    case None => [defaultName]
    case Some(lines) =>
      var ns := NonBlank(StrippedLines(lines));
      if ns == [] then [defaultName] else ns
  }

  /** When the file has a non-blank line, the seeded names are exactly the
      non-empty results of stripping its lines. */
  lemma DefaultNamesMembers(lines: seq<string>, defaultName: string, x: string)
    requires !AllBlank(lines)
    ensures x in DefaultNames(Some(lines), defaultName) <==>
              x != [] && exists k :: 0 <= k < |lines| && Strip(lines[k]) == x
  {
    var ss := StrippedLines(lines);
    NonBlankMembers(ss, x);
    if x in ss {
      var k :| 0 <= k < |ss| && ss[k] == x;
      assert Strip(lines[k]) == x;
    }
    if exists k :: 0 <= k < |lines| && Strip(lines[k]) == x {
      var k :| 0 <= k < |lines| && Strip(lines[k]) == x;
      assert ss[k] == x;
    }
  }

  /** The loop of `executemany('INSERT INTO shays (name) VALUES (?)', ...)`
      into an empty table: the rows for `names` numbered from `start`, or the
      first name that repeats an earlier one, on which the UNIQUE constraint
      fails. */
  method StageRows(names: seq<string>, start: int) returns (r: Result<seq<Row>, string>)
    ensures NoDuplicates(names) ==> r == Ok(Numbered(names, start))
    ensures !NoDuplicates(names) ==> r.Err? && r.error in names
    ensures r.Err? ==> exists i :: 0 <= i < |names| && names[i] == r.error
                         && r.error in names[..i] && NoDuplicates(names[..i])
  {
    var staged: seq<Row> := [];
    var i := 0;
    while i < |names|
      invariant 0 <= i <= |names|
      invariant staged == Numbered(names[..i], start)
      invariant NoDuplicates(names[..i])
    {
      if names[i] in Names(staged) {
        var j :| 0 <= j < |staged| && Names(staged)[j] == names[i];
        assert names[j] == names[i];
        assert names[..i][j] == names[i];
        return Err(names[i]);
      }
      assert forall j :: 0 <= j < i ==> names[j] == Names(staged)[j];
      assert names[..i + 1] == names[..i] + [names[i]];
      staged := staged + [Row(start + i, names[i])];
      i := i + 1;
    }
    assert names[..i] == names;
    r := Ok(staged);
  }

  /** The table as an object: `Insert` and `InitDb` change it in place. */
  class Table {
    var rows: seq<Row>
    var nextId: int

    ghost predicate Valid()
      reads this
    {
      WellFormed(rows, nextId)
    }

    /** `CREATE TABLE IF NOT EXISTS shays` on a new database file. */
    constructor ()
      ensures Valid() && Compact(rows, nextId)
      ensures rows == [] && nextId == 1
    {
      rows := [];
      nextId := 1;
    }

    /** `INSERT INTO shays (name) VALUES (?)`: refused on a name already
        present; otherwise one row with the next AUTOINCREMENT id is appended. */
    method Insert(name: string) returns (r: Result<int, InsertError>)
      requires Valid()
      modifies this
      ensures Valid()
      ensures name in old(Names(rows)) ==>
        r == Err(UniqueViolation) && rows == old(rows) && nextId == old(nextId)
      ensures name !in old(Names(rows)) ==>
        && r == Ok(old(nextId))
        && rows == old(rows) + [Row(old(nextId), name)]
        && nextId == old(nextId) + 1
      ensures old(Compact(rows, nextId)) ==> Compact(rows, nextId)
    {
      if name in Names(rows) {
        return Err(UniqueViolation);
      }
      ghost var before := rows;
      rows := rows + [Row(nextId, name)];
      r := Ok(nextId);
      nextId := nextId + 1;
      forall i, j | 0 <= i < j < |rows| ensures rows[i].name != rows[j].name {
        if j == |rows| - 1 {
          assert rows[i].name == Names(before)[i];
        }
      }
    }

    /** `init_db` after the CREATE: when the table has no row, insert the default
        names in order. A name listed twice makes `executemany` raise on the
        UNIQUE constraint; the transaction is rolled back, nothing is inserted,
        and the error names the repeated name. A table with rows is left as is. */
    method InitDb(file: Option<seq<string>>, defaultName: string) returns (r: Result<(), string>)
      requires Valid()
      modifies this
      ensures Valid()
      ensures old(rows) != [] ==> r == Ok(()) && rows == old(rows) && nextId == old(nextId)
      ensures old(rows) == [] && NoDuplicates(DefaultNames(file, defaultName)) ==>
        && r == Ok(())
        && rows == Numbered(DefaultNames(file, defaultName), old(nextId))
        && nextId == old(nextId) + |DefaultNames(file, defaultName)|
      ensures old(rows) == [] && !NoDuplicates(DefaultNames(file, defaultName)) ==>
        && r.Err? && r.error in DefaultNames(file, defaultName)
        && rows == old(rows) && nextId == old(nextId)
      ensures old(Compact(rows, nextId)) ==> Compact(rows, nextId)
    {
      if rows != [] {
        return Ok(());
      }
      var names := DefaultNames(file, defaultName);
      var staged := StageRows(names, nextId);
      match staged
      case Err(dup) =>
        r := Err(dup);
      case Ok(seeded) =>
        NumberedWellFormed(names, nextId);
        rows, nextId := seeded, nextId + |names|;
        r := Ok(());
    }
  }
}
