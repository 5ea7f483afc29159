/**
 * The station list of the dataset (src/csv_temperature_data/core/csv_data.py):
 * the first field of every data row, stripped, each once, ordered with the
 * integer-looking names first by value and the others after them by
 * code-point order.
 *
 * The file is given as the rows `csv.reader` yields (a sequence of fields
 * per line, an empty sequence for a blank line); opening and reading the
 * file, and the cache in front of the function, are not part of this model.
 */
module CsvStations {
  import opened Wrappers
  import opened Text
  import opened Sorting

  /**
   * Python `int(value)` on a station name: surrounding whitespace, an
   * optional sign and decimal digits; None where Python raises `ValueError`.
   */
  function PyInt(value: string): Option<int>
  {
    ParseInt(Trim(value))
  }

  /** `sort_key`: `(0, int(value))`, or `(1, value)` when `int` refuses the name. */
  datatype StationKey = IntKey(n: int) | TextKey(s: string)

  function SortKey(value: string): (k: StationKey)
    ensures k.IntKey? <==> PyInt(value).Some?
    ensures k.IntKey? ==> k.n == PyInt(value).value
    ensures k.TextKey? ==> k.s == value
  {
    match PyInt(value)
    case Some(n) => IntKey(n)
    case None => TextKey(value)
  }

  /** Python's tuple order on the keys. */
  predicate KeyLe(a: StationKey, b: StationKey)
  {
    match (a, b)
    case (IntKey(x), IntKey(y)) => x <= y
    case (IntKey(_), TextKey(_)) => true
    case (TextKey(_), IntKey(_)) => false
    case (TextKey(x), TextKey(y)) => LexLe(x, y)
  }

  /** Station `a` may come before station `b`. */
  predicate StationLe(a: string, b: string)
  {
    KeyLe(SortKey(a), SortKey(b))
  }

  /** Comparing by key is a total preorder (names with the same value, like "7" and "07", tie). */
  lemma StationLeTotalPreorder()
    ensures TotalPreorder(StationLe)
  {
    LexLeTotalOrder();
  }

  /** The stripped first fields of the non-empty rows. */
  ghost function FirstFields(rows: seq<seq<string>>): set<string>
    decreases |rows|
  {
    if rows == [] then {}
    else
      var last := rows[|rows| - 1];
      FirstFields(rows[..|rows| - 1]) + (if last != [] then {Trim(last[0])} else {})
  }

  /** The stations a file mentions: the first row is the header and names none. */
  ghost function FileStations(rows: seq<seq<string>>): set<string>
  {
    if rows == [] then {} else FirstFields(rows[1..])
  }

  lemma {:induction false} FirstFieldsMembers(rows: seq<seq<string>>, s: string)
    ensures s in FirstFields(rows) <==> exists i :: 0 <= i < |rows| && rows[i] != [] && Trim(rows[i][0]) == s
    decreases |rows|
  {
    if rows != [] {
      var init := rows[..|rows| - 1];
      FirstFieldsMembers(init, s);
      if s in FirstFields(init) {
        var i :| 0 <= i < |init| && init[i] != [] && Trim(init[i][0]) == s;
        assert rows[i] == init[i];
      }
      if exists i :: 0 <= i < |rows| && rows[i] != [] && Trim(rows[i][0]) == s {
        var i :| 0 <= i < |rows| && rows[i] != [] && Trim(rows[i][0]) == s;
        if i < |rows| - 1 {
          assert init[i] == rows[i];
        }
      }
    }
  }

  /** A row's station is its first field stripped, and the header row is never one. */
  lemma FileStationsMembers(rows: seq<seq<string>>, s: string)
    ensures s in FileStations(rows) <==> exists i :: 1 <= i < |rows| && rows[i] != [] && Trim(rows[i][0]) == s
  {
    if rows != [] {
      FirstFieldsMembers(rows[1..], s);
      if exists i :: 1 <= i < |rows| && rows[i] != [] && Trim(rows[i][0]) == s {
        var i :| 1 <= i < |rows| && rows[i] != [] && Trim(rows[i][0]) == s;
        assert rows[1..][i - 1] == rows[i];
      }
    }
  }

  /** `_unique_stations_cached`, after the file is read. */
  method UniqueStations(rows: seq<seq<string>>) returns (r: seq<string>)
    ensures Distinct(r)
    ensures forall s :: s in r <==> s in FileStations(rows)
    ensures SortedBy(r, StationLe)
  {
    // the header is read and dropped
    var body := if rows == [] then [] else rows[1..];
    var stations: set<string> := {};
    var i := 0;
    while i < |body|
      invariant 0 <= i <= |body|
      invariant stations == FirstFields(body[..i])
    {
      if body[i] != [] {
        stations := stations + {Trim(body[i][0])};
      }
      assert body[..i + 1][..i] == body[..i];
      i := i + 1;
    }
    assert body[..|body|] == body;
    // the set is handed to `sorted` in some order of its own
    var listed: seq<string> := [];
    var rest := stations;
    while rest != {}
      invariant rest <= stations
      invariant Distinct(listed)
      invariant forall s :: s in listed <==> s in stations && s !in rest
      decreases |rest|
    {
      var s :| s in rest;
      listed := listed + [s];
      rest := rest - {s};
    }
    StationLeTotalPreorder();
    SortSorted(listed, StationLe);
    SortDistinct(listed, StationLe);
    r := Sort(listed, StationLe);
    forall s ensures s in r <==> s in listed {
      SortMembers(listed, StationLe, s);
    }
  }

  /**
   * What the order means: integer-looking names come first, in numeric
   * order ("9" before "10"); the others follow in code-point order.
   */
  lemma StationOrder(r: seq<string>)
    requires SortedBy(r, StationLe)
    ensures forall i, j :: 0 <= i < j < |r| && PyInt(r[j]).Some? ==> PyInt(r[i]).Some?
    ensures forall i, j :: 0 <= i < j < |r| && PyInt(r[i]).Some? && PyInt(r[j]).Some? ==>
              PyInt(r[i]).value <= PyInt(r[j]).value
    ensures forall i, j :: 0 <= i < j < |r| && PyInt(r[i]).None? && PyInt(r[j]).None? ==>
              LexLe(r[i], r[j])
  {
  }

  /** The file of the service's station-listing test: stations 123, 123 and 456 under a header. */
  const ExampleRows: seq<seq<string>> :=
    [["Station Number", "Year", "Jan"], ["123", "2000", "1.0"], ["123", "2001", "2.0"], ["456", "2000", "3.0"]]

  lemma ThreeRowStations(header: seq<string>, r1: seq<string>, r2: seq<string>, r3: seq<string>)
    requires r1 != [] && r2 != [] && r3 != []
    ensures FileStations([header, r1, r2, r3]) == {Trim(r1[0]), Trim(r2[0]), Trim(r3[0])}
  {
    var body := [header, r1, r2, r3][1..];
    assert body == [r1, r2, r3];
    assert [r1][..0] == [];
    assert FirstFields([r1]) == {Trim(r1[0])};
    assert [r1, r2][..1] == [r1];
    assert FirstFields([r1, r2]) == {Trim(r1[0]), Trim(r2[0])};
    assert body[..2] == [r1, r2];
  }

  lemma TrimLiterals()
    ensures Trim("123") == "123" && Trim("456") == "456"
  {
    assert Unpadded("123") && Unpadded("456");
  }

  lemma RowsSplit()
    ensures ExampleRows == [ExampleRows[0], ExampleRows[1], ExampleRows[2], ExampleRows[3]]
    ensures ExampleRows[1][0] == "123" && ExampleRows[2][0] == "123" && ExampleRows[3][0] == "456"
  {
  }

  lemma ExampleFileStations()
    ensures FileStations(ExampleRows) == {"123", "456"}
  {
    var r := ExampleRows;
    ThreeRowStations(r[0], r[1], r[2], r[3]);
    RowsSplit();
    TrimLiterals();
  }

  lemma ExampleKeys()
    ensures SortKey("123") == IntKey(123) && SortKey("456") == IntKey(456)
  {
    assert Unpadded("123") && Unpadded("456");
    assert NatToString(12) == "12" && NatToString(123) == "123";
    assert NatToString(45) == "45" && NatToString(456) == "456";
    ParseIntOfIntToString(123);
    ParseIntOfIntToString(456);
  }

  lemma ExampleMembers(r: seq<string>)
    requires Distinct(r)
    requires forall s :: s in r <==> s in {"123", "456"}
    ensures |r| == 2 && r[0] != r[1]
    ensures (r[0] == "123" || r[0] == "456") && (r[1] == "123" || r[1] == "456")
  {
    DistinctCardinality(r);
    assert (set s | s in r) == {"123", "456"};
  }

  lemma ExamplePair(x: string, y: string)
    requires x != y && (x == "123" || x == "456") && (y == "123" || y == "456")
    requires StationLe(x, y)
    ensures x == "123" && y == "456"
  {
    ExampleKeys();
  }

  /** The only sorted list of the two stations without repeats. */
  lemma ExampleOrder(r: seq<string>)
    requires Distinct(r) && SortedBy(r, StationLe)
    requires forall s :: s in r <==> s in {"123", "456"}
    ensures r == ["123", "456"]
  {
    ExampleMembers(r);
    ExamplePair(r[0], r[1]);
  }

  lemma ExampleResult(rows: seq<seq<string>>, r: seq<string>)
    requires FileStations(rows) == {"123", "456"}
    requires Distinct(r) && SortedBy(r, StationLe)
    requires forall s :: s in r <==> s in FileStations(rows)
    ensures r == ["123", "456"]
  {
    ExampleOrder(r);
  }

  method ListStationsExample() returns (r: seq<string>)
    ensures r == ["123", "456"] && |r| == 2
  {
    var rows := ExampleRows;
    ExampleFileStations();
    r := UniqueStations(rows);
    ExampleResult(rows, r);
  }
}
