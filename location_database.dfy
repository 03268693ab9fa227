/** The reference table of src/data/locationDatabase.ts: a naive
    comma-split parser for the airport and railway-station CSV text, the
    concatenation of both record lists, and the code-keyed index in which
    the last record with a code wins. Coordinates stay as the field text
    they are parsed from. */
module LocationDatabase {
  import opened Text
  import opened Wrappers

  datatype PlaceType = Airport | Railway

  datatype Location = Location(code: string, name: string, lat: string, lon: string, kind: PlaceType)

  // ---------------------------------------------------------------------
  // Row filters
  // ---------------------------------------------------------------------

  /** The airport filter: more than nine fields, field 8 is `IN` and field
      13 exists and is non-empty (a missing field is `undefined`, which is
      falsy). */
  predicate IsIndianAirport(parts: seq<string>) {
    |parts| > 9 && parts[8] == "IN" && |parts| > 13 && parts[13] != ""
  }

  /** The record an airport line yields, if any. */
  function AirportRow(line: string): Option<Location> {
    var parts := Split(line, ',');
    if IsIndianAirport(parts) then
      Some(Location(parts[13], Without(parts[3], '"'), parts[4], parts[5], Airport))
    else None
  }

  /** The railway filter: more than six fields and a non-empty field 0. */
  predicate IsStation(parts: seq<string>) {
    |parts| > 6 && parts[0] != ""
  }

  /** The record a railway line yields, if any. */
  function RailwayRow(line: string): Option<Location> {
    var parts := Split(line, ',');
    if IsStation(parts) then Some(Location(parts[0], parts[1], parts[5], parts[6], Railway))
    else None
  }

  // ---------------------------------------------------------------------
  // Keeping the records a row filter yields, in line order
  // ---------------------------------------------------------------------

  /** The values `f` yields for the elements of `xs`, in order. */
  function Keep<E, T>(xs: seq<E>, f: E -> Option<T>): (r: seq<T>)
    ensures |r| <= |xs|
  {
    if xs == [] then []
    else
      var rest := Keep(xs[..|xs| - 1], f);
      match f(xs[|xs| - 1])
      case Some(v) => rest + [v]
      case None => rest
  }

  /** For each kept value, the index of the element it came from. */
  ghost function Origins<E, T>(xs: seq<E>, f: E -> Option<T>): (o: seq<nat>)
    ensures |o| == |Keep(xs, f)|
    ensures forall k :: 0 <= k < |o| ==> o[k] < |xs| && f(xs[o[k]]) == Some(Keep(xs, f)[k])
    ensures forall k, l :: 0 <= k < l < |o| ==> o[k] < o[l]
    ensures forall i :: 0 <= i < |xs| && f(xs[i]).Some? ==> i in o
  {
    if xs == [] then []
    else
      var init := xs[..|xs| - 1];
      var rest := Origins(init, f);
      assert forall i :: 0 <= i < |init| ==> init[i] == xs[i];
      match f(xs[|xs| - 1])
      case Some(_) => rest + [|xs| - 1]
      case None => rest
  }

  /** Every kept value comes from an element, and every value an element
      yields is kept. */
  lemma {:induction false} KeepInOrder<E, T>(xs: seq<E>, f: E -> Option<T>)
    ensures forall v :: v in Keep(xs, f) ==> exists i :: 0 <= i < |xs| && f(xs[i]) == Some(v)
    ensures forall i :: 0 <= i < |xs| && f(xs[i]).Some? ==> f(xs[i]).value in Keep(xs, f)
  {
    var o := Origins(xs, f);
    var kept := Keep(xs, f);
    forall v | v in kept
      ensures exists i :: 0 <= i < |xs| && f(xs[i]) == Some(v)
    {
      var k :| 0 <= k < |kept| && kept[k] == v;
      assert f(xs[o[k]]) == Some(v);
    }
    forall i | 0 <= i < |xs| && f(xs[i]).Some?
      ensures f(xs[i]).value in kept
    {
      assert i in o;
      var k :| 0 <= k < |o| && o[k] == i;
      assert f(xs[o[k]]) == Some(kept[k]);
    }
  }

  // ---------------------------------------------------------------------
  // The two parsers
  // ---------------------------------------------------------------------

  function AirportRecords(csv: string): seq<Location> {
    Keep(Split(csv, '\n'), AirportRow)
  }

  /** Line 0 is the header and is skipped. */
  function RailwayRecords(csv: string): seq<Location> {
    Keep(Split(csv, '\n')[1..], RailwayRow)
  }

  /** `parseAirportData`: one pass over the lines, pushing a record for
      every line that passes the filter. */
  method ParseAirportData(csv: string) returns (results: seq<Location>)
    ensures results == AirportRecords(csv)
  {
    var lines := Split(csv, '\n');
    results := [];
    for i := 0 to |lines|
      invariant results == Keep(lines[..i], AirportRow)
    {
      var parts := Split(lines[i], ',');
      if IsIndianAirport(parts) {
        results := results + [Location(parts[13], Without(parts[3], '"'), parts[4], parts[5], Airport)];
      }
      assert lines[..i + 1][..i] == lines[..i];
    }
    assert lines[..|lines|] == lines;
  }

  /** `parseRailwayData`: the same pass, starting at line 1. */
  method ParseRailwayData(csv: string) returns (results: seq<Location>)
    ensures results == RailwayRecords(csv)
  {
    var lines := Split(csv, '\n');
    results := [];
    for i := 1 to |lines|
      invariant results == Keep(lines[1..i], RailwayRow)
    {
      var parts := Split(lines[i], ',');
      if IsStation(parts) {
        results := results + [Location(parts[0], parts[1], parts[5], parts[6], Railway)];
      }
      assert lines[1..i + 1][..i - 1] == lines[1..i];
    }
    assert lines[1..|lines|] == lines[1..];
  }

  /** Every airport record comes from a line of the input that passes the
      filter: its code is field 13 of that line, its name is field 3 with
      every double quote removed, and it has no double quote in it. */
  lemma AirportRecordFiltered(csv: string, k: nat)
    requires k < |AirportRecords(csv)|
    ensures var r := AirportRecords(csv)[k];
      && r.kind == Airport && r.code != "" && '"' !in r.name
      && exists i :: 0 <= i < |Split(csv, '\n')| &&
           var parts := Split(Split(csv, '\n')[i], ',');
           IsIndianAirport(parts) && r.code == parts[13] && r.name == Without(parts[3], '"')
  {
    var lines := Split(csv, '\n');
    KeepInOrder(lines, AirportRow);
    var r := AirportRecords(csv)[k];
    assert r in AirportRecords(csv);
    var i :| 0 <= i < |lines| && AirportRow(lines[i]) == Some(r);
    var parts := Split(lines[i], ',');
    assert IsIndianAirport(parts);
    assert r == Location(parts[13], Without(parts[3], '"'), parts[4], parts[5], Airport);
  }

  /** Every line that passes the airport filter yields an airport record. */
  lemma AirportLinesKept(csv: string, i: nat)
    requires i < |Split(csv, '\n')| && IsIndianAirport(Split(Split(csv, '\n')[i], ','))
    ensures AirportRow(Split(csv, '\n')[i]).value in AirportRecords(csv)
  {
    KeepInOrder(Split(csv, '\n'), AirportRow);
  }

  /** No railway record comes from the header line: each one comes from a
      line at index 1 or later that passes the filter, with its code equal
      to field 0 (non-empty) and its name equal to field 1. */
  lemma RailwayRecordFiltered(csv: string, k: nat)
    requires k < |RailwayRecords(csv)|
    ensures var r := RailwayRecords(csv)[k];
      && r.kind == Railway && r.code != ""
      && exists i :: 1 <= i < |Split(csv, '\n')| &&
           var parts := Split(Split(csv, '\n')[i], ',');
           IsStation(parts) && r.code == parts[0] && r.name == parts[1]
  {
    var lines := Split(csv, '\n');
    var body := lines[1..];
    KeepInOrder(body, RailwayRow);
    var r := RailwayRecords(csv)[k];
    assert r in RailwayRecords(csv);
    var i :| 0 <= i < |body| && RailwayRow(body[i]) == Some(r);
    assert body[i] == lines[i + 1];
    var parts := Split(lines[i + 1], ',');
    assert IsStation(parts);
    assert r == Location(parts[0], parts[1], parts[5], parts[6], Railway);
  }

  // ---------------------------------------------------------------------
  // allLocationData and the code index
  // ---------------------------------------------------------------------

  /** `allLocationData`: the airport records, then the railway records. */
  function AllLocationData(airports: string, railways: string): seq<Location> {
    AirportRecords(airports) + RailwayRecords(railways)
  }

  /** In `allLocationData` every airport comes before every railway
      station: a record is an airport exactly when it lies in the first
      part. */
  lemma AirportsFirst(airports: string, railways: string)
    ensures var all := AllLocationData(airports, railways);
      forall k :: 0 <= k < |all| ==> (all[k].kind == Airport <==> k < |AirportRecords(airports)|)
  {
    var all := AllLocationData(airports, railways);
    var n := |AirportRecords(airports)|;
    forall k | 0 <= k < |all|
      ensures all[k].kind == Airport <==> k < n
    {
      if k < n {
        AirportRecordFiltered(airports, k);
      } else {
        RailwayRecordFiltered(railways, k - n);
      }
    }
  }

  /** The map the `reduce` leaves: each record, in order, stored under its
      code, so a later record replaces an earlier one with the same code. */
  function CodeIndex(all: seq<Location>): (m: map<string, Location>)
    ensures forall k :: k in m <==> exists i :: 0 <= i < |all| && all[i].code == k
    ensures forall k :: k in m ==> m[k].code == k
    ensures forall k :: k in m ==> m[k] in all
  {
    if all == [] then map[]
    else
      var init := all[..|all| - 1];
      var m := CodeIndex(init);
      assert forall i :: 0 <= i < |init| ==> init[i] == all[i];
      m[all[|all| - 1].code := all[|all| - 1]]
  }

  /** For a duplicated code the last record with that code wins. */
  lemma {:induction false} LastRecordWins(all: seq<Location>, i: nat)
    requires i < |all|
    requires forall j :: i < j < |all| ==> all[j].code != all[i].code
    ensures CodeIndex(all)[all[i].code] == all[i]
  {
    if i < |all| - 1 {
      var init := all[..|all| - 1];
      LastRecordWins(init, i);
    }
  }

  /** The `reduce`: one pass over the records, writing `acc[loc.code] = loc`. */
  method BuildCodeIndex(all: seq<Location>) returns (acc: map<string, Location>)
    ensures acc == CodeIndex(all)
  {
    acc := map[];
    for i := 0 to |all|
      invariant acc == CodeIndex(all[..i])
    {
      acc := acc[all[i].code := all[i]];
      assert all[..i + 1][..i] == all[..i];
    }
    assert all[..|all|] == all;
  }
}
