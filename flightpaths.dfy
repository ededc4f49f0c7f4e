/** Flight-path search glue: the first query's rows resolve the two airport
    names to codes, and the departure date becomes a weekday number; both feed
    the named parameters of the route query. Running the queries is not
    modelled: their rows are inputs. */
module FlightPaths {
  import opened Common
  import Calendar

  const QueryType := "N1QL query - scoped to inventory: "
  const CodeQuery := "SELECT faa as fromAirport FROM `travel-sample`.inventory.airport "
    + "WHERE airportname = $1 "
    + "UNION SELECT faa as toAirport FROM `travel-sample`.inventory.airport "
    + "WHERE airportname = $2"
  const RouteQuery := "SELECT a.name, s.flight, s.utc, r.sourceairport, r.destinationairport, r.equipment "
    + "FROM `travel-sample`.inventory.route AS r "
    + "UNNEST r.schedule AS s "
    + "JOIN `travel-sample`.inventory.airline AS a ON KEYS r.airlineid "
    + "WHERE r.sourceairport = $from_faa AND r.destinationairport = $to_faa AND s.day = $day "
    + "ORDER BY a.name ASC "

  /** The route query's named parameters `from_faa`, `to_faa` and `day`. */
  datatype RouteParams = RouteParams(fromFaa: Json, toFaa: Json, day: int)

  /** The value of `key` in the last row that has it, or `default` when no
      row has it: what a loop overwriting one variable per such row leaves. */
  function LastValue(rows: seq<Row>, key: string, default: Json): Json
  {
    if rows == [] then default
    else if key in rows[|rows| - 1] then rows[|rows| - 1][key]
    else LastValue(rows[..|rows| - 1], key, default)
  }

  /** With no row carrying the key, the value is the default. */
  lemma {:induction false} NoRowKeepsDefault(rows: seq<Row>, key: string, default: Json)
    requires forall k :: 0 <= k < |rows| ==> key !in rows[k]
    ensures LastValue(rows, key, default) == default
  {
    if rows != [] {
      var init := rows[..|rows| - 1];
      assert forall k :: 0 <= k < |init| ==> init[k] == rows[k];
      NoRowKeepsDefault(init, key, default);
    }
  }

  /** The last row carrying the key decides the value. */
  lemma {:induction false} LastRowWins(rows: seq<Row>, key: string, default: Json, j: int)
    requires 0 <= j < |rows| && key in rows[j]
    requires forall k :: j < k < |rows| ==> key !in rows[k]
    ensures LastValue(rows, key, default) == rows[j][key]
  {
    var n := |rows| - 1;
    if j < n {
      var init := rows[..n];
      assert init[j] == rows[j];
      assert forall k :: j < k < n ==> init[k] == rows[k];
      LastRowWins(init, key, default, j);
    }
  }

  /** The loop of `get_flightpaths` over the code rows: both codes start as
      '' and every row carrying `fromAirport` (`toAirport`) overwrites the
      first (second). */
  method ResolveCodes(rows: seq<Row>) returns (fromAirport: Json, toAirport: Json)
    ensures fromAirport == LastValue(rows, "fromAirport", JStr(""))
    ensures toAirport == LastValue(rows, "toAirport", JStr(""))
  {
    fromAirport, toAirport := JStr(""), JStr("");
    for i := 0 to |rows|
      invariant fromAirport == LastValue(rows[..i], "fromAirport", JStr(""))
      invariant toAirport == LastValue(rows[..i], "toAirport", JStr(""))
    {
      assert rows[..i + 1][..i] == rows[..i];
      if "fromAirport" in rows[i] {
        fromAirport := rows[i]["fromAirport"];
      }
      if "toAirport" in rows[i] {
        toAirport := rows[i]["toAirport"];
      }
    }
    assert rows[..|rows|] == rows;
  }

  /** `get_flightpaths`: the code query's arguments are the two names; the
      route query is parameterised by the resolved codes and the weekday of
      the departure date; the context lists both statements. */
  method GetFlightPaths(from: string, to: string, leave: Calendar.Date, codeRows: seq<Row>, routeRows: seq<Row>)
    returns (codeArgs: seq<string>, params: RouteParams, result: Envelope<seq<Row>>)
    requires Calendar.ValidDate(leave)
    ensures codeArgs == [from, to]
    ensures params.fromFaa == LastValue(codeRows, "fromAirport", JStr(""))
    ensures params.toFaa == LastValue(codeRows, "toAirport", JStr(""))
    ensures params.day == Calendar.Weekday(leave) && 0 <= params.day <= 6
    ensures result.context == [QueryType + "\n " + CodeQuery, QueryType + "\n " + RouteQuery]
    ensures result.data == routeRows
  {
    var context := [QueryType + "\n " + CodeQuery];
    codeArgs := [from, to];
    var fromAirport, toAirport := ResolveCodes(codeRows);
    context := context + [QueryType + "\n " + RouteQuery];
    params := RouteParams(fromAirport, toAirport, Calendar.Weekday(leave));
    result := Envelope(context, routeRows);
  }

  /** When the names resolve to nothing, both codes stay '' and the route
      query is sent with empty airport codes rather than failing. */
  lemma UnresolvedNamesGiveEmptyCodes(codeRows: seq<Row>)
    requires forall k :: 0 <= k < |codeRows| ==> "fromAirport" !in codeRows[k] && "toAirport" !in codeRows[k]
    ensures LastValue(codeRows, "fromAirport", JStr("")) == JStr("")
    ensures LastValue(codeRows, "toAirport", JStr("")) == JStr("")
  {
    NoRowKeepsDefault(codeRows, "fromAirport", JStr(""));
    NoRowKeepsDefault(codeRows, "toAirport", JStr(""));
  }
}
