/** Airport search: the search term's case and length choose one of three
    parameterised query shapes (exact FAA code, exact ICAO code, or a name that
    starts with the term), and each result row is reduced to its airport name.
    Running the query is not modelled: its rows are an input. */
module Airports {
  import opened Common
  import opened Text

  const QueryType := "N1QL query - scoped to inventory: "
  const SelectAirports := "SELECT airportname FROM `travel-sample`.inventory.airport WHERE "
  const FaaCondition := "faa=?"
  const IcaoCondition := "icao=?"
  const NameCondition := "POSITION(LOWER(airportname), ?) = 0"

  /** A statement with its positional arguments. */
  datatype Query = Query(statement: string, args: seq<string>)

  /** The term reads the same downcased or upcased: it has no letters of the
      other case (so a term of digits qualifies). */
  predicate SameCase(s: string)
  {
    s == Downcase(s) || s == Upcase(s)
  }

  /** The query `get_airports` sends for a search term. */
  function SearchQuery(s: string): Query
  {
    if SameCase(s) && |s| == 3 then Query(SelectAirports + FaaCondition, [Upcase(s)])
    else if SameCase(s) && |s| == 4 then Query(SelectAirports + IcaoCondition, [Upcase(s)])
    else Query(SelectAirports + NameCondition, [Downcase(s)])
  }

  /** The entry pushed for one result row: its airport name, or nil. */
  function Entry(row: Row): (e: Row)
    ensures e.Keys == {"airportname"}
  {
    map["airportname" := Get(row, "airportname")]
  }

  /** `get_airports`: grows the statement by the chosen condition, then pushes
      one entry per result row, in row order. */
  method GetAirports(search: string, rows: seq<Row>) returns (query: Query, result: Envelope<seq<Row>>)
    ensures query == SearchQuery(search)
    ensures SameCase(search) && |search| == 3 ==>
      query.statement == SelectAirports + FaaCondition && query.args == [Upcase(search)]
    ensures SameCase(search) && |search| == 4 ==>
      query.statement == SelectAirports + IcaoCondition && query.args == [Upcase(search)]
    ensures !(SameCase(search) && (|search| == 3 || |search| == 4)) ==>
      query.statement == SelectAirports + NameCondition && query.args == [Downcase(search)]
    ensures result.context == [QueryType + " " + query.statement]
    ensures |result.data| == |rows|
    ensures forall k :: 0 <= k < |rows| ==> result.data[k] == Entry(rows[k])
  {
    var statement := SelectAirports;
    var args: seq<string>;
    var sameCase := search == Downcase(search) || search == Upcase(search);
    if sameCase && |search| == 3 {
      statement := statement + FaaCondition;
      args := [Upcase(search)];
    } else if sameCase && |search| == 4 {
      statement := statement + IcaoCondition;
      args := [Upcase(search)];
    } else {
      statement := statement + NameCondition;
      args := [Downcase(search)];
    }
    query := Query(statement, args);

    var airports: seq<Row> := [];
    for i := 0 to |rows|
      invariant |airports| == i
      invariant forall k :: 0 <= k < i ==> airports[k] == Entry(rows[k])
    {
      airports := airports + [Entry(rows[i])];
    }
    result := Envelope([QueryType + " " + statement], airports);
  }

  /** A code search is case-insensitive: a three- or four-character term that
      is all one case yields the same query as its upcased and its downcased
      forms, whose argument is the upcased code. */
  lemma CodeSearchIgnoresCase(s: string)
    requires SameCase(s) && (|s| == 3 || |s| == 4)
    ensures SearchQuery(Upcase(s)) == SearchQuery(s) == SearchQuery(Downcase(s))
    ensures Upcase(SearchQuery(s).args[0]) == SearchQuery(s).args[0]
  {
    CaseMapsAbsorb(s);
    assert SameCase(Upcase(s)) && SameCase(Downcase(s));
  }

  /** A name search passes a lower-case argument; when the term's length is
      neither 3 nor 4, its downcased form sends the same query. */
  lemma NameSearchLowerCase(s: string)
    requires !(SameCase(s) && (|s| == 3 || |s| == 4))
    ensures SearchQuery(s).statement == SelectAirports + NameCondition
    ensures Downcase(SearchQuery(s).args[0]) == SearchQuery(s).args[0]
    ensures |s| != 3 && |s| != 4 ==> SearchQuery(Downcase(s)) == SearchQuery(s)
  {
    CaseMapsAbsorb(s);
  }

  /** A term with no letters, such as "123", is all one case, so at length
      3 or 4 it is searched as a code, argument unchanged. */
  lemma {:induction false} DigitsSearchAsCode(s: string)
    requires forall i :: 0 <= i < |s| ==> !IsLetter(s[i])
    requires |s| == 3 || |s| == 4
    ensures SearchQuery(s).args == [s]
    ensures SearchQuery(s).statement != SelectAirports + NameCondition
  {
    CaselessFixed(s);
    assert (SelectAirports + FaaCondition)[|SelectAirports|] == 'f';
    assert (SelectAirports + IcaoCondition)[|SelectAirports|] == 'i';
    assert (SelectAirports + NameCondition)[|SelectAirports|] == 'P';
  }

  /** "lax" is an FAA code, "KLAX" an ICAO code, while "Lax" (mixed case)
      is a name prefix, searched as "lax". */
  lemma Examples()
    ensures SearchQuery("lax") == Query(SelectAirports + FaaCondition, ["LAX"])
    ensures SearchQuery("KLAX") == Query(SelectAirports + IcaoCondition, ["KLAX"])
    ensures SearchQuery("Lax") == Query(SelectAirports + NameCondition, ["lax"])
  {
    assert Upcase("lax") == "LAX";
    assert SameCase("KLAX") by { assert Upcase("KLAX") == "KLAX"; }
    assert !SameCase("Lax") by { assert Downcase("Lax")[0] != 'L'; assert Upcase("Lax")[1] != 'a'; }
    assert Downcase("Lax") == "lax";
  }
}
