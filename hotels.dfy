/** Hotel search: a full-text query tree built from a description filter and a
    location filter, and the reshaping of each hit's sub-document fields into
    a result record. Running the search is not modelled: the documents of its
    hits, in hit order, are an input. */
module Hotels {
  import opened Common
  import opened Text

  /** A full-text query as a tree. */
  datatype SearchQuery =
    | Term(term: string)
    | MatchPhrase(field: string, phrase: string)
    | Conj(parts: seq<SearchQuery>)
    | Disj(parts: seq<SearchQuery>)

  /** The search request: index, query and result cap. */
  datatype Search = Search(index: string, query: SearchQuery, limit: nat)

  /** The fields looked up for each hit, in this order; the first four make
      up the address. */
  const SearchCols: seq<string> := ["address", "city", "state", "country", "name", "description"]
  const LocationFields: seq<string> := ["country", "city", "state", "address"]
  const DescriptionFields: seq<string> := ["description", "name"]
  const ContextPrefix := "FTS search - scoped to: inventory.hotel within fields "
  /** The column names joined by ",". */
  const JoinedCols := "address" + "," + "city" + "," + "state" + "," + "country" + "," + "name" + "," + "description"

  /** A filter takes part in the query unless it is "*" or empty. */
  predicate Active(filter: string)
  {
    filter != "*" && filter != ""
  }

  function PhraseOver(fields: seq<string>, text: string): (qs: seq<SearchQuery>)
    ensures |qs| == |fields|
    ensures forall i :: 0 <= i < |fields| ==> qs[i] == MatchPhrase(fields[i], text)
  {
    seq(|fields|, i requires 0 <= i < |fields| => MatchPhrase(fields[i], text))
  }

  /** The conjunction `get_hotels` builds: the term "hotel", then the location
      disjunction if that filter is active, then the description disjunction
      if that one is. */
  function HotelQuery(description: string, location: string): SearchQuery
  {
    Conj([Term("hotel")]
      + (if Active(location) then [Disj(PhraseOver(LocationFields, location))] else [])
      + (if Active(description) then [Disj(PhraseOver(DescriptionFields, description))] else []))
  }

  /** What a query tree requires of a document, given which leaves it
      satisfies: a conjunction needs all its parts, a disjunction one. */
  function Eval(q: SearchQuery, holds: SearchQuery -> bool): bool
  {
    match q
    case Term(_) => holds(q)
    case MatchPhrase(_, _) => holds(q)
    case Conj(parts) => forall i :: 0 <= i < |parts| ==> Eval(parts[i], holds)
    case Disj(parts) => exists i :: 0 <= i < |parts| && Eval(parts[i], holds)
  }

  /** The shape of the built query: "hotel" first, one part per active filter,
      location before description. */
  lemma HotelQueryShape(description: string, location: string)
    ensures HotelQuery(description, location).Conj?
    ensures var parts := HotelQuery(description, location).parts;
      && |parts| == 1 + (if Active(location) then 1 else 0) + (if Active(description) then 1 else 0)
      && parts[0] == Term("hotel")
      && (Active(location) ==> parts[1] == Disj(PhraseOver(LocationFields, location)))
      && (Active(description) ==> parts[|parts| - 1] == Disj(PhraseOver(DescriptionFields, description)))
  {
  }

  /** Filters "*" (or empty) on both sides give the category-only query. */
  lemma AnyHotel(description: string, location: string)
    requires !Active(description) && !Active(location)
    ensures HotelQuery(description, location) == Conj([Term("hotel")])
  {
  }

  /** A document matches the built query exactly when it matches "hotel",
      matches the location phrase in one of country, city, state, address
      when that filter is active, and matches the description phrase in the
      description or the name when that filter is active. */
  lemma {:induction false} HotelQueryMeaning(description: string, location: string, holds: SearchQuery -> bool)
    ensures Eval(HotelQuery(description, location), holds) <==>
      && holds(Term("hotel"))
      && (Active(location) ==> exists i :: 0 <= i < |LocationFields| && holds(MatchPhrase(LocationFields[i], location)))
      && (Active(description) ==> exists i :: 0 <= i < |DescriptionFields| && holds(MatchPhrase(DescriptionFields[i], description)))
  {
    var parts := HotelQuery(description, location).parts;
    HotelQueryShape(description, location);
    var loc := Disj(PhraseOver(LocationFields, location));
    var desc := Disj(PhraseOver(DescriptionFields, description));
    assert Eval(loc, holds) <==> exists i :: 0 <= i < |LocationFields| && holds(MatchPhrase(LocationFields[i], location)) by {
      assert forall i :: 0 <= i < |LocationFields| ==> Eval(loc.parts[i], holds) == holds(MatchPhrase(LocationFields[i], location));
    }
    assert Eval(desc, holds) <==> exists i :: 0 <= i < |DescriptionFields| && holds(MatchPhrase(DescriptionFields[i], description)) by {
      assert forall i :: 0 <= i < |DescriptionFields| ==> Eval(desc.parts[i], holds) == holds(MatchPhrase(DescriptionFields[i], description));
    }
    assert Eval(parts[0], holds) == holds(Term("hotel"));
    if Active(location) && Active(description) {
      assert parts == [Term("hotel"), loc, desc];
    } else if Active(location) {
      assert parts == [Term("hotel"), loc];
    } else if Active(description) {
      assert parts == [Term("hotel"), desc];
    } else {
      assert parts == [Term("hotel")];
    }
  }

  /** A hotel document: the fields it has, by name. A field it lacks reads
      as nil. */
  type HotelDoc = map<string, string>

  /** One result record: the address is always there; the name and the
      description only when the document has them. */
  datatype HotelRecord = HotelRecord(address: string, name: Option<string>, description: Option<string>)

  function Lookup(doc: HotelDoc, field: string): Option<string>
  {
    if field in doc then Some(doc[field]) else None
  }

  /** The values of the given fields that the document has, in field order. */
  function Present(doc: HotelDoc, fields: seq<string>): (vs: seq<string>)
    ensures |vs| <= |fields|
    ensures (forall i :: 0 <= i < |fields| ==> fields[i] !in doc) ==> vs == []
  {
    if fields == [] then []
    else
      var last := fields[|fields| - 1];
      Present(doc, fields[..|fields| - 1]) + (if last in doc then [doc[last]] else [])
  }

  lemma PresentSnoc(doc: HotelDoc, fields: seq<string>, f: string)
    ensures Present(doc, fields + [f]) == Present(doc, fields) + (if f in doc then [doc[f]] else [])
  {
    assert (fields + [f])[..|fields|] == fields;
  }

  /** The present address parts, field by field. */
  lemma AddressPartsOf(doc: HotelDoc)
    ensures Present(doc, SearchCols[..4])
      == (if "address" in doc then [doc["address"]] else [])
       + (if "city" in doc then [doc["city"]] else [])
       + (if "state" in doc then [doc["state"]] else [])
       + (if "country" in doc then [doc["country"]] else [])
  {
    var c0: seq<string> := [];
    var c1 := c0 + ["address"];
    var c2 := c1 + ["city"];
    var c3 := c2 + ["state"];
    var c4 := c3 + ["country"];
    PresentSnoc(doc, c0, "address");
    PresentSnoc(doc, c1, "city");
    PresentSnoc(doc, c2, "state");
    PresentSnoc(doc, c3, "country");
    assert c4 == SearchCols[..4];
  }

  /** The record a hit yields: the present address parts joined by ", ". */
  function RecordOf(doc: HotelDoc): HotelRecord
  {
    HotelRecord(Join(Present(doc, SearchCols[..4]), ", "), Lookup(doc, "name"), Lookup(doc, "description"))
  }

  /** `extract_hotel_search_results`: one record per hit, in hit order. The
      address parts are collected by a loop over the first four columns; the
      name and description are set by a loop that runs twice and whose second
      pass changes nothing. */
  method ExtractHotelSearchResults(docs: seq<HotelDoc>) returns (records: seq<HotelRecord>)
    ensures |records| == |docs|
    ensures forall k :: 0 <= k < |docs| ==> records[k] == RecordOf(docs[k])
  {
    records := [];
    for k := 0 to |docs|
      invariant |records| == k
      invariant forall j :: 0 <= j < k ==> records[j] == RecordOf(docs[j])
    {
      var doc := docs[k];
      var addressValues: seq<string> := [];
      for i := 0 to 4
        invariant addressValues == Present(doc, SearchCols[..i])
      {
        assert SearchCols[..i + 1][..i] == SearchCols[..i];
        if SearchCols[i] in doc {
          addressValues := addressValues + [doc[SearchCols[i]]];
        }
      }
      var address := Join(addressValues, ", ");
      var name: Option<string> := None;
      var description: Option<string> := None;
      for pass := 0 to 2
        invariant pass == 0 ==> name == None && description == None
        invariant pass > 0 ==> name == Lookup(doc, "name") && description == Lookup(doc, "description")
      {
        if SearchCols[5] in doc {
          description := Some(doc[SearchCols[5]]);
        }
        if SearchCols[4] in doc {
          name := Some(doc[SearchCols[4]]);
        }
      }
      records := records + [HotelRecord(address, name, description)];
    }
  }

  /** `get_hotels`: the search request (index "hotels-index", at most 100
      hits) and the records of its hits. */
  method GetHotels(description: string, location: string, docs: seq<HotelDoc>)
    returns (search: Search, result: Envelope<seq<HotelRecord>>)
    ensures search == Search("hotels-index", HotelQuery(description, location), 100)
    ensures result.context == [ContextPrefix + JoinedCols]
    ensures |result.data| == |docs|
    ensures forall k :: 0 <= k < |docs| ==> result.data[k] == RecordOf(docs[k])
  {
    var parts := [Term("hotel")];
    if location != "*" && location != "" {
      parts := parts + [Disj(PhraseOver(LocationFields, location))];
    }
    if description != "*" && description != "" {
      parts := parts + [Disj(PhraseOver(DescriptionFields, description))];
    }
    search := Search("hotels-index", Conj(parts), 100);
    assert search.query == HotelQuery(description, location);
    var fields := Join(SearchCols, ",");
    ColumnsJoined();
    var context := ContextPrefix + fields;
    var data := ExtractHotelSearchResults(docs);
    result := Envelope([context], data);
  }

  /** The column list as the context names it. */
  lemma ColumnsJoined()
    ensures Join(SearchCols, ",") == JoinedCols
  {
    var c1: seq<string> := ["address"];
    var c2 := c1 + ["city"];
    var c3 := c2 + ["state"];
    var c4 := c3 + ["country"];
    var c5 := c4 + ["name"];
    var c6 := c5 + ["description"];
    JoinSnoc(c1, "city", ",");
    JoinSnoc(c2, "state", ",");
    JoinSnoc(c3, "country", ",");
    JoinSnoc(c4, "name", ",");
    JoinSnoc(c5, "description", ",");
    assert c6 == SearchCols;
  }

  /** A hit with none of the four address fields gets the empty address. */
  lemma {:induction false} NoAddressParts(doc: HotelDoc)
    requires "address" !in doc && "city" !in doc && "state" !in doc && "country" !in doc
    ensures RecordOf(doc).address == ""
  {
    AddressPartsOf(doc);
  }

  /** With all four address fields, the address lists them in the order
      address, city, state, country, separated by ", ". */
  lemma {:induction false} AllAddressParts(doc: HotelDoc)
    requires "address" in doc && "city" in doc && "state" in doc && "country" in doc
    ensures RecordOf(doc).address
      == doc["address"] + ", " + doc["city"] + ", " + doc["state"] + ", " + doc["country"]
  {
    AddressPartsOf(doc);
    var parts := [doc["address"], doc["city"], doc["state"], doc["country"]];
    assert Present(doc, SearchCols[..4]) == parts;
    assert Join(parts[3..], ", ") == doc["country"];
    assert parts[2..][1..] == parts[3..];
    assert Join(parts[2..], ", ") == doc["state"] + ", " + doc["country"];
    assert parts[1..][1..] == parts[2..];
    assert Join(parts[1..], ", ") == doc["city"] + ", " + doc["state"] + ", " + doc["country"];
  }

  /** An absent part is skipped without leaving an empty slot: with only the
      city and the country, the address is "city, country". */
  lemma {:induction false} MissingPartsSkipped(doc: HotelDoc)
    requires "address" !in doc && "city" in doc && "state" !in doc && "country" in doc
    ensures RecordOf(doc).address == doc["city"] + ", " + doc["country"]
  {
    AddressPartsOf(doc);
    var parts := [doc["city"], doc["country"]];
    assert Present(doc, SearchCols[..4]) == parts;
    assert parts[1..] == [doc["country"]];
    assert Join(parts[1..], ", ") == doc["country"];
  }
}
