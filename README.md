# Travel-sample back end: a Dafny model of the storage layer and the token gate

This project models the core of the Couchbase travel-sample back end written in
Ruby: the `Storage` class, which turns each request into database operations and
shapes their results, and the `Auth` mixin, which issues and checks bearer
tokens. The model covers every operation of both:

- **Airport search** (`get_airports`). The case and length of the search term
  select an exact FAA code, an exact ICAO code, or a name prefix. Each result
  row becomes `{airportname}`.
- **Flight-path search** (`get_flightpaths`, `convdate`). The rows of the
  name-to-code query resolve the two airport codes, with the last row winning.
  The departure date becomes its weekday. Both parameterise the route query.
- **Hotel search** (`get_hotels`, `extract_hotel_search_results`). The query is
  a full-text conjunction: the term "hotel", plus one disjunction of
  phrase matches per active filter. Each hit becomes a record. Its address is
  the present parts among address, city, state and country, joined by ", ".
- **Users and bookings per tenant** (`get_user`, `save_user`,
  `get_user_flights`, `update_user_flights`). Each tenant ("agent") owns a
  `users` and a `bookings` collection.
  - Logging in compares the stored password.
  - Signing up is an atomic insert.
  - Listing resolves the user's booking ids in order.
  - Adding a booking writes the first flight under a new id, then appends that
    id to the user's list.
- **Tokens** (`genToken`, `authenticated?`). A token carries the user name
  as its only claim. A request header is checked by decoding its second
  whitespace-separated field.

Each module's specification functions state what its operation returns and
what new state it leaves. The imperative parts are methods proved against
those functions:
- the loops that push result rows;
- the loop that resolves airport codes;
- the loops that assemble hotel records;
- the `Store` class that updates tenants' collections in place.

Lemmas state the properties the code relies on or promises:
- the three query shapes of airport search, and case-insensitive code search;
- that the last row wins when resolving codes;
- that weekdays advance daily and repeat every 400 years;
- the logical meaning of the hotel query, and how addresses are assembled;
- token round trips, rejection of a foreign secret, and that a token
  authenticates its own user and nobody else;
- the outcomes of each tenant operation, including the order of token
  checking;
- a booking-integrity invariant, which adding a booking keeps;
- that listing after adding appends the new flight;
- the orphan booking left when the user is missing.

Database queries are not executed in the model. Their result rows or hit
documents are inputs. The random booking id is a parameter.

Files:
- `common.dfy`: JSON values, rows, the response envelope, and the four
  domain errors.
- `text.dfy`: Ruby's whitespace `split`, `join`, ASCII case mapping, and
  `Integer#to_s`.
- `calendar.dfy`: the weekday of a date.
- `airports.dfy`, `flightpaths.dfy`, `hotels.dfy`: the three search
  operations.
- `auth.dfy`: the token codec and the header check.
- `accounts.dfy`: per-tenant users and bookings, and the `Store` class.

## Model

| member | source | states |
|---|---|---|
| Text.WordsAreWords | auth.rb:16 | `split(" ")` never yields an empty field or a field containing whitespace |
| Text.WordsCons | auth.rb:16 | leading whitespace is skipped; a word that ends at whitespace or at the end of the string is the first field, followed by the fields of the rest |
| Text.SchemeAndToken | auth.rb:16 | `"<scheme> <token>"` splits into exactly `[scheme, token]` |
| Text.WordsOfSpace | auth.rb:16 | a string of only whitespace has no fields, so it has no second field |
| Text.JoinSnoc | storage.rb:136 | `join` places the separator between consecutive parts only, with nothing before the first or after the last |
| Text.JoinLength | storage.rb:243 | the joined string is the parts plus exactly one separator between each two |
| Text.CaseMapsAbsorb | storage.rb:37 | upcase after downcase is upcase and vice versa; each mapping is idempotent |
| Text.CaselessFixed | storage.rb:37 | a term without letters is unchanged by both case mappings |
| Text.NatToString | storage.rb:194 | `rows.length.to_s` is a non-empty digit string with no leading zero |
| Text.ParseNatToString | storage.rb:194 | reading the rendered count back gives the count, so the rendering is injective |
| Calendar.Weekday | storage.rb:224-227 | `convdate` yields a weekday number from 0 (Sunday) to 6 |
| Calendar.NextDay | storage.rb:224-227 | the day after a valid date is a valid date |
| Calendar.NextDayNumber | storage.rb:224-227 | consecutive dates have consecutive day numbers, across month and year ends, in leap and common years |
| Calendar.YearLength | storage.rb:224-227 | a year has 366 days exactly when it is a Gregorian leap year, and 365 otherwise |
| Calendar.NextWeekday | storage.rb:224-227 | the weekday advances by one each day, with Saturday (6) followed by Sunday (0) |
| Calendar.WeekdayPeriod | storage.rb:224-227 | the same date 400 years later is valid and falls on the same weekday |
| Calendar.KnownWeekdays | storage.rb:224-227 | 1 January 1970 is a Thursday (4) and 1 January 2000 a Saturday (6) |
| Airports.Entry | storage.rb:55 | each pushed entry has exactly the key `airportname` |
| Airports.GetAirports | storage.rb:32-59 | a single-case term of length 3 gets the `faa=?` condition, and one of length 4 the `icao=?` condition, both with the upcased term as argument; any other term gets the name-prefix condition with the downcased term; the context is the query type, a space, and the grown statement; the data holds one entry per row, in row order, carrying the row's airport name or nil |
| Airports.CodeSearchIgnoresCase | storage.rb:37-43 | a code-shaped term, its upcased form and its downcased form send the same query, whose argument is upper case |
| Airports.NameSearchLowerCase | storage.rb:44-47 | a name search uses the name condition with a lower-case argument; for lengths other than 3 and 4 a term and its downcased form search alike |
| Airports.DigitsSearchAsCode | storage.rb:37-43 | a 3- or 4-character term without letters counts as single-case, so it is a code lookup with the term unchanged |
| Airports.Examples | storage.rb:37-47 | "lax" is FAA code "LAX"; "KLAX" is an ICAO code; "Lax" is a name search for "lax" |
| FlightPaths.NoRowKeepsDefault | storage.rb:74-81 | if no row carries the key, the resolved code stays `''` |
| FlightPaths.LastRowWins | storage.rb:74-81 | the last row carrying the key decides the resolved code |
| FlightPaths.ResolveCodes | storage.rb:74-81 | the loop leaves each code as the value of the last row that carries it, or `''` |
| FlightPaths.GetFlightPaths | storage.rb:61-104 | the code query takes `[from, to]`; the route query's `from_faa`, `to_faa` and `day` are the resolved codes and the departure date's weekday; the context holds both statements in order; the data is the route rows |
| FlightPaths.UnresolvedNamesGiveEmptyCodes | storage.rb:74-93 | names that resolve to no code leave both route parameters `''` |
| Hotels.HotelQueryShape | storage.rb:109-133 | the conjunction starts with the term "hotel"; it has one more part per active filter; the location part comes before the description part |
| Hotels.AnyHotel | storage.rb:111-115 | with both filters "*" or empty, the query is the term "hotel" alone |
| Hotels.HotelQueryMeaning | storage.rb:109-133 | a document matches exactly when it is a hotel, has the location phrase in country, city, state or address (if that filter is active), and has the description phrase in the description or the name (if that filter is active) |
| Hotels.Present | storage.rb:242 | at most one value per field; nothing when the document has none of the fields |
| Hotels.PresentSnoc | storage.rb:242 | one more field adds that field's value at the end when the document has it, and nothing otherwise |
| Hotels.AddressPartsOf | storage.rb:242 | the address parts are the present values among address, city, state and country, in that order |
| Hotels.ExtractHotelSearchResults | storage.rb:229-256 | one record per hit, in hit order; each has the joined address, plus the name and the description when the document has them |
| Hotels.GetHotels | storage.rb:106-142 | the request uses index "hotels-index", the built query and a limit of 100; the context names the scope and the joined columns; the data holds the records of the hits |
| Hotels.ColumnsJoined | storage.rb:136 | the column list joins to "address,city,state,country,name,description" |
| Hotels.NoAddressParts | storage.rb:241-244 | with no address field, the address is empty |
| Hotels.AllAddressParts | storage.rb:241-244 | with all four address fields, the address is "address, city, state, country" |
| Hotels.MissingPartsSkipped | storage.rb:241-244 | absent parts leave no empty slot: with only city and country the address is "city, country" |
| Auth.Escape | auth.rb:11 | the payload encoding never emits whitespace or '.', so a token stays one field with its first '.' at the end of the payload |
| Auth.UnescapeEscape | auth.rb:11 | decoding the escape encoding gives back the claim text |
| Auth.DecodeEncodeClaims | auth.rb:11 | the payload decodes to the claims it encodes |
| Auth.Encode | auth.rb:11 | a token is non-empty and contains no whitespace |
| Auth.FirstDot | auth.rb:17 | returns the position of the first '.' if there is one |
| Auth.Decode | auth.rb:17 | a token decodes only if it is some payload, a '.', and the secret's signature of that payload |
| Auth.DecodeEncode | auth.rb:11-17 | a token decodes, under the secret that signed it, to its claims |
| Auth.WrongSecretRejected | auth.rb:17 | verification fails for a token signed with any other secret |
| Auth.GenToken | auth.rb:9-12 | the issued token has no whitespace, and decodes under `JWT_SECRET` to the claim `user` = the user name |
| Auth.GenTokenInjective | auth.rb:9-12 | different user names get different tokens |
| Auth.HeaderToken | auth.rb:16 | with any leading, separating or trailing whitespace, the second field of `"<scheme> <token>"` is the token |
| Auth.HeaderDecides | auth.rb:16-17 | the check depends only on decoding the second field |
| Auth.GenTokenAuthenticates | auth.rb:9-18 | a header carrying the token issued for `u` passes for `v` exactly when `u == v` (case-sensitive) |
| Auth.SchemeOnlyRaises | auth.rb:16-17 | a header holding only the scheme word raises; it never answers false |
| Auth.ForeignTokenRaises | auth.rb:17 | a token signed with another secret raises a verification failure; it never answers false |
| Accounts.Resolve | storage.rb:184-189 | booking ids resolve exactly when every id has a document; the documents come in id order |
| Accounts.LoginOutcomes | storage.rb:144-157 | login fails with UserNotFound exactly when the user is missing, and with PasswordMismatch exactly when the password differs; otherwise it succeeds with `{token}` holding the token issued for the user, which authenticates this user and nobody else |
| Accounts.SignUpEffect | storage.rb:159-171 | sign-up fails with UserAlreadyExists, and changes nothing, exactly when the name is taken; otherwise it adds exactly `{username, password}` under the name; bookings are untouched either way |
| Accounts.SignUpThenLogin | storage.rb:144-171 | after sign-up, the same credentials log in with the same token, and any other password is refused |
| Accounts.SignUpTwice | storage.rb:163-166 | a second sign-up under the same name fails and changes nothing |
| Accounts.ListChecksTokenFirst | storage.rb:178 | when the token check does not pass, the outcome does not depend on the data: InvalidUserToken for a wrong user, the library's exception for a bad token |
| Accounts.ListOutcomes | storage.rb:173-197 | with a passing token: a missing user gives UserNotFound; a user without the field gets an empty list; otherwise the list holds the booking documents in id order, or is UserNotFound exactly when some id dangles; the context reports the count |
| Accounts.ListResolves | storage.rb:180-195 | for a known user with a passing token, listing succeeds exactly when the user's ids resolve, and returns their documents |
| Accounts.ListWithIntegrity | storage.rb:180-192 | when every stored id has a document, a known user with a valid token always gets a list |
| Accounts.ListContextCounts | storage.rb:194 | two listing contexts are equal exactly when their counts are |
| Accounts.AddWritesFirstFlight | storage.rb:204-209 | without a passing token nothing is written, a rejected token fails with InvalidUserToken and the library's exception passes through; with one, exactly the first flight (or nil) is written under the new id, and the reply lists it as added |
| Accounts.AddAppendsId | storage.rb:211-213 | a successful add appends the id at the end of the user's list (created if absent) and keeps the rest of the user document (name, password) and every other user as they were |
| Accounts.AddKeepsIntegrity | storage.rb:199-220 | adding a booking keeps every stored id pointing at a document, whether or not the add succeeds |
| Accounts.SignUpKeepsIntegrity | storage.rb:159-171 | signing up keeps every stored id pointing at a document |
| Accounts.AddThenList | storage.rb:173-220 | adding a booking under a fresh id and then listing gives the earlier list with the new flight at its end |
| Accounts.ResolveSnoc | storage.rb:187-189 | resolving one more id that has a document appends that document |
| Accounts.ResolveFresh | storage.rb:209 | writing under an id not yet used leaves the resolution of the existing ids unchanged |
| Accounts.MissingUserLeavesOrphan | storage.rb:206-215 | for a missing user the outcome is UserNotFound, yet the booking has already been written; under integrity and with a fresh id, no user refers to it |
| Accounts.Store.GetUser | storage.rb:144-157 | returns the login outcome of the tenant's users, with `{token}` as data on success, and changes nothing |
| Accounts.Store.SaveUser | storage.rb:159-171 | the outcome and the tenant's new collections are those of sign-up; other tenants are unchanged; integrity is preserved |
| Accounts.Store.GetUserFlights | storage.rb:173-197 | fetching the booking documents one id at a time gives the listing outcome, stopping with UserNotFound at the first dangling id; in a valid store a known user with a passing token always gets a list |
| Accounts.Store.UpdateUserFlights | storage.rb:199-220 | the two writes, the booking upsert and then the append, give the outcome and the new collections of adding a booking; other tenants are unchanged; integrity is preserved |
| Accounts.SameNameInTwoTenants | storage.rb:159-171 | the same name signs up independently in two tenants |

## Left out

- Routing and status codes are not part of this model; the HTTP layer is in
  `travel.rb`. Only its lower-casing of tenant and user names is kept, as the
  `Downcase(x) == x` preconditions of the `Store` methods. The layer's own
  "No token provided" reply for a missing header is also left out: a header is
  always a string here.
- `Storage#initialize`: configuration and the cluster connection. The `Store`
  constructor starts from a fixed set of empty tenants. A tenant that does not
  exist is excluded by the precondition `agent in tenants`.
- Executing N1QL and full-text queries. Query rows, hit documents and stored
  documents are inputs, and the model does not state what the database would
  return. Hits are given in hit order.
- The synthetic `flighttime` and `price` fields added to each route row. They
  come from `rand` and floating-point arithmetic.
- FlightPaths.GetFlightPaths: states that the data is the route rows
  unchanged, without the two random fields, because those come from `rand`
  and floating-point arithmetic.
- `SecureRandom.uuid`: the booking id is a parameter of
  `UpdateUserFlights`. Its freshness is a hypothesis of `AddThenList` and
  `MissingUserLeavesOrphan` only. The upsert overwrites an existing document.
- HS256 signing and the JSON web token format. Tokens use a stand-in codec
  with the same observable behaviour:
  - the token is one field without whitespace;
  - it decodes to its claims under its own secret;
  - verification fails under any other secret;
  - a missing or unparsable token fails.

  Its signature is not a cryptographic hash. Option handling of ruby-jwt
  (algorithm lists, expiry) plays no part here, because the code sets none.
- Auth.Decode: does not model the base64url segments or the header segment
  of a real token, because signing is a stand-in codec.
- Parsing of the `mm/dd/YYYY` string by `Time.strptime`, including its
  leniency and its errors. The date is taken already split, and is required to
  be a real date. Weekdays use the proleptic Gregorian calendar, which agrees
  with Ruby's `Time` for all dates the application handles.
- Unicode case mapping: `downcase` and `upcase` are modelled for ASCII letters
  only, and other characters are unchanged. Ruby maps the whole of Unicode.
- Text.Downcase: agrees with Ruby's `downcase` on ASCII text only, because
  the model maps ASCII letters only.
- Non-string hotel field values, and a hit whose document is missing. Hotel
  documents map field names to strings, and an absent field reads as nil.
- Concurrency: the model does not cover requests interleaving, or the
  atomicity of the array append against concurrent writers.
- `flights` is taken to be a JSON array, whose first element (or nil) is
  written. Ruby applies its own `[]` to other values: it raises for nil, a
  boolean or a float; a string gives its first character, an integer its
  bit 0, and an object nil, and that value is then written and reported as
  added.
- Floating-point JSON numbers, such as the price inside a booking payload.
  `Common.Json` numbers are integers only. Payloads are written and read back
  unchanged, so nothing the store computes depends on them.
- Stored `bookings` values other than a list of string ids. `UserDoc.bookings`
  holds a list of string ids or is absent. In Ruby, listing iterates any other
  value with its own `each`. An object is iterated as key/value pairs, which
  are passed to the document fetch; `{}` lists nothing. Adding a booking
  extends the field with the database's `array_append`, whose result on a
  non-array the model does not describe.
- Error messages: `Common.Message` lists the default message of each of the
  four error classes, but outcomes carry the error alone; turning an error
  into a message and a status code happens in the HTTP layer. The messages of
  the library's own exceptions are not modelled.
