# fhdb core, modelled in Dafny

fhdb is the back end of a play-by-mail space strategy game. It holds the game's
galaxy (systems, planets, species, ships), loads it from JSON files, answers
JSON API requests about it, and authenticates players with signed bearer
tokens. This project models the parts of it with real logic:

- **Tokens** (`jwt/`). The model covers the HS256 signer, the token object
  and its time checks, and the factory that issues tokens and checks their
  signatures. It also covers the parser that reads a token from an
  `Authorization` header, and the middleware in `handlers/sessions.go` that
  admits a request and records its session.
- **Ship codes** (`store/codes.go`). These are the tables that give each
  item code its description, class, costs and tonnage.
- **The JSON store** (`store/jsondb`). Its `Read` checks and normalises
  planets and species, its handlers answer queries, and its filters select
  species.
- **The in-memory store** (`store/memory`). `Read` converts a JSON store
  into arrays and maps indexed by id. The model also covers its query
  handlers and the ordering of coordinates.
- **The loaders of package `store`** (`store/read.go`, `store/store.go`) and
  of the server's own store (`store.go`). These loaders check a decoded
  `store.json`, copy it into indexed maps and sort the lists in place with
  nested exchange loops.
- **Two pieces of `server.go`**: the jump-mishap arithmetic and the
  conversion of systems into response records.

Each module follows the Go code's form. Pure code is modelled as functions,
and the lemmas about them are stated separately. Code that updates objects
in place becomes classes with `modifies` clauses: the stores, a system's
planet list and the sort loops on arrays. Go's map iteration is modelled as
an arbitrary choice of the next key, so every stated property holds for
every iteration order. Go's 64-bit arithmetic is modelled by explicit
wrap-around where it matters (`Common.Wrap64`).

Uninterpreted primitives are parameters held in a `Primitives` value:
base64url, JSON and HMAC-SHA256. The predicate `Lawful` states the laws
they are assumed to satisfy, for example that decoding inverts encoding.
The clock is a parameter too, in nanoseconds.

Two points where the token code departs from the standards it follows:

- `jwt/factory.go:46` compares the received signature with the expected
  one using `==`. The model compares values and says nothing about
  timing, so whether the comparison is constant-time is not covered.
- `jwt/jwt.go:48` refuses a token once `nbf` is reached, which is the
  reverse of the not-before rule of section 4.1.5 of RFC 7519 (see
  Findings).

`handlers/sessions.go` checks a token's signature but never calls
`IsValid`, so expired tokens are admitted (see Findings).

## Model

| member | source | states |
|---|---|---|
| ShipCodes.TransportIsNotTabled | store/codes.go:128-219 | a code starting "TR" is in no exact-match table (no warship, no starbase, no fixed description), so it always reaches the prefix tests |
| ShipCodes.WarshipFigures | store/codes.go:224-463 | for each of the sixteen warship classes the carrying capacity is positive and the tonnage is 10,000, the FTL cost 100 and the minimum manufacturing level 2 times the capacity |
| ShipCodes.WarshipSublight | store/codes.go:414-416 | a warship's sublight cost is exactly three quarters of its FTL cost |
| ShipCodes.WarshipNames | store/codes.go:31-126 | a warship's class name is both its item description and its name in the code list |
| ShipCodes.WarshipsAscend | store/codes.go:224-270 | the warship classes, smallest first, carry strictly increasing capacities |
| ShipCodes.TransportFigures | store/codes.go:224-463 | a transport "TRn" carries and weighs n·10,000, costs n·50 to jump and needs level 2n, each product wrapped to 64 bits; its class is the transport description |
| ShipCodes.MinMALevelBuildsTonnage | store/codes.go:366-463 | for every code, MaxTonnage of the minimum manufacturing level equals the ship's tonnage |
| ShipCodes.StarbaseFigures | store/codes.go:224-463 | BAS and SU carry, weigh and cost nothing and need no level; class, description and code-list name agree |
| ShipCodes.NonShipFigures | store/codes.go:224-463 | a code that is no ship gets zero figures and the class "?code?" |
| ShipCodes.SublightThreeQuarters | store/codes.go:414-416 | sublight cost is FTL cost times 3/4 rounded toward zero, and lies between 0 and the FTL cost, whenever 75 times the FTL cost fits in 64 bits |
| ShipCodes.CodeListMatchesDescr | store/codes.go:31-222 | every name in the code list other than the three templates is the item description of the same code |
| ShipCodes.GunMarkAsWritten | store/codes.go:211-212 | as written, "GU3" is described as "Mark-n3" while "SG3" is "Mark-3" |
| ShipCodes.GunMarkCorrected | store/codes.go:211-219 | the corrected description writes a gun unit's mark like a shield generator's and agrees with Item.Descr on every code not starting "GU" |
| Common.SpeciesKey | store/memory/store.go:52 | the "SP%02d" key starts with "SP" followed by the id padded to two digits |
| Common.AtoiSpeciesKey | store/jsondb/io.go:81-93 | the digits after "SP" in a species key read back as the id, for every non-negative 64-bit id |
| Common.AtoiItoa | store/read.go:60-66 | strconv.Atoi reads back what %d writes, for every 64-bit integer |
| Common.CoordsTextInjective | store/memory/read.go:103 | two positions with the same "%d %d %d" text are the same position |
| Common.Wrap64 | server.go:50-135 | Go's 64-bit arithmetic: the result lies in the int64 range and equals its argument when that is already in range |
| Common.Quot | server.go:109 | Go's division truncates toward zero: the remainder has the sign of the dividend and is smaller than the divisor |
| Common.Split | jwt/http.go:45 | strings.Split gives at least one piece, no piece contains the separator, and joining the pieces gives the input back |
| Common.SplitJoin | jwt/http.go:45 | splitting pieces that were joined with a separator none of them contains gives the pieces back |
| Common.SplitN2 | jwt/http.go:36 | strings.SplitN with limit 2 gives the whole input when the separator is absent, and otherwise the text before and after its first occurrence |
| Common.SplitN2AfterPrefix | jwt/http.go:36 | a first piece free of the separator comes back intact, with the rest after it |
| Common.TrimSpace | jwt/http.go:40 | the trimmed text neither starts nor ends with white space and is unchanged when the input already does neither |
| Common.Itoa | store/read.go:96 | %d writes at least one character, digits only for a non-negative number, a leading minus for a negative one, and never a space |
| Common.ItoaInjective | store/read.go:96 | different numbers are written differently |
| Common.CoordsTextSplits | store/read.go:55-66 | splitting a written position on spaces gives back its three numbers |
| Common.Atoi | store/read.go:60-65 | a parsed number is a 64-bit value read from a non-empty text |
| Common.StrLessIrreflexive | store.go:237-239 | no string is below itself in Go's byte-wise order |
| Common.StrLessTransitive | store.go:237-239 | Go's string order is transitive |
| Common.StrLessTotal | store.go:237-239 | of two distinct strings one is below the other |
| MemoryCoords.LessAsWritten | store/memory/coords.go:32-47 | Less as written is "c.X < t.X, or (Y, Z, Orbit) lexicographically less", whatever the X values |
| MemoryCoords.LessNotAsymmetric | store/memory/coords.go:35 | (2,0,0,0) and (1,1,0,0) are each Less than the other |
| MemoryCoords.LessCorrectedIsLexicographic | store/memory/coords.go:30-47 | the corrected comparison is lexicographic on (X, Y, Z, Orbit) |
| MemoryCoords.LessCorrectedIsStrictTotalOrder | store/memory/coords.go:30-47 | the corrected comparison is a strict weak order and is total on distinct coordinates, over any set of coordinates |
| MemoryCoords.LessCorrectedAgrees | store/memory/coords.go:32-47 | the written and the corrected comparison agree whenever c.X <= t.X |
| JwtPrimitives.EncodedSegment | jwt/factory.go:67-75 | under the library laws, the base64url text of some bytes is non-empty, has no dot and no white space at either end |
| JwtPrimitives.LawfulIsSatisfiable | jwt/factory.go:67-75 | the library laws the token code relies on can all be met at once |
| JwtPrimitives.IssuingIsLawful | jwt/factory.go:67-75 | an instance whose JSON writes and reads back one given header and one given payload meets the library laws |
| JwtSigner.HS256.constructor | jwt/signer.go:41-45 | the signer's secret is a fresh array holding a copy of the key's bytes |
| JwtSigner.HS256.Algorithm | jwt/signer.go:47-50 | the algorithm name is a real algorithm: neither empty nor "none" |
| JwtSigner.HS256.Sign | jwt/signer.go:52-59 | under the library laws, a successful signature is a 32-byte HMAC-SHA256 tag |
| JwtToken.JWT.constructor | jwt/jwt.go:67-109 | a received token starts unverified and holds the decoded sections unchanged |
| JwtToken.JWT.Data | jwt/jwt.go:31-38 | the identity is the private block's id, username, email and roles |
| JwtToken.ValidAtMeans | jwt/jwt.go:40-65 | IsValid holds exactly when the token is signed, header and private block agree on alg and typ, nbf is unset or still ahead, iat is set and passed, and exp is set and still ahead |
| JwtToken.ExpiryBoundary | jwt/jwt.go:57-62 | a token with no exp, or an exp at or before now, is invalid under both the written and the corrected rule |
| JwtToken.ExpiryOneSecondAhead | jwt/jwt.go:60-62 | for times after the epoch, a valid token stays valid with exp set to the next whole second |
| JwtToken.PerRfcDiffersOnlyInNotBefore | jwt/jwt.go:48-50 | the written and the corrected rule differ only in the not-before test, which the written rule inverts |
| JwtToken.PerRfcHonoursNotBefore | jwt/jwt.go:48-50 | the corrected rule never accepts a token before its nbf and ignores an nbf already reached |
| JwtToken.NotBeforeInverted | jwt/jwt.go:48 | a concrete token with nbf in the future is accepted as written and refused once nbf has passed, the reverse of the corrected rule |
| JwtFactory.NewFactory | jwt/factory.go:32-34 | a new factory is valid and its signer holds a private copy of the secret's bytes |
| JwtFactory.Verdict | jwt/factory.go:37-51 | an invalid factory gives ErrBadFactory; a signing failure is passed on; the check succeeds only when the signature section is the encoding of the tag over "header.payload" |
| JwtFactory.VerdictDependsOnSegmentsOnly | jwt/factory.go:41-46 | two tokens with the same three received sections get the same verdict |
| JwtFactory.Validate | jwt/factory.go:37-51 | isSigned records the verdict, ErrUnauthorized when the signature differs, the token itself is unchanged, and an error before the comparison leaves isSigned as it was |
| JwtFactory.NewTokenSegments | jwt/factory.go:53-78 | an issued token splits at dots into exactly the header, payload and signature segments, the signature computed over the first two |
| JwtFactory.SegmentHasNoDot | jwt/factory.go:67-75 | an encoded segment, or the empty segment left by a failure, contains no dot |
| JwtFactory.IssuanceCanSucceed | jwt/factory.go:53-78 | lawful libraries and a successful issuance, with every marshalling and signing step succeeding, can hold at once, so the round-trip lemmas that assume both are not vacuous |
| JwtFactory.IssuedClaims | jwt/factory.go:53-65 | an issued token has typ "JWT", the signer's algorithm in header and private block, no nbf, iat and exp the Unix seconds of now and now+ttl, and the given identity |
| JwtFactory.FailedHeaderLeavesEmptySegment | jwt/factory.go:67-69 | when the header cannot be marshalled the token starts with a dot |
| JwtHttp.FromHeader | jwt/http.go:32-77 | a missing header and a value without a space are refused first; an accepted token comes from "Bearer " plus three non-empty dot-separated sections that decode, with a real algorithm and header and private block agreeing |
| JwtHttp.FromCredential | jwt/http.go:41-77 | an accepted credential trims and splits into the three sections the token keeps, which decode to its header and payload |
| JwtHttp.BearerCredential | jwt/http.go:37-44 | after "Bearer " the rest of the header value is the credential |
| JwtHttp.PlainSectionsSplit | jwt/http.go:41-49 | three plain sections joined by dots survive trimming and split back into themselves |
| JwtHttp.HeaderOf | jwt/http.go:57-60 | the header section's decoding and unmarshalling yields `h` exactly when the section decodes to `h` |
| JwtHttp.PayloadOf | jwt/http.go:66-69 | the payload section's decoding and unmarshalling yields `p` exactly when the section decodes to `p` |
| JwtHttp.DecodeSections | jwt/http.go:51-77 | a decode or unmarshal error of the header is returned unchanged; then a missing or "none" algorithm gives ErrUnauthorized; then a decode or unmarshal error of the payload is returned unchanged; then a typ or alg disagreement gives ErrUnauthorized; the sections are accepted exactly when both decode, the algorithm is real and the claims agree, and the token keeps the sections as received |
| JwtHttp.BearerReachesDecoding | jwt/http.go:37-57 | "Bearer h.p.s" reaches the decoding step with exactly the sections h, p and s |
| JwtHttp.CredentialSections | jwt/http.go:46-57 | a trimmed credential that splits into three non-empty sections is decoded from those sections |
| JwtHttp.SchemeMustBeBearer | jwt/http.go:42-44 | any scheme other than exactly "Bearer" gives ErrNotBearer |
| JwtHttp.AlgNoneRejected | jwt/http.go:61-63 | a header with no algorithm or "none" gives ErrUnauthorized |
| JwtHttp.MalformedCredential | jwt/http.go:46-49 | a credential that does not cut into three non-empty sections gives ErrNotJWT |
| JwtHttp.TwoSectionsRejected | jwt/http.go:47-49 | "Bearer a.b" gives ErrNotJWT |
| JwtHttp.FourSectionsRejected | jwt/http.go:47-49 | "Bearer a.b.c.d" gives ErrNotJWT |
| JwtHttp.EmptySectionRejected | jwt/http.go:47-49 | "Bearer a..c" gives ErrNotJWT |
| JwtHttp.SchemeAndSpaceRequired | jwt/http.go:37-44 | "bearer a.b.c" gives ErrNotBearer and "Bearer" alone gives ErrBadRequest |
| JwtHttp.CrossClaimMismatchRejected | jwt/http.go:70-74 | decodable plain sections whose header and private block disagree on typ or alg give ErrUnauthorized |
| JwtHttp.AgreeingSectionsAccepted | jwt/http.go:51-77 | conversely, decodable plain sections with a real algorithm and agreeing claims give exactly the token made of those sections and their decodings |
| JwtHttp.DecodeErrorPassedThrough | jwt/http.go:57-69 | a decode or unmarshal error of the header, or of the payload once the header is acceptable, is what FromHeader returns |
| JwtHttp.IssuedSections | jwt/factory.go:67-77 | the sections of a successfully issued token are plain sections |
| JwtHttp.IssuedTokenAccepted | jwt/http.go:32-77 | a token the factory issued, sent as "Bearer <token>", decodes to exactly the issued header and payload and its signature verifies |
| JwtHttp.ForgedSignatureRefused | jwt/factory.go:41-48 | an issued token with its signature replaced by any other section still decodes, but its signature check fails |
| JwtHttp.IssuedTokenValid | jwt/jwt.go:40-65 | an issued and verified token is valid exactly when iat and exp are non-zero and the instant is strictly after the issuing Unix second and strictly before the expiry second, under both readings of nbf; issued after the first second of the epoch, it is valid at every instant after issuance up to one second before the requested expiry |
| Sessions.GetSession | handlers/sessions.go:41-46 | the session is found exactly when the value under the "session" key is a session |
| Sessions.RoleMap | handlers/sessions.go:62-66 | the role map holds exactly the token's roles, each mapped to true |
| Sessions.Admission | handlers/sessions.go:50-57 | a request is admitted exactly when its token decodes and its signature verifies |
| Sessions.Authenticate | handlers/sessions.go:48-77 | a refused request gets status 401 and the first error; an admitted one is forwarded with the context extended by the session built from the token |
| Sessions.GrantRoles | handlers/sessions.go:64-66 | the loop builds exactly RoleMap of the token's roles |
| Sessions.HandlerSeesTokenSession | handlers/sessions.go:41-75 | behind the middleware the handler finds an authenticated session with the token's species id and exactly its roles, the rest of the context unchanged |
| Sessions.ExpiredTokenAdmitted | handlers/sessions.go:50-57 | a token issued with a non-positive time-to-live is admitted although IsValid, as written and as corrected, refuses it at every later instant |
| Sessions.AuthenticateEnforcingClaims | handlers/sessions.go:48-77 | the corrected middleware also refuses, with ErrUnauthorized, an admitted token that is not valid now under the corrected nbf rule |
| JsonDbHandler.VisitedBy | store/jsondb/handler.go:41-46 | the visited flag is set exactly when the species' "SPnn" key is among the system's visitors |
| JsonDbHandler.SystemEntry | store/jsondb/handler.go:60-70 | an entry carries the system's id and position, and is marked visited exactly when the caller's species key is among the visitors |
| JsonDbHandler.SystemLinkIdentifies | store/jsondb/handler.go:63 | two entries with the same link are for systems at the same position |
| JsonDbHandler.GetSystem | store/jsondb/handler.go:30-51 | nil store gives ErrInternalError; a key no system has gives ErrNotFound; otherwise the answer describes the first system with that key, without a link |
| JsonDbHandler.GetSystems | store/jsondb/handler.go:53-77 | nil store gives ErrInternalError; otherwise one entry per system in list order, or a list holding one nil when there are none |
| JsonDbHandler.GetTurnNumber | store/jsondb/handler.go:79-86 | nil store gives ErrInternalError, otherwise the galaxy's turn number |
| JsonDbHandler.GetVersion | store/jsondb/handler.go:102-109 | nil store gives ErrInternalError, otherwise the store's version |
| JsonDbHandler.GetUser | store/jsondb/handler.go:88-100 | nil store gives ErrInternalError; the user is found exactly when some species has the id, the answer carrying that id; otherwise ErrNotFound |
| JsonDbHandler.SpeciesLessIsStrictOrder | store/jsondb/species.go:49-51 | ordering species by key is irreflexive, transitive, asymmetric and total on distinct keys |
| JsonDbHandler.SpeciesById | store/jsondb/species.go:53-62 | the selector accepts a species exactly when its id is listed and its own key is a granted role |
| JsonDbHandler.SpeciesByName | store/jsondb/species.go:64-73 | the selector accepts a species exactly when its name is listed and the "SPnn" form of its id is a granted role |
| JsonDbHandler.MatchingMembers | store/jsondb/species.go:29-47 | a species is among the matches exactly when some key holds it and it satisfies the selector |
| JsonDbHandler.FilterSpecies | store/jsondb/species.go:29-47 | the result holds, with multiplicity, exactly the species of the map that satisfy the selector, in any map order |
| JsonDbHandler.FilterByIdSelects | store/jsondb/species.go:29-62 | filtering by ids keeps exactly the stored species that are listed and whose own key is a granted role |
| JsonDbHandler.FilterByNameSelects | store/jsondb/species.go:29-73 | filtering by names keeps exactly the stored species that are named and whose "SPnn" role is granted |
| JsonDbIo.GasesValidMeans | store/jsondb/io.go:47-73 | with every gas known and in range, an atmosphere passes exactly when it is empty or its percentages add up to 100 |
| JsonDbIo.SumOverPositive | store/jsondb/io.go:66-71 | percentages of at least 1 sum to at least the number of gases, so a non-empty atmosphere has a positive total |
| JsonDbIo.CheckGases | store/jsondb/io.go:47-73 | the check passes exactly when every gas is known, every percentage is 1 to 100 and a positive total is 100; an error names a failing gas or the total |
| JsonDbIo.CheckPlanets | store/jsondb/io.go:43-74 | the check passes exactly when every planet has id at least 1 and a valid atmosphere; an error is that of the first invalid planet |
| JsonDbIo.AlienIdOfSpeciesKey | store/jsondb/io.go:89-99 | the "SPnn" key of a species in range is read back as its id |
| JsonDbIo.AlienIdInRange | store/jsondb/io.go:93-98 | a list entry yields only ids from 1 to MAX_SPECIES |
| JsonDbIo.MarkContents | store/jsondb/io.go:89-124 | marking adds exactly the species the list names, all with the tag, and leaves every other entry as it was |
| JsonDbIo.NamesLast | store/jsondb/io.go:89-100 | a list names a species when its front does or its last entry does |
| JsonDbIo.MarkAll | store/jsondb/io.go:89-100 | the loop leaves the map that marking every named species gives |
| JsonDbIo.AliensContents | store/jsondb/io.go:85-124 | a species is in Aliens exactly when a contact, ally or enemy entry names it; its id is in range; enemy beats ally beats neutral |
| JsonDbIo.NormaliseSpecies | store/jsondb/io.go:77-125 | an entry passes exactly when its id is at least 1 and its key is the "SPnn" form of the id; it then gets its key recorded and Aliens rebuilt; otherwise the matching error |
| JsonDbIo.Read | store/jsondb/io.go:33-128 | the store is accepted exactly when all planets and all species entries are valid; accepted, every species is normalised; rejected, the error is the first bad planet's or some bad species entry's |
| JsonDbIo.ReadAliens | store/jsondb/io.go:77-125 | after Read each species records its own key and its Aliens lists exactly the in-range species its three lists name |
| Sorting.TotalIsWeak | store/read.go:247-253 | a strict order in which any two distinct entries are comparable is a strict weak order, so an integer key sorts like a weak order |
| Sorting.Swap | store/read.go:243 | the two entries trade places, every other entry stays, and the contents are a permutation |
| Sorting.SwapStep | store/read.go:241-245 | exchanging a[i] with a later entry that is below it keeps everything before i settled and leaves nothing between i and k+1 below the new a[i] |
| Sorting.ExchangeIfLess | store/read.go:242-244 | one test-and-swap of the inner loop keeps the sweep invariant one step further and permutes the entries |
| Sorting.ExchangeIfNotLess | store.go:208-210 | one swap-unless-Less step of the inner loop keeps the sweep invariant one step further under a strict weak order and permutes the entries |
| Sorting.SweepSwappingLess | store/read.go:241-245 | after the inner loop no later entry is below a[i], the entries before i stay settled, and the entries are permuted |
| Sorting.SortSwappingLess | store/read.go:240-246 | with a strict order the nested loops leave no entry below an earlier one, and the array is a permutation of what it was |
| Sorting.SweepSwappingNotLess | store.go:207-211 | after the inner loop no later entry is below a[i], the entries before i stay settled, and the entries are permuted |
| Sorting.SortSwappingNotLess | store.go:206-212 | with a strict weak order the nested swap-unless-Less loops leave no entry below an earlier one, and the array is a permutation of what it was |
| Sorting.SortedByLess | store/read.go:240-260 | the sorted copy has no inversion and holds the same entries with the same multiplicities |
| Sorting.SortedByNotLess | store.go:206-220 | the sorted copy has no inversion and holds the same entries with the same multiplicities |
| MainStore.System.constructor | store.go:145-153 | the new system carries the record's id, coordinates, scan count, shipyards and visited flag, and has no planets |
| MainStore.PadLeft | store.go:173 | the padded text is as wide as the column or the text, ends with the text, and is blank before it |
| MainStore.Built | store.go:160-177 | one planet is built per record |
| MainStore.HasOrbit | store.go:185-189 | the scan finds a planet exactly when some planet of the list is at that orbit |
| MainStore.OrbitLessIsStrictOrder | store.go:197-203 | comparing orbits is a strict order, so the per-system exchange sort applies |
| MainStore.SystemLessIsStrictWeakOrder | store.go:228-230 | System.Less is a strict weak order; systems with the same id are tied |
| MainStore.PlanetLessIsStrictWeakOrder | store.go:237-239 | Planet.Less, Go's byte-wise string order on sort keys, is a strict weak order |
| MainStore.PlanetsRunLoads | store.go:160-196 | a planet loop that passes every record builds one planet per record in order, at distinct orbits, appends them to the sorted list, and indexes them by id and name without overwriting any entry |
| MainStore.AddSystemLoads | store.go:154-196 | a system that passes is registered under an id not taken before, appended to the sorted systems, and its planets appended and indexed without overwriting |
| MainStore.SystemsRunLoads | store.go:143-204 | a system loop that passes registers every system, appends the systems and their planets to the sorted lists and indexes the planets, keeping whatever the tables held |
| MainStore.SystemsRunFresh | store.go:154-184 | after a passing system loop every system got an id not taken before it, and no planet key overwrote another |
| MainStore.PlanetsRunStops | store.go:178-188 | once a planet record fails, the later records change nothing: the loop returns at the first error |
| MainStore.DistinctOrbitsPairwise | store.go:185-189 | after the duplicate-orbit checks no two planets of a system share an orbit |
| MainStore.LoadPlanet | store.go:162-195 | one pass of the planet loop gives the error, tables and planet list of the specified step: id == name, a taken id, a taken name and a duplicate orbit are refused in that order |
| MainStore.PlanetLoop | store.go:160-196 | the planet loop gives the outcome of the specified loop over the records |
| MainStore.SystemValues | store.go:154-203 | a system pass gives the outcome of the specified step and, when it passes, the system's planets in orbit order as a permutation of those built |
| MainStore.Store.constructor | store.go:83-88 | the new store has empty maps and empty sorted lists |
| MainStore.Store.LoadSystem | store.go:143-204 | one pass creates one new system matching its record, leaves the store as the specified run says, and on success the system's planets are in orbit order |
| MainStore.Store.LoadSystems | store.go:143-204 | the system loop leaves the store exactly as the specified run does, stopping at the first failure; on success every system is arranged |
| MainStore.Store.SortBoth | store.go:206-220 | both sorted lists end up ordered by Less and are permutations of what they held; the maps are unchanged |
| MainStore.Store.Load | store.go:81-225 | a failed load reports the first failing record's error; a successful one loads every record, leaves the maps as loaded and both sorted lists sorted permutations of what was loaded, every system's planets in orbit order |
| StoreTypes.System.constructor | store/read.go:147-153 | the new system carries the record's id, coordinates and flags, with no planets, inventory or ships |
| StoreTypes.SystemLessByPosition | store/store.go:103-114 | System.Less orders by position alone: systems at one position are tied, at distinct positions exactly one is below the other |
| StoreTypes.SystemLessIsStrictWeakOrder | store/store.go:103-114 | System.Less is a strict weak order |
| StoreTypes.PlanetLessBySystemThenOrbit | store/store.go:122-137 | Planet.Less follows System.Less, and within one position the orbit decides |
| StoreTypes.PlanetLessIsStrictWeakOrder | store/store.go:122-137 | Planet.Less is a strict weak order |
| StoreRead.CopyInventory | store/read.go:189-195 | the copied inventory has the file's codes, each item carrying its own code, location and quantity |
| StoreRead.CopyShips | store/read.go:196-231 | the copy succeeds exactly when every ship's location parses; then it holds every ship as ShipOf builds it; otherwise the error names a ship whose location fails, with the bad orbit text |
| StoreReadSpec.IdError | store/read.go:54-66 | the first id error is absent exactly when every system id parses |
| StoreRead.ParseSystemIds | store/read.go:54-71 | the pass succeeds exactly when every system id parses, giving the positions in file order; otherwise the error is that of the first id that fails (IdError) |
| StoreRead.ParseNextId | store/read.go:55-70 | one system's id is parsed and its position appended, or its own error is returned |
| StoreRead.CheckSpecies | store/read.go:78-93 | the species pass succeeds exactly when every tech level name is one of the six; otherwise the error names a species and its unknown tech; the same-id test never fires |
| StoreRead.CheckPlanetIds | store/read.go:102-112 | the planet checks of one system succeed exactly when no planet id repeats an earlier planet's id or name, and then the seen keys are those of all planets so far; otherwise the error is SameOrbit of the first planet whose id is already indexed |
| StoreRead.CheckDuplicates | store/read.go:95-114 | the duplicate pass succeeds exactly when positions are distinct and no planet id repeats an earlier id or name; otherwise every system before the failing one passes and the error is the failing system's: a repeated position, or the first already-indexed planet id |
| StoreRead.CheckNextSystem | store/read.go:96-113 | one system of the duplicate pass keeps the distinct-position and fresh-id runs, or fails and then the whole pass fails; its error is SameCoordinates for a repeated position, else SameOrbit of its first already-indexed planet id |
| StoreRead.CheckInput | store/read.go:54-114 | the checking passes succeed exactly when ids parse, tech names are known, positions are distinct and planet ids are fresh, and then yield the positions; otherwise the error is the first failing check in order: the first bad system id, else an unknown tech name of some species, else the first duplicate-pass failure |
| StoreRead.Store.constructor | store/read.go:37-39 | the store starts with empty maps and empty sorted lists |
| StoreRead.Store.LoadSpecies | store/read.go:118-143 | every species is stored under its name with its tech levels renamed to codes, and appended once to the sorted list |
| StoreRead.Store.LoadPlanet | store/read.go:161-236 | a planet is accepted exactly when its name is not its id, not indexed yet, and its ships parse; accepted, it is appended to its system and the sorted list and indexed by id and name; rejected, nothing changes |
| StoreRead.Store.LoadSystem | store/read.go:145-237 | a new system is made from the record and registered under its id; its planets load exactly when every name is fresh and every ship parses, and are then indexed and appended |
| StoreRead.Store.LoadPlanets | store/read.go:160-236 | the planet loop succeeds exactly when every entry has a fresh name and valid ships; then the system holds the planets built, in order, and the index holds them |
| StoreRead.Store.LoadSystems | store/read.go:145-238 | the system loop succeeds exactly when every planet of the file has a fresh name and valid ships; then every system and planet is stored, indexed and appended in file order |
| StoreRead.Store.LoadNextSystem | store/read.go:145-237 | one system step keeps the loop state one system further, or fails only when some planet name or ship location of the file is bad |
| StoreRead.Store.SortAll | store/read.go:240-260 | planets by Planet.Less, species by id and systems by System.Less end up ordered and permutations of what they held |
| StoreRead.Store.Prepare | store/read.go:37-114 | the maps are replaced by empty ones, and the checks pass exactly when the file passes the checking rules, yielding the positions, or fail with the first failing check's error |
| StoreRead.Store.Fill | store/read.go:118-238 | the copying succeeds exactly when every planet name is fresh and every ship parses; then the maps are as StoredAs says and each list has the new records appended |
| StoreRead.Store.Load | store/read.go:118-260 | the copying pass and sorts succeed exactly when the file is copyable, and then leave every record stored, indexed and in sorted order |
| StoreRead.Store.Read | store/read.go:35-262 | Read fails exactly when the file breaks one of its rules; otherwise the species, systems and planets are stored and indexed as the file gives them, and each sorted list holds the old entries plus the new ones, in order; a file failing the checking passes gets the first failing check's error and leaves the three maps empty and the sorted lists as they were |
| StoreReadSpec.ParseSystemKey | store/read.go:55-66 | the normalised id of any 64-bit position parses back to that position |
| StoreReadSpec.SystemKeyInjective | store/read.go:96-99 | two 64-bit positions with the same normalised id are the same position |
| StoreReadSpec.TechCode | store/read.go:127-140 | a known tech name maps to one of BI, GV, LS, MA, ML, MI |
| StoreReadSpec.TechCodeInjective | store/read.go:127-140 | different tech names never share a code |
| StoreReadSpec.TechLevelsOfKeys | store/read.go:125-141 | the stored levels are keyed by exactly the codes of the file's known names and carry their values |
| StoreReadSpec.LocationFlagsConsistent | store/read.go:205-228 | a parsed location sets at most one of landed, orbiting and deep space; forced jump and withdrawal imply deep space and exclude each other |
| StoreReadSpec.LocationPrefixes | store/read.go:205-228 | "(C)" means landed; D, FJ, L, O and WD followed by the orbit digit set their flags |
| StoreReadSpec.TwoDigitOrbitRejected | store/read.go:209-212 | only the last character is compared with the orbit, so a planet at orbit 10 or more rejects every location other than "" and "(C)" |
| StoreReadSpec.ShipsOf | store/read.go:196-232 | when every location parses, the planet's ships are keyed by exactly the file's ship names |
| StoreReadSpec.Positions | store/read.go:54-71 | one position per system, each the parse of that system's id |
| StoreReadSpec.PlacedIn | store/read.go:102-103 | each planet of a system gets the id built from the system's position and its orbit |
| StoreReadSpec.PlanetIndex | store/read.go:232-236 | the planet index holds exactly the ids and non-empty names of the planets loaded |
| StoreReadSpec.EmptyNeverIndexed | store/read.go:233-235 | the empty string is never a key of the planet index |
| StoreReadSpec.PlanetIndexLookup | store/read.go:176-236 | when ids and names are fresh, every planet is found under its id and its name, no later planet replacing it |
| StoreReadSpec.SystemIndexLookup | store/read.go:154-157 | with distinct ids each system is found under its own id |
| StoreReadSpec.SpeciesLessIsStrictOrder | store/read.go:247-253 | comparing species by id is a strict order |
| StoreReadSpec.NamedValueAdded | store/read.go:142-143 | storing a species under a new name adds exactly that species to the stored values |
| StoreReadSpec.PlanetRejected | store/read.go:176-183 | a planet the copying pass rejects is one whose name is its id or repeats an earlier key, or whose ships do not parse |
| StoreReadSpec.SortedAfterFill | store/read.go:240-260 | sorting the three lists after the copy gives the state Read promises |
| StoreReadSpec.StoredSystems | store/read.go:145-237 | every stored system is the one made from its record, under its normalised id, holding its planets in file order |
| MemoryRead.Planet.constructor | store/memory/read.go:46-56 | the new planet carries the record's id, diameter, message and classes, with an empty gas map copied in later, no system and a zero position |
| MemoryRead.System.constructor | store/memory/read.go:102-106 | the new system carries its id and position and an all-nil planet array one longer than its planet list |
| MemoryRead.Species.constructor | store/memory/read.go:130-157 | the new species carries the record's id, name, flags, costs, government and homeworld base, and the given relationships and tech |
| MemoryRead.MaxPlanetId | store/memory/read.go:35-42 | the largest planet id, or 0: no id exceeds it and, unless 0, some planet has it |
| MemoryRead.CheckPlanetIds | store/memory/read.go:35-42 | the loop passes exactly when every planet id is at least 1, giving the largest id; otherwise the error carries the first id below 1 |
| MemoryRead.LastWithId | store/memory/read.go:45-97 | the entry kept for an id is the last one that has it, or none when no entry has it |
| MemoryRead.CopyGases | store/memory/read.go:57-96 | the gas loop passes exactly when every gas is known, every percentage is 1 to 100 and a positive total is 100; it then copies the map; an error is one the JSON store's check also allows |
| MemoryRead.FillPlanets | store/memory/read.go:45-98 | the loop passes exactly when every planet's gases are valid; then slot id holds a fresh planet built from the last entry with that id, every other slot is nil, and no planet has a system yet; otherwise the first bad planet's error |
| MemoryRead.PlacedStep | store/memory/read.go:97 | storing one more planet at its id keeps each slot holding the last entry with its id |
| MemoryRead.RelinkedAt | store/memory/read.go:107-115 | after a system's loop each planet it lists points at it, at the orbit after its last position there; other planets keep their link |
| MemoryRead.PlaceAt | store/memory/read.go:107-115 | a bad planet index gives the invalid-index error; a good one points the planet at the system, at orbit o + 1, and puts it in that orbit |
| MemoryRead.BuildSystem | store/memory/read.go:101-115 | a system builds exactly when all its planet indexes are in range; it then has its id from its position, nil at orbit 0 and each listed planet at its orbit, and the planets point at it; otherwise the first bad index is reported |
| MemoryRead.AllLinksAt | store/memory/read.go:100-117 | after all systems each planet points at the system and orbit of its last listing, a planet listed twice keeping the later one |
| MemoryRead.LoadOne | store/memory/read.go:101-117 | one system turn passes exactly when its indexes are in range, and then extends the loop state by that system |
| MemoryRead.LoadSystems | store/memory/read.go:100-117 | the systems loop passes exactly when every index is in range, and then every system is built and stored under its id; otherwise the first bad index of the first bad system is reported |
| MemoryRead.SystemTableContents | store/memory/read.go:116 | the map has a key exactly when some system has that id, and holds the last system with it |
| MemoryRead.SystemIdsMatchPositions | store/memory/read.go:103 | two systems share a map key exactly when they share a position |
| MemoryRead.Upto | store/memory/read.go:138-140 | the ids 1 to n |
| MemoryRead.NoRelations | store/memory/read.go:138-140 | every id gets the None relationship |
| MemoryRead.TechOf | store/memory/read.go:158-193 | the tech map has exactly the keys BI, GV, LS, MA, MI and ML |
| MemoryRead.CheckSpeciesIds | store/memory/read.go:119-126 | the loop passes exactly when every species id is at least 1, giving the largest id; otherwise the error carries an id below 1 |
| MemoryRead.NewSpecies | store/memory/read.go:130-193 | a species builds exactly when every Aliens entry is ally, enemy or neutral; then it has the record's fields, every id up to the largest with no relation overridden by Aliens, and the six tech fields; otherwise an unknown relationship is reported |
| MemoryRead.FillSpecies | store/memory/read.go:129-195 | the loop passes exactly when every relationship is known; then each slot id holds a species built from some entry with that id, and every other slot is nil |
| MemoryRead.SpeciesStep | store/memory/read.go:194 | storing one more species at its id keeps every slot consistent with the entries done |
| MemoryRead.Store.constructor | store/memory/store.go:31-40 | an empty store: no version, turn 0, no systems, empty arrays |
| MemoryRead.Store.LoadPlanets | store/memory/read.go:35-98 | the planet phase passes exactly when every id is positive and every atmosphere valid, and then the array holds the planets by id, none placed in a system yet |
| MemoryRead.Store.LoadSystemTable | store/memory/read.go:100-117 | the systems phase passes exactly when every planet index is in range, and then the map and the planets' links are as the systems give them |
| MemoryRead.Store.LoadSpecies | store/memory/read.go:119-195 | the species phase passes exactly when every id is positive and every relationship known, and then the array holds the species by id |
| MemoryRead.Store.Read | store/memory/read.go:31-198 | the version is copied; Read succeeds exactly when planets, systems and species all pass their checks, in that order, and the error is from the first phase that fails; success leaves planets, systems and species as the three phases state |
| MemoryStore.SpeciesSlots | store/memory/read.go:119-195 | after Read slot 0 is nil, every species sits in the slot of its id, and a slot is filled exactly when some species has that id |
| MemoryStore.KnownMembers | store/memory/store.go:51-62 | a species is reported exactly when it is not the caller, its key is a granted role, and it is stored |
| MemoryStore.KnownIncreasing | store/memory/store.go:51-62 | the reported ids are slots of the array, in strictly increasing order |
| MemoryStore.GetKnownSpeciesAsWritten | store/memory/store.go:42-66 | nil store gives ErrInternalError, no roles or an id out of range gives ErrUnauthorized; otherwise the loop dereferences a nil slot exactly when there is one, and else returns the known species |
| MemoryStore.KnownSpeciesAsWrittenPanics | store/memory/store.go:51-52 | after Read slot 0 is always nil, so every call past the guards dereferences nil |
| MemoryStore.GetKnownSpecies | store/memory/store.go:42-66 | the same guards; skipping nil slots, the result is exactly the known species in id order |
| MemoryStore.GetSpecies | store/memory/store.go:68-86 | nil store gives ErrInternalError; no roles, a role not granted or an id out of range gives ErrUnauthorized; an empty slot gives ErrNotFound |
| MemoryStore.GetSpeciesAfterRead | store/memory/store.go:68-86 | after Read an authorised lookup succeeds exactly when some species has the id, and answers with that id |
| MemoryStore.GetSystem | store/memory/store.go:88-101 | nil store gives ErrInternalError, an unknown key ErrNotFound; otherwise the answer carries the stored system's id and position |
| MemoryStore.TableKeyedById | store/memory/read.go:116 | every system in the map is stored under its own id |
| MemoryStore.GetSystemAfterRead | store/memory/store.go:88-101 | after Read looking up a system's "X Y Z" id answers with that id and position, not visited |
| MemoryStore.GetSystemMissAfterRead | store/memory/store.go:91-94 | after Read a key that is no system's id gives ErrNotFound |
| MemoryStore.ListedMembers | store/memory/store.go:110-122 | one listing per key; a listing is present exactly when it describes the system under its id |
| MemoryStore.GetSystems | store/memory/store.go:103-127 | nil store gives ErrInternalError; no systems gives a list holding one nil; otherwise exactly one listing per system, in any map order |
| MemoryStore.GetSystemsListsTable | store/memory/store.go:103-127 | after Read the listing has one entry per system, and each entry describes the system stored under its id |
| MemoryStore.GetTurnNumber | store/memory/store.go:129-136 | nil store gives ErrInternalError, otherwise the stored turn number |
| MemoryStore.GetVersion | store/memory/store.go:152-159 | nil store gives ErrInternalError, otherwise the stored version |
| MemoryStore.GetUserAsWritten | store/memory/store.go:138-150 | the scan dereferences nil when it reaches a nil slot before a match, answers with the id when it reaches a match first, and gives ErrNotFound when neither happens |
| MemoryStore.UserAsWrittenPanics | store/memory/store.go:142-143 | after Read the scan stops at slot 0, which is nil |
| MemoryStore.GetUser | store/memory/store.go:138-150 | skipping nil slots, the user is found exactly when some stored species has the id |
| MemoryStore.UserFoundAfterRead | store/memory/store.go:138-150 | after Read the user is found exactly when some species of the JSON store has the id |
| Server.SqDist | server.go:106-109 | the squared distance is never negative |
| Server.WrappedSumOfSquares | server.go:106-109 | wrapping every difference, square and sum at 64 bits gives the exact sum of squares wrapped once |
| Server.BaseChanceWraps | server.go:106-109 | the 64-bit base chance is 100 times the exact squared distance, wrapped once, divided by gv with truncation |
| Server.MishapSymmetric | server.go:106-121 | the chance from A to B equals that from B to A for every input, wrap-around included |
| Server.MishapCapped | server.go:111-112 | a base above 10000 is reported as 10000 whatever the age |
| Server.MishapAgeZero | server.go:111-113 | at age 0 the base is reported as it is, capped at 10000 |
| Server.AgedChanceExactBounds | server.go:111-121 | without overflow the chance lies in [0, 10000], never drops below the capped base, equals it at age 0, and is 10000 from age 50 on |
| Server.MishapExactBounds | server.go:106-121 | the same bounds for the whole formula, in terms of the squared distance |
| Server.BaseAgreesWithExact | server.go:106-109 | while 100 times the squared distance fits in an int64 the 64-bit base is the exact one |
| Server.AgedAgreesWithExact | server.go:113-121 | while 2 * age * 10000 fits in an int64 the 64-bit aging step is the exact one |
| Server.MishapAgreesWithExact | server.go:106-121 | inside those two limits the 64-bit chance is the exact one |
| Server.DistantJumpWrapsToZero | server.go:106-109 | a jump of 2^32 along one axis is reported as chance 0, though the exact chance is 10000 |
| Server.PointOf | server.go:52-70 | a point is read only from exactly three fields |
| Server.ParsePointAsWritten | server.go:52-70 | a field count other than three writes a 400 and goes on; with three fields the point is read without panic; a panic happens only with fewer than three fields after one 400 |
| Server.CheckAgeAndGv | server.go:90-105 | the checks pass exactly when age is an integer at least 0 and gv an integer at least 1, and then yield both |
| Server.HandleCalcMishapAsWritten | server.go:50-135 | with three fields in both points the handler writes exactly one answer and does not panic |
| Server.ShortFromPanicsAfterAnswering | server.go:53-55 | a from value with fewer than three numeric fields gets a 400 and then a panic indexing a missing field |
| Server.ExtraFieldsAnsweredTwice | server.go:53-55 | a from value with more than three fields, otherwise valid, gets a 400 and then a JSON answer |
| Server.ParsePoint | server.go:52-70 | with the missing return added, the point parses exactly when PointOf reads one, and a wrong field count is a 400 for that parameter |
| Server.HandleCalcMishap | server.go:50-135 | the corrected handler writes exactly one answer and never panics; it is JSON exactly when all four parameters are valid, echoing them, with a chance in [0, 10000] |
| Server.CorrectedAgreesOnWellFormedInput | server.go:50-135 | on well-formed parameters whose arithmetic does not overflow, the corrected handler answers as the original does |
| Server.InventoryJson | server.go:405-414 | the items list every inventory entry with a nonzero quantity exactly once, under its code, with its location and quantity, and nothing else |
| Server.ShipsJson | server.go:415-421 | one entry per ship, in some map order, carrying the ship's id and an empty inventory |
| Server.PlanetJson | server.go:391-422 | the planet record carries the planet's fields, its nonzero inventory and its ships |
| Server.SystemJson | server.go:379-422 | the system record carries the system's fields, visited as TaggedAsVisited, the self link, and one record per planet in order |
| Server.GetSystems | server.go:376-430 | one record per system, in the order given, each describing its system |

## Left out

- File reading, JSON decoding and `log` calls are not modelled. Each loader starts from already decoded records. Decoding errors are not modelled.
- HTTP plumbing is not modelled: routing, `way.Param`, headers other than `Authorization`, and response writing beyond the list of writes `Server` records. Configuration and command-line start-up are left out too.
- Base64url, JSON marshalling and HMAC-SHA256 are parameters that satisfy `Lawful`. Their byte-level behaviour is not modelled.
- Lawful: has no unforgeability or collision law for HMAC-SHA256 and no injectivity law for JSON (a constant tag satisfies it), so the model claims no tamper detection: an edited header or payload under the original signature is not shown to be refused. Only a replaced signature section is (JwtHttp.ForgedSignatureRefused).
- `JwtFactory.NewToken`: `jwt/factory.go:53-78` reads the clock twice, for `iat` and `exp`. The model takes a single reading `now` for both.
- Floating-point fields are not modelled. These are the `/ 100` conversions in `store/memory/read.go:49-53` and `:154`, `MiningDifficulty`, `MiningDifficultyIncrease`, and `MishapChance` as a float (the model keeps hundredths as an integer).
- `MemoryRead.Store.Read` does not state what an error leaves in the store. The Go code returns with the store partly written, and no caller uses it after an error.
- `StoreRead.Store.Read`: for a file that passes the checking passes but fails the copying pass (`store/read.go:117-240`), the contract says that an error is returned, but not which one (an IdIsName, DuplicateName or InvalidOrbit error of the first failing planet). It also leaves unstated the partly filled maps and lists that remain, though `StoreRead.Store.LoadPlanet` states that a failing planet changes nothing.
- `MemoryRead.Store.Read` never sets `TurnNumber` (`store/memory/read.go:31-198`). The model keeps the old value, so `MemoryStore.GetTurnNumber` reports whatever the store held before.
- `MemoryStore.GetSystem`: `store/memory/store.go:88-101` puts the string id `System.Id` where `ports.SystemResponse` has an int field. The model answers with the string (`KeyedSystemResponse`). It leaves the link empty, as the Go code does.
- `MAX_SPECIES` is not defined in the modelled files. It is the parameter `maxSpecies` of `JsonDbIo`.
- Nil slices are not distinguished from empty ones, for example the `[]*jSystem{}` that `helperGetSystems` returns for no systems. The `[nil]` answers of the `GetSystems` handlers are modelled as a list holding `None`.
- `store/memory/read.go:158-193` copies a `BankedXp` field that the JSON store's `Technology` (`store/jsondb/types.go:199-204`) does not declare. That type has `Xp`, and the model copies `Xp` into `bankedXp`.
- Colonies, ships outside planets, `Store.Colonies` and `Store.Ships` of `store/memory` are never filled by the modelled `Read`, so they are left out.
- The JSON store's `Write` (`store/jsondb/io.go:130-144`) only encodes and writes a file, so it is left out.
- `MainStore` keeps the decoded inventory and ships of `store.json` out of the model. `Load` never copies them.
- The server handlers other than `handleCalcMishap` and `helperGetSystems` only forward to a store getter and write its answer. The getters themselves are modelled (`JsonDbHandler`, `MemoryStore`).
- `StoreRead.Store.LoadSpecies` models Go's map iteration as a choice. The order in which species are appended to the sorted list is therefore stated only up to permutation.
- The model does not say how long comparisons and loops take. In particular it does not say whether the signature comparison takes constant time.

## Findings

| source | as written | input that shows it | evidently intended | confidence | as-written member | corrected member |
|---|---|---|---|---|---|---|
| jwt/jwt.go:48 | a token is refused when `now` is at or past `nbf` | nbf 200, iat 100, exp 300, now 150: accepted; now 250: refused | refuse only before `nbf` (section 4.1.5 of RFC 7519) | high; not executed | JwtToken.NotBeforeInverted | JwtToken.PerRfcHonoursNotBefore |
| handlers/sessions.go:50-57 | Authenticate checks the signature but never calls `IsValid` | a token issued with ttl 0 is admitted at every later instant | refuse tokens that are expired or not yet valid | high; not executed | Sessions.ExpiredTokenAdmitted | Sessions.AuthenticateEnforcingClaims |
| store/memory/coords.go:35 | the tie test compares `c.X == c.X` | (2,0,0,0) and (1,1,0,0) are each Less than the other | `c.X == t.X`, a lexicographic order | high; not executed | MemoryCoords.LessNotAsymmetric | MemoryCoords.LessCorrectedIsStrictTotalOrder |
| store/memory/store.go:52 | the loop reads `v.Id` from every slot | any store after Read: slot 0 is nil | skip empty slots | high; not executed | MemoryStore.KnownSpeciesAsWrittenPanics | MemoryStore.GetKnownSpecies |
| store/memory/store.go:143 | the scan reads `v.Id` from every slot | any store after Read, any id: slot 0 is nil | skip empty slots | high; not executed | MemoryStore.UserAsWrittenPanics | MemoryStore.GetUser |
| store/codes.go:212 | gun units are described as "Mark-n" plus the suffix | "GU3" gives "Auxiliary Gun Unit, Mark-n3" | "Mark-3", as for shield generators | medium; not executed | ShipCodes.GunMarkAsWritten | ShipCodes.GunMarkCorrected |
| server.go:53-55 | a wrong field count writes a 400 but does not return | from "1 2" panics after the 400; from "1 2 3 4" is answered twice | return after the 400 | high; not executed | Server.ShortFromPanicsAfterAnswering | Server.HandleCalcMishap |
| server.go:106-109 | the squared distance is computed in 64-bit ints | from "0 0 0" to "4294967296 0 0", age 0, gv 1: chance 0 | the chance of a long jump is 100% | low (coordinates that large may never occur); not executed | Server.DistantJumpWrapsToZero | Server.MishapExactBounds |
