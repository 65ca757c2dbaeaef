# cams: a Dafny model of the car auction management core

cams keeps an inventory of vehicles, a registry of bidders and a list of auctions.
An auction is created for one vehicle with a list of bidders. It starts inactive
and is then started, bid on and ended. A bid must beat both the starting bid and
the current bid. The repository then sets the current bid to the offer plus a
configured increment. Ending an auction records a hammer price, which is the
current bid less one increment. Starting bids come from a configuration table.

The repository holds two generations of this logic, and both are modelled:

- **Contracts/infrastructure generation.** Vehicle classes `Hatchback`, `Sedan`,
  `Sedans`, `Suv` and `Truck`. In-memory `VehicleRepository`, `BidderRepository`
  and `AuctionRepository`. `VehicleService`, `BidderService` and `AuctionService`
  put validation in front of them. The `ISearch` predicates are combined by
  `SearchAggregator`.
- **Application generation.** A `Vehicle` holds its attributes in a
  `BaseVehicleAttributes` subclass. An older `VehicleRepository` refuses duplicate
  VINs itself. An older `AuctionRepository` does guards and effects in one class,
  with a fixed increment of 100.

Every stateful operation is a pure function from the store (a `seq`) to a `Step`.
A `Step` holds the new store and a `Result`. A FluentResults failure is
`Fail(Returned(message))`. A thrown exception is `Fail(Thrown(type, message))`.
On every failure path the contracts state that the store is unchanged.

Modules, in dependency order: `Wrappers`, `Text` (whitespace, ASCII case folding,
substring search, `int.ToString`, `string.Replace`, GUID rendering), `Lists`
(`Where`, `FirstOrDefault`), `VehicleTypes`, `Models`, `AppModels`, `Factories`,
`Search`, `BidderRepository`, `BidderService`, `VehicleRepository`,
`VehicleService`, `AppVehicleRepository`, `AuctionRepository`, `AuctionService`,
`AppAuctionRepository`.

## Model

| member | source | states |
|---|---|---|
| VehicleTypes.FromCode | cams.application/models/VehicleType.cs:6-27 | An int names a declared member exactly when it is 0 to 3. That member's code is the int. |
| VehicleTypes.CodeRoundTrip | cams.application/models/VehicleType.cs:11-26 | Every declared member is recovered from its underlying value. |
| Factories.CreateVehicle | cams.application/Factory/VehicleFactory.cs:9-23 | An undeclared type throws `ArgumentOutOfRangeException`. A declared type gives a vehicle of that category with the request's VIN, manufacturer, model and year. The category's own number is taken: doors, seats or load. The class for `Sedan` is `Sedans`. |
| Factories.CreatedTypeNameIsEnumNameExceptSedan | cams.application/Factory/VehicleFactory.cs:15-16 | A factory-built vehicle's class name equals the enum member's name exactly when the member is not `Sedan`. A sedan's class name is `Sedans`. |
| Factories.CreateVehicleAttributes | cams.application/factories/VehicleAttributesFactory.cs:7-17 | An undeclared type throws `ArgumentException("Invalid vehicle type")`. Otherwise the attribute class matches the type, and its name without "Attributes" is the enum member's name. |
| Factories.CreateContractAttributes | cams.domain/factories/VehicleAttributesFactory.cs:17-27 | The duplicate factory: it fails exactly on undeclared types, with the same exception, and otherwise matches the type. |
| Factories.BidKeyIsEnumName | cams.application/repositories/AuctionRepository.cs:117 | Removing "Attributes" from an attribute class name gives the enum member's name. |
| Factories.AttributesInjective | cams.application/factories/VehicleAttributesFactory.cs:9-16 | The factory succeeds on every declared type, and two different declared types never get attributes of the same class. |
| Factories.ContractAttributesInjectiveAndTotal | cams.domain/factories/VehicleAttributesFactory.cs:19-26 | The duplicate factory succeeds on all four declared values and gives distinct classes for distinct values. |
| Search.MatchAll | cams.domain/Search/SearchAggregator.cs:5-8 | The aggregator matches exactly when every sub-search matches. |
| Search.MatchAllEmptyAndSingleton | cams.domain/Search/SearchAggregator.cs:7 | With no sub-searches everything matches. With one sub-search the aggregator is that search. |
| Search.MatchAllAppend | cams.domain/Search/SearchAggregator.cs:7 | The aggregator of two lists joined together matches exactly when both lists match. |
| Search.MatchAllSubset | cams.domain/Search/SearchAggregator.cs:7 | Dropping sub-searches never loses a match. |
| Search.MatchAllPermutation | cams.domain/Search/SearchAggregator.cs:7 | The order of the sub-searches does not change the result. |
| Search.ModelMatch | cams.domain/Search/ModelSearch.cs:7-10 | A blank model matches. Otherwise the query must occur in the model, ignoring case. Equal-ignoring-case and empty queries always match. |
| Search.ManufacturerMatch | cams.domain/Search/ManufacturerSearch.cs:7-11 | The same rule for the manufacturer. |
| Search.VinPrefixDoesNotMatch | cams.domain/Search/VinSearch.cs:8-12 | The VIN search is whole-string equality, not containment: a non-blank proper prefix of the vehicle reference does not match. |
| Search.AuctionIdMatchOnlyReadsId | cams.domain/Search/AuctionIdSearch.cs:8-11 | The id search depends only on the auction id. Every auction matches its own id. The empty GUID matches only auctions whose id is empty. |
| BidderRepository.SeedWellFormed | cams.infrastructure/repositories/BidderRepository.cs:8-13 | The registry starts with three bidders. Their ids are distinct and non-empty and their names are not blank. |
| BidderRepository.Create | cams.infrastructure/repositories/BidderRepository.cs:16-21 | The bidder with the given id and name is appended and returned. |
| BidderRepository.GetById | cams.infrastructure/repositories/BidderRepository.cs:24-27 | The result is the first bidder with the id. It is null exactly when no bidder has the id. |
| BidderRepository.CreateThenGet | cams.infrastructure/repositories/BidderRepository.cs:16-27 | After a create under an unused id, that id finds the new bidder. Every other lookup is unchanged. |
| BidderRepository.CreateGrowsAll | cams.infrastructure/repositories/BidderRepository.cs:16-33 | Each create adds one entry to the full list and keeps the earlier entries in order. |
| BidderService.GetBidderById | cams.application/services/BidderService.cs:22-36 | An empty id and an unknown id fail with their messages. Success happens exactly for a non-empty registered id. It returns the repository's lookup result, the first bidder with that id, even when several share it. |
| BidderService.CreateBidder | cams.application/services/BidderService.cs:39-54 | The id is checked before the name. Success happens exactly for a non-empty id and a non-blank name. It stores and returns that bidder. Failures leave the registry alone. |
| BidderService.CreateThenGetBidder | cams.application/services/BidderService.cs:22-54 | A bidder created through the service under a fresh id is returned by a later lookup of that id. |
| BidderService.GetAllBidders | cams.application/services/BidderService.cs:57-64 | Success happens exactly when the registry is non-empty. An empty registry fails with "No bidders found.". |
| VehicleRepository.SeedWellFormed | cams.infrastructure/repositories/VehicleRepository.cs:8-15 | The inventory starts with four Toyota vehicles with distinct VINs. The first is of class `Sedan`. |
| VehicleRepository.Add | cams.infrastructure/repositories/VehicleRepository.cs:18-22 | The vehicle is appended whatever its VIN and is returned. |
| VehicleRepository.GetByVin | cams.infrastructure/repositories/VehicleRepository.cs:25-29 | The result is the first vehicle whose reference is the VIN. It is null exactly when none has it. |
| VehicleRepository.Search | cams.infrastructure/repositories/VehicleRepository.cs:32-35 | The result holds each matching vehicle exactly as often as the inventory does, and nothing that fails the predicate. |
| VehicleRepository.SearchAppend | cams.infrastructure/repositories/VehicleRepository.cs:34 | The search keeps inventory order: it distributes over joining two inventories, and a single vehicle comes back exactly when it matches. |
| VehicleRepository.ExistsInActiveAuction | cams.infrastructure/repositories/VehicleRepository.cs:38-41 | Whatever its name says, the result is true exactly when the VIN is in the inventory. It agrees with the lookup by VIN. |
| VehicleRepository.LookupAfterAdd | cams.infrastructure/repositories/VehicleRepository.cs:18-47 | The seeded VIN is found. An add never changes an earlier successful lookup. The added VIN is found afterwards. |
| VehicleService.AddVehicle | cams.application/services/VehicleService.cs:27-40 | Success happens exactly when the factory accepts the request and the VIN is not stored. A stored VIN fails with "Vehicle already exists.". Success appends the factory's vehicle. Failures leave the inventory alone. |
| VehicleService.AddVehicleKeepsReferencesDistinct | cams.application/services/VehicleService.cs:32-38 | Adding through the service keeps the stored references pairwise distinct. |
| VehicleService.GetVehicleByVin | cams.application/services/VehicleService.cs:43-52 | The lookup fails exactly for a blank VIN. Otherwise it succeeds with the repository's answer, which is null for an unknown VIN. |
| VehicleService.SearchesMatchCriteria | cams.application/services/VehicleService.cs:67-84 | The aggregator built from the request accepts exactly the vehicles that satisfy every supplied criterion. A year criterion is added only when the year is present and non-zero, and then needs the vehicle's year to equal it. |
| VehicleService.SearchVehicles | cams.application/services/VehicleService.cs:55-89 | A request with no criterion fails. A year whose text is shorter than four characters fails, with or without other criteria; that is a year strictly between -100 and 1000. Otherwise the result is the stored vehicles that satisfy every supplied criterion, in store order. |
| AppVehicleRepository.CreateVehicle | cams.application/repositories/VehicleRepository.cs:9-20 | A stored VIN fails with "Vehicle with this VIN already exists.". An undeclared type throws in the attributes factory. Success appends a vehicle with the given VIN, type, manufacturer, model and year, and attributes that match the type. |
| AppVehicleRepository.CreateAllKeepsVinsDistinct | cams.application/repositories/VehicleRepository.cs:11-19 | Any sequence of creates keeps the stored VINs pairwise distinct. |
| AppVehicleRepository.GetVehicleByVin | cams.application/repositories/VehicleRepository.cs:27-35 | The lookup fails with "Vehicle not found." exactly when no vehicle has the VIN. Otherwise it returns a stored vehicle with that VIN. |
| AppVehicleRepository.CreateThenGet | cams.application/repositories/VehicleRepository.cs:9-35 | A created vehicle is what a later lookup of its VIN returns, and the full list ends with it. |
| AuctionRepository.NewRepository | cams.infrastructure/repositories/AuctionRepository.cs:21-29 | A missing or empty starting-bid table throws `ArgumentException`. Otherwise the table and the increment are kept. |
| AuctionRepository.GetStartingBid | cams.infrastructure/repositories/AuctionRepository.cs:99-107 | The bid is the table entry for the vehicle's class name. A class with no entry throws `InvalidOperationException` naming the class. |
| AuctionRepository.FactorySedanHasNoStartingBid | cams.infrastructure/repositories/AuctionRepository.cs:101-106 | With a table keyed by the four enum names, every factory-built vehicle has a starting bid except a sedan. The seeded `Sedan` has one. |
| AuctionRepository.CreateAuction | cams.infrastructure/repositories/AuctionRepository.cs:32-48 | Creation succeeds exactly when the class has a starting bid. It appends an inactive auction with no highest bidder, named "Auction for" plus manufacturer and model. Its starting and current bids both equal the table entry, and its hammer price is 0. A missing entry leaves the store alone. |
| AuctionRepository.Ended | cams.infrastructure/repositories/AuctionRepository.cs:51-56 | Ending makes the auction inactive and sets the hammer price so that price plus increment is the current bid. Nothing else changes. |
| AuctionRepository.BidPlaced | cams.infrastructure/repositories/AuctionRepository.cs:65-71 | The new current bid less the increment is the offer, and the bidder becomes the highest bidder. Nothing else changes. |
| AuctionRepository.Started | cams.infrastructure/repositories/AuctionRepository.cs:86-90 | The auction becomes active and nothing else changes. |
| AuctionRepository.EndRecordsLastOffer | cams.tests/Repositories/AuctionRepositoryTests.cs:70-78 | Ending right after a bid records the offered amount as the hammer price. Ending with no bid records the starting bid less one increment. |
| AuctionRepository.IndexOf | cams.infrastructure/repositories/AuctionRepository.cs:61 | The index is the first position holding the id. There is none exactly when no auction has the id. |
| AuctionRepository.GetAuctionById | cams.infrastructure/repositories/AuctionRepository.cs:59-62 | The result is a stored auction with the id. It is null exactly when no auction has the id. |
| AuctionRepository.SearchAuctions | cams.infrastructure/repositories/AuctionRepository.cs:80-83 | The result holds each matching auction exactly as often as the store does, and nothing that fails the predicate. |
| AuctionRepository.SearchAuctionsAppend | cams.infrastructure/repositories/AuctionRepository.cs:82 | The search keeps store order: it distributes over joining two stores, and a single auction comes back exactly when it matches. |
| AuctionRepository.GetByIdIsFirstSearchResult | cams.infrastructure/repositories/AuctionRepository.cs:59-83 | The lookup by id equals the head of a search with `AuctionIdSearch`, or null when that search finds nothing. |
| AuctionRepository.ExistingAuctionByVehicle | cams.infrastructure/repositories/AuctionRepository.cs:74-77 | The result is true exactly when some active auction is for a vehicle with that reference. An empty store gives false. |
| AuctionRepository.ExistingIffSearchNonEmpty | cams.tests/Repositories/AuctionRepositoryTests.cs:81-86 | The existence check holds exactly when a search for active auctions of that vehicle is non-empty. |
| AuctionRepository.CreateThenGet | cams.infrastructure/repositories/AuctionRepository.cs:32-77 | An auction created under a fresh id is found by that id. Being inactive, it does not change which vehicles are in an active auction. |
| AuctionService.StartAuction | cams.application/services/AuctionService.cs:24-44 | A missing auction and an active one fail with their messages. Success happens exactly for an existing inactive auction whose start time is not ahead. Success activates only that auction. |
| AuctionService.EndAuction | cams.application/services/AuctionService.cs:46-66 | A missing auction and an inactive one fail with their messages. Success happens exactly for an active auction whose end-time guard passes. Success ends only that auction. |
| AuctionService.PlaceBid | cams.application/services/AuctionService.cs:68-90 | A missing or inactive auction fails, and so does an unregistered bidder. Success happens exactly when the bidder is listed and the offer beats both the starting and the current bid. Success applies the repository's bid to that auction only. |
| AuctionService.BidAtBoundRejected | cams.application/services/AuctionService.cs:82-86 | An offer equal to the starting bid or to the current bid is refused and leaves the store alone. |
| AuctionService.AcceptedBidRaisesCurrentBid | cams.application/services/AuctionService.cs:82-87 | With a non-negative increment, an accepted bid raises the current bid to at least the offer. The bidder becomes the highest bidder. |
| AuctionService.BidThenEndRecordsAmount | cams.application/services/AuctionService.cs:46-90 | An accepted bid followed by a successful end leaves the auction inactive with the offered amount as its hammer price. |
| AuctionService.StartTwiceFails | cams.application/services/AuctionService.cs:32-35 | After a successful start, a second start fails with "Auction is already active." and changes nothing. |
| AuctionService.Message | cams.tests/Services/AuctionServiceTests.cs:42-91 | Every creation error message contains the fragment its test looks for. |
| AuctionService.CreateAuction | cams.tests/Services/AuctionServiceTests.cs:35-113 | Creation is refused for an empty bidder list, an invalid or unregistered bidder, a vehicle missing from the inventory, and a vehicle already in an active auction. Each refusal mentions its fragment and leaves the store alone. A request that passes every guard gets exactly the repository's creation, and success happens only that way. |
| AuctionService.StartAuctionChecked | cams.application/services/AuctionService.cs:24-44 | The corrected start succeeds exactly when the source's start would and the vehicle is not already in an active auction. It keeps "at most one active auction per vehicle". |
| AuctionService.UncheckedStartActivatesTwoAuctions | cams.application/services/AuctionService.cs:24-44 | Take any inventory vehicle with a starting bid, one valid registered bidder and two distinct ids. Two auctions created and started through the service as written leave the vehicle in two active auctions. The corrected start refuses the second. |
| AuctionService.SeedAdmitsTwoActiveAuctions | cams.infrastructure/repositories/VehicleRepository.cs:8-15 | The seeded sedan and the first seeded bidder meet those conditions under a table with a "Sedan" entry. |
| AuctionService.ApplyPreserves | cams.application/services/AuctionService.cs:24-90 | One create, corrected start (`StartAuctionChecked`, not the start as written), end or bid keeps every highest bidder listed among its auction's bidders. It also keeps each vehicle in at most one active auction and lowers no current bid. The start as written breaks the middle invariant (first Findings row). |
| AuctionService.RunPreserves | cams.application/services/AuctionService.cs:24-90 | The same holds over any sequence of these operations, again with the corrected start. |
| AppAuctionRepository.NewRepository | cams.application/repositories/AuctionRepository.cs:14-25 | A missing or empty table throws `ArgumentException`. Next, a missing vehicle repository throws `ArgumentNullException`, whose message ends with the parameter name. Otherwise the table is kept. |
| AppAuctionRepository.GetStartingBid | cams.application/repositories/AuctionRepository.cs:115-123 | The lookup key is the enum member's name for the attribute class. A missing key throws `InvalidOperationException` naming it. |
| AppAuctionRepository.StartingBidKeyedByEnumName | cams.application/repositories/AuctionRepository.cs:117-120 | With table entries for the four enum names, every declared type has a starting bid, sedans included. |
| AppAuctionRepository.CreateAuctionAsWritten | cams.application/repositories/AuctionRepository.cs:27-60 | As written, creation throws when the vehicle IS in the inventory. It succeeds only for a vehicle missing from the inventory that is in no active auction and has a starting bid. |
| AppAuctionRepository.CreateAsWrittenRefusesInventoryVehicles | cams.application/repositories/AuctionRepository.cs:30-35 | As written, no inventory vehicle can ever be auctioned. |
| AppAuctionRepository.CreateAuction | cams.application/repositories/AuctionRepository.cs:27-60 | Corrected: a vehicle missing from the inventory, or already in an active auction, fails with its message. Success appends an inactive auction whose starting bid is the table entry and whose current bid is 0. |
| AppAuctionRepository.FindAuction | cams.application/repositories/AuctionRepository.cs:64 | The index is the first auction with the id and the wanted activity. There is none exactly when no auction has both. |
| AppAuctionRepository.EndAuction | cams.application/repositories/AuctionRepository.cs:62-72 | Ending fails exactly when no active auction has the id. Otherwise the first one becomes inactive and nothing else changes. |
| AppAuctionRepository.PlaceBid | cams.application/repositories/AuctionRepository.cs:74-101 | The bid needs an active auction and a bidder id listed by some auction with that id. The offer must beat both bids. The new current bid is the offer plus 100, the bidder becomes the highest bidder, and nothing else changes. |
| AppAuctionRepository.StartAuctionAsWritten | cams.application/repositories/AuctionRepository.cs:103-113 | As written, the start looks up an ACTIVE auction. It fails when there is none and never changes the store. |
| AppAuctionRepository.StartAsWrittenNeverStartsNewAuction | cams.application/repositories/AuctionRepository.cs:105-108 | An auction just created under a fresh id cannot be started as written. |
| AppAuctionRepository.StartAuction | cams.application/repositories/AuctionRepository.cs:103-113 | Corrected: the first inactive auction with the id becomes active and nothing else changes. The start fails exactly when there is none. |
| AppAuctionRepository.Lifecycle | cams.application/repositories/AuctionRepository.cs:27-113 | Through the corrected members, an auction for an inventory vehicle that is in no active auction and has a starting bid is created under a fresh id, started, bid on by one of its bidders and ended. It then holds the offer plus 100 and that bidder, and a second end fails. |

## Left out

- I/O and hosting are not modelled because they hold no auction logic: controllers, mappers, response DTOs, dependency injection, `Task`/`async` plumbing.
- Concurrency on the shared static lists is not modelled: each operation is atomic over an explicit store value.
- Wall-clock reads are not modelled. Whether the start time is ahead and whether the end time is behind are boolean parameters.
- The service's end guard as written refuses when the end time has already passed, while its message says "before the end time". The parameter is named for what the code tests.
- `decimal` money is modelled as `int`. Configuration values are whole numbers here, and no rounding occurs in the code.
- GUIDs are modelled as 128-bit values, printed as 32 lower-case hex digits grouped 8-4-4-4-12. Null strings are modelled as the empty string, since the code only asks whether a string is null or blank.
- Search.ModelMatch: culture-aware case folding (`CurrentCultureIgnoreCase`, `OrdinalIgnoreCase`) folds ASCII letters only here, because the model has no Unicode tables.
- Search.ManufacturerMatch: same ASCII-only folding, for the same reason.
- Search.VinPrefixDoesNotMatch: the VIN search's `OrdinalIgnoreCase` equality folds ASCII letters only, for the same reason.
- AuctionService.ApplyPreserves: the start it applies is the corrected `StartAuctionChecked`, because the start as written does not keep each vehicle in at most one active auction (see Findings).
- AuctionService.RunPreserves: the same corrected start, for the same reason.
- `Vehicle.Reference` is not declared in the vehicle classes shown. It is modelled as the VIN, which is what every caller compares it with.
- The vehicle factory switches on the contracts `VehicleType`, which is not part of this model. It is assumed to have the same four members and values as the application enum.
- The add-vehicle request's nullable counts are passed to `int` constructor parameters. They are modelled as plain ints.
- The application `Vehicle` class shown has only a (vin, type) constructor, but the older vehicle repository calls a five-argument one. The model builds the vehicle from the type's attributes and stores manufacturer, model and year in them.
- Reading `.Value` of a failed FluentResults result throws. The model gives this as `InvalidOperationException` carrying the failed result's own message; the library's exact wording is not modelled.
- The service's `PlaceBid` checks registration with `List.Contains`, which compares references. It is modelled as membership of an equal bidder value.
- The service's `CreateAuctionAsync` throws `NotImplementedException` in the code shown, and the application auction interface it uses has no id lookup. Creation is modelled from its tests over the infrastructure repository, and start, end and bid from the service code over that same repository. The tests fix only a fragment of each refusal message; the surrounding words are the model's.
- VehicleRepository.GetAll and AppVehicleRepository.GetAllVehicles return the store itself; their properties are stated in CreateGrowsAll, LookupAfterAdd and CreateThenGet, not in their own contracts.
- The plain record classes (`Bidder`, the vehicle classes, the attribute classes, `Auction`) are datatypes with no behaviour of their own. The `Sedan` constructor's default of four doors is `Models.NewSedan`.

Behaviour of the code that a reader might not expect:

- `GetAllBiddersAsync` fails on an empty registry.
- The service start does not re-check the vehicle (see Findings).
- An auction ended without any bid gets a hammer price of the starting bid less one increment.
- `ExistsInActiveAuction` consults only the inventory.

## Findings

| source | as written | input that shows it | evidently intended | confidence | as-written member | corrected member |
|---|---|---|---|---|---|---|
| cams.application/services/AuctionService.cs:24-44 | Start checks existence, activity and start time, but not whether the vehicle is already in another active auction. | Two inactive auctions for the seeded VIN1234567890 with the first seeded bidder, under two different ids, both started: the vehicle is in two active auctions. | Start refuses a vehicle already in an active auction, as creation does. | not executed | AuctionService.UncheckedStartActivatesTwoAuctions | AuctionService.StartAuctionChecked |
| cams.application/repositories/AuctionRepository.cs:30-35 | Creation refuses when the inventory lookup did NOT fail, and reads `.Value` of the failed result, which throws. | Any vehicle stored in the inventory: creation throws "Invalid vehicle for auction. Vehicle must exist in the inventory." | Refuse, with a failed result, only vehicles missing from the inventory. | not executed | AppAuctionRepository.CreateAsWrittenRefusesInventoryVehicles | AppAuctionRepository.CreateAuction |
| cams.application/repositories/AuctionRepository.cs:103-113 | Start looks up an auction with `IsActive == true`, so it only re-activates active auctions. | A freshly created (inactive) auction: start fails with "Auction not found or already active.". | Look up an inactive auction and activate it. | not executed | AppAuctionRepository.StartAsWrittenNeverStartsNewAuction | AppAuctionRepository.StartAuction |
