/** `cams.infrastructure.repositories.AuctionRepository`: the auction store and
    the state changes the auction service asks of it. The repository checks
    nothing beyond the starting-bid table; the guards live in the service. */
module AuctionRepository {
  import opened Wrappers
  import opened Models
  import opened Lists
  import opened Search
  import VT = VehicleTypes
  import Factories
  import Inventory = VehicleRepository

  /** The configuration the repository is built from: starting bids keyed by
      vehicle class name, and the bid increment. */
  datatype Settings = Settings(startingBids: map<string, int>, bidIncrement: int)

  /** The constructor: a missing or empty starting-bid table is an `ArgumentException`. */
  function NewRepository(startingBids: Option<map<string, int>>, bidIncrement: int): (r: Result<Settings>)
    ensures r.Fail? <==> startingBids.None? || |startingBids.value| == 0
    ensures r.Fail? ==> r.error == Thrown("ArgumentException", "Starting bids configuration is missing or empty.")
    ensures r.Ok? ==> r.value.startingBids == startingBids.value && r.value.bidIncrement == bidIncrement
  {
    if startingBids.None? || |startingBids.value| == 0 then
      Fail(Thrown("ArgumentException", "Starting bids configuration is missing or empty."))
    else Ok(Settings(startingBids.value, bidIncrement))
  }

  /** `GetStartingBid`: the table entry for the vehicle's class name; a class with
      no entry is an `InvalidOperationException` naming the class. */
  function GetStartingBid(cfg: Settings, v: Vehicle): (r: Result<int>)
    ensures r.Ok? <==> TypeName(v) in cfg.startingBids
    ensures r.Ok? ==> r.value == cfg.startingBids[TypeName(v)]
    ensures r.Fail? ==> r.error == Thrown("InvalidOperationException",
                                          "No starting bid defined for vehicle type: " + TypeName(v))
  {
    var typeName := TypeName(v);
    if typeName in cfg.startingBids then Ok(cfg.startingBids[typeName])
    else Fail(Thrown("InvalidOperationException", "No starting bid defined for vehicle type: " + typeName))
  }

  /** A table keyed by the enum members' names finds a bid for every factory-built
      vehicle except a sedan, whose class is `Sedans`; the seeded `Sedan` is found. */
  lemma FactorySedanHasNoStartingBid(cfg: Settings, req: Factories.AddVehicleRequest)
    requires cfg.startingBids.Keys == {"Hatchback", "Sedan", "Suv", "Truck"}
    requires Factories.CreateVehicle(req).Ok?
    ensures GetStartingBid(cfg, Factories.CreateVehicle(req).value).Fail? <==> req.vehicleType == VT.Code(VT.Sedan)
    ensures GetStartingBid(cfg, Inventory.Seed[0]).Ok?
  {
    var v := Factories.CreateVehicle(req).value;
    Factories.CreatedTypeNameIsEnumNameExceptSedan(req);
    assert TypeName(Inventory.Seed[0]) == "Sedan";
    assert "Sedans" !in cfg.startingBids by {
      assert "Sedans" != "Sedan" by { assert |"Sedans"| != |"Sedan"|; }
    }
    match Factories.Category(v)
    case Hatchback => assert TypeName(v) == "Hatchback";
    case Sedan =>
    case Suv => assert TypeName(v) == "Suv";
    case Truck => assert TypeName(v) == "Truck";
  }

  /** `CreateAuctionAsync`: appends an inactive auction named after the vehicle, whose
      starting and current bids are the vehicle's starting bid and whose hammer price
      keeps the `decimal` default 0. Ids are not checked
      for uniqueness. A missing table entry throws and adds nothing. */
  function CreateAuction(cfg: Settings, store: seq<Auction>, id: Guid, v: Vehicle, bidders: seq<Bidder>)
    : (r: Step<seq<Auction>, Auction>)
    ensures r.result.Fail? ==>
              r.state == store && GetStartingBid(cfg, v).Fail? && r.result == Fail(GetStartingBid(cfg, v).error)
    ensures r.result.Ok? <==> TypeName(v) in cfg.startingBids
    ensures r.result.Ok? ==> r.state == store + [r.result.value]
    ensures r.result.Ok? ==> var a := r.result.value;
              && a.id == id && a.vehicle == v && a.bidders == bidders
              && a.name == "Auction for " + v.manufacturer + " " + v.model
              && !a.isActive && a.highestBidder.None?
              && a.startingBid == a.currentBid == cfg.startingBids[TypeName(v)]
              && a.hammerPrice == 0
  {
    match GetStartingBid(cfg, v)
    case Fail(e) => Step(store, Fail(e))
    case Ok(bid) =>
      var a := Auction(id, "Auction for " + v.manufacturer + " " + v.model, bid, v, bidders, None, false, bid, 0);
      Step(store + [a], Ok(a))
  }

  /** `StartAuctionAsync`: only the active flag changes, to true. */
  function Started(a: Auction): (r: Auction)
    ensures r.isActive
    ensures r.(isActive := a.isActive) == a
  {
    a.(isActive := true)
  }

  /** `EndAuctionAsync`: the hammer price is the current bid less one increment, and
      the auction becomes inactive; nothing else changes. */
  function Ended(cfg: Settings, a: Auction): (r: Auction)
    ensures !r.isActive && r.hammerPrice + cfg.bidIncrement == a.currentBid
    ensures r.(isActive := a.isActive, hammerPrice := a.hammerPrice) == a
  {
    a.(hammerPrice := a.currentBid - cfg.bidIncrement, isActive := false)
  }

  /** `PlaceBidAsync`: the current bid becomes the amount plus one increment and the
      bidder becomes the highest bidder; nothing else changes. */
  function BidPlaced(cfg: Settings, a: Auction, bidder: Bidder, amount: int): (r: Auction)
    ensures r.currentBid - cfg.bidIncrement == amount && r.highestBidder == Some(bidder)
    ensures r.(currentBid := a.currentBid, highestBidder := a.highestBidder) == a
  {
    a.(currentBid := amount + cfg.bidIncrement, highestBidder := Some(bidder))
  }

  /** Ending right after a bid records the offered amount as the hammer price;
      ending without any bid records the starting bid less one increment. */
  lemma EndRecordsLastOffer(cfg: Settings, a: Auction, bidder: Bidder, amount: int)
    ensures Ended(cfg, BidPlaced(cfg, a, bidder, amount)).hammerPrice == amount
    ensures a.currentBid == a.startingBid ==> Ended(cfg, a).hammerPrice == a.startingBid - cfg.bidIncrement
  {
  }

  /** The index of the auction `GetAuctionById` returns: the first with the id. */
  function IndexOf(store: seq<Auction>, id: Guid): (r: Option<nat>)
    ensures r.Some? ==> r.value < |store| && store[r.value].id == id
    ensures r.Some? ==> forall j :: 0 <= j < r.value ==> store[j].id != id
    ensures r.None? <==> forall j :: 0 <= j < |store| ==> store[j].id != id
  {
    FindFirst(store, (a: Auction) => a.id == id)
  }

  /** `GetAuctionById`: the first auction with the id, or null. */
  function GetAuctionById(store: seq<Auction>, id: Guid): (r: Option<Auction>)
    ensures r.Some? ==> r.value.id == id && r.value in store
    ensures r.None? <==> forall j :: 0 <= j < |store| ==> store[j].id != id
  {
    match IndexOf(store, id)
    case None => None
    case Some(i) => Some(store[i])
  }

  /** `Search(predicate)`: `Where` over the store. Each matching auction is returned
      as often as it is stored; store order is the subject of `SearchAuctionsAppend`. */
  function SearchAuctions(store: seq<Auction>, p: Auction -> bool): (r: seq<Auction>)
    ensures forall i :: 0 <= i < |r| ==> r[i] in store && p(r[i])
    ensures forall i :: 0 <= i < |store| && p(store[i]) ==> store[i] in r
    ensures forall x :: multiset(r)[x] == if p(x) then multiset(store)[x] else 0
  {
    FilterCounts(store, p);
    Filter(store, p)
  }

  /** The search keeps store order: searching two stores joined together gives the
      first store's matches followed by the second's, and a single auction is
      returned exactly when it matches. */
  lemma SearchAuctionsAppend(a: seq<Auction>, b: seq<Auction>, x: Auction, p: Auction -> bool)
    ensures SearchAuctions(a + b, p) == SearchAuctions(a, p) + SearchAuctions(b, p)
    ensures SearchAuctions([x], p) == if p(x) then [x] else []
  {
    FilterAppend(a, b, p);
    assert Filter([x], p) == (if p(x) then [x] else []) + Filter([x][1..], p);
  }

  /** The lookup by id is the first result of a search with `AuctionIdSearch`. */
  lemma GetByIdIsFirstSearchResult(store: seq<Auction>, id: Guid)
    ensures var found := SearchAuctions(store, (a: Auction) => MatchAuction(AuctionIdSearch(id), a));
            GetAuctionById(store, id) == if |found| == 0 then None else Some(found[0])
  {
    var p := (a: Auction) => MatchAuction(AuctionIdSearch(id), a);
    var q := (a: Auction) => a.id == id;
    FindFirstSamePredicate(store, store, q);
    assert forall i :: 0 <= i < |store| ==> p(store[i]) == q(store[i]);
    FindFirstIsHeadOfFilter(store, q);
    FilterSamePredicate(store, p, q);
  }

  /** `ExistingAuctionByVehicle`: some active auction is for a vehicle with this reference. */
  function ExistingAuctionByVehicle(store: seq<Auction>, vin: string): (r: bool)
    ensures r <==> exists i :: 0 <= i < |store| && store[i].isActive && store[i].vehicle.Reference() == vin
    ensures |store| == 0 ==> !r
  {
    FindFirst(store, (a: Auction) => a.isActive && a.vehicle.Reference() == vin).Some?
  }

  /** The existence check agrees with a search for active auctions of that vehicle. */
  lemma ExistingIffSearchNonEmpty(store: seq<Auction>, vin: string)
    ensures ExistingAuctionByVehicle(store, vin)
            <==> |SearchAuctions(store, (a: Auction) => a.isActive && a.vehicle.Reference() == vin)| > 0
  {
    FindFirstIsHeadOfFilter(store, (a: Auction) => a.isActive && a.vehicle.Reference() == vin);
  }

  /** A created auction is found by its id when the id was fresh, and being inactive
      it does not change which vehicles are in an active auction. */
  lemma CreateThenGet(cfg: Settings, store: seq<Auction>, id: Guid, v: Vehicle, bidders: seq<Bidder>, vin: string)
    requires CreateAuction(cfg, store, id, v, bidders).result.Ok?
    requires forall j :: 0 <= j < |store| ==> store[j].id != id
    ensures var r := CreateAuction(cfg, store, id, v, bidders);
            GetAuctionById(r.state, id) == Some(r.result.value)
            && ExistingAuctionByVehicle(r.state, vin) == ExistingAuctionByVehicle(store, vin)
  {
    var r := CreateAuction(cfg, store, id, v, bidders);
    assert r.state[|store|] == r.result.value;
    if ExistingAuctionByVehicle(r.state, vin) {
      var i :| 0 <= i < |r.state| && r.state[i].isActive && r.state[i].vehicle.Reference() == vin;
      assert i < |store| && r.state[i] == store[i];
    }
    if ExistingAuctionByVehicle(store, vin) {
      var i :| 0 <= i < |store| && store[i].isActive && store[i].vehicle.Reference() == vin;
      assert r.state[i] == store[i];
    }
  }
}
