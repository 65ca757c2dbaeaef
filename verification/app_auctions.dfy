/** `cams.application.repositories.AuctionRepository`: the older repository that
    holds guards and effects in one class, over the application model, with a
    fixed bid increment of 100. Two of its guards are inverted; each is modelled
    as written and next to it as evidently intended. */
module AppAuctionRepository {
  import opened Wrappers
  import opened Text
  import opened Lists
  import opened AppModels
  import opened VehicleTypes
  import M = Models
  import Factories
  import Inventory = AppVehicleRepository

  /** The increment the repository adds to an accepted bid. */
  const BidIncrement: int := 100

  /** The constructor: the starting-bid table is checked first, then the vehicle
      repository. */
  function NewRepository(startingBids: Option<map<string, int>>, hasVehicleRepository: bool): (r: Result<map<string, int>>)
    ensures r.Ok? <==> startingBids.Some? && |startingBids.value| > 0 && hasVehicleRepository
    ensures (startingBids.None? || |startingBids.value| == 0) ==>
              r == Fail(Thrown("ArgumentException", "Starting bids configuration is missing or empty."))
    ensures startingBids.Some? && |startingBids.value| > 0 && !hasVehicleRepository ==>
              r == Fail(Thrown("ArgumentNullException", "Vehicle repository cannot be null. (Parameter 'vehicleRepository')"))
    ensures r.Ok? ==> r.value == startingBids.value
  {
    if startingBids.None? || |startingBids.value| == 0 then
      Fail(Thrown("ArgumentException", "Starting bids configuration is missing or empty."))
    else if !hasVehicleRepository then
      Fail(Thrown("ArgumentNullException", "Vehicle repository cannot be null. (Parameter 'vehicleRepository')"))
    else Ok(startingBids.value)
  }

  /** `GetStartingBid`: the key is the attribute class name with "Attributes"
      removed, which is the enum member's name; a missing key throws. */
  function GetStartingBid(bids: map<string, int>, attributes: VehicleAttributes): (r: Result<int>)
    ensures var key := EnumName(Factories.AttributesCategory(attributes.detail));
            && (r.Ok? <==> key in bids)
            && (r.Ok? ==> r.value == bids[key])
            && (r.Fail? ==> r.error == Thrown("InvalidOperationException", "No starting bid defined for vehicle type: " + key))
  {
    Factories.BidKeyIsEnumName(attributes.detail);
    var typeName := BidKey(attributes.detail);
    if typeName in bids then Ok(bids[typeName])
    else Fail(Thrown("InvalidOperationException", "No starting bid defined for vehicle type: " + typeName))
  }

  /** Unlike the class-name key of the infrastructure repository, this key is the
      same for every vehicle of a declared type, sedans included. */
  lemma StartingBidKeyedByEnumName(bids: map<string, int>, vehicleType: int)
    requires "Hatchback" in bids && "Sedan" in bids && "Suv" in bids && "Truck" in bids
    requires 0 <= vehicleType <= 3
    ensures Factories.CreateVehicleAttributes(vehicleType).Ok?
    ensures GetStartingBid(bids, Factories.CreateVehicleAttributes(vehicleType).value).Ok?
  {
    var d := Factories.CreateVehicleAttributes(vehicleType).value.detail;
    match Factories.AttributesCategory(d)
    case Hatchback => assert EnumName(Hatchback) in bids;
    case Sedan => assert EnumName(Sedan) in bids;
    case Suv => assert EnumName(Suv) in bids;
    case Truck => assert EnumName(Truck) in bids;
  }

  /** Some auction of the store is active and for a vehicle with this VIN. */
  predicate InActiveAuction(store: seq<AppAuction>, vin: string)
  {
    exists i :: 0 <= i < |store| && store[i].vehicle.vin == vin && store[i].isActive
  }

  /** The auction a successful create appends: inactive, no bid yet. */
  function NewAuction(bid: int, id: M.Guid, vehicle: AppVehicle, startTime: int, endTime: int, bidders: seq<M.Bidder>): AppAuction
  {
    AppAuction(id, "Auction for " + vehicle.attributes.manufacturer + " " + vehicle.attributes.model,
               bid, vehicle, bidders, None, false, 0, startTime, endTime)
  }

  /** `CreateAuctionAsync` as written: it refuses when the inventory lookup
      SUCCEEDS, and both refusals read `.Value` of a failed result, which throws. */
  function CreateAuctionAsWritten(bids: map<string, int>, inventory: seq<AppVehicle>, store: seq<AppAuction>,
                                  id: M.Guid, vehicle: AppVehicle, startTime: int, endTime: int, bidders: seq<M.Bidder>)
    : (r: Step<seq<AppAuction>, AppAuction>)
    ensures r.result.Fail? ==> r.state == store
    ensures Inventory.GetVehicleByVin(inventory, vehicle.vin).Ok? ==>
              r.result == Fail(Thrown("InvalidOperationException", "Invalid vehicle for auction. Vehicle must exist in the inventory."))
    ensures r.result.Ok? <==> Inventory.GetVehicleByVin(inventory, vehicle.vin).Fail?
                              && !InActiveAuction(store, vehicle.vin)
                              && GetStartingBid(bids, vehicle.attributes).Ok?
    ensures r.result.Ok? ==>
              && (forall i :: 0 <= i < |inventory| ==> inventory[i].vin != vehicle.vin)
              && r.state == store + [r.result.value]
              && r.result.value == NewAuction(GetStartingBid(bids, vehicle.attributes).value, id, vehicle, startTime, endTime, bidders)
  {
    if !Inventory.GetVehicleByVin(inventory, vehicle.vin).Fail? then
      Step(store, Fail(Thrown("InvalidOperationException", "Invalid vehicle for auction. Vehicle must exist in the inventory.")))
    else if FindFirst(store, (a: AppAuction) => a.vehicle.vin == vehicle.vin && a.isActive).Some? then
      Step(store, Fail(Thrown("InvalidOperationException", "Vehicle is already in an active auction.")))
    else match GetStartingBid(bids, vehicle.attributes)
      case Fail(e) => Step(store, Fail(e))
      case Ok(bid) =>
        var a := NewAuction(bid, id, vehicle, startTime, endTime, bidders);
        Step(store + [a], Ok(a))
  }

  /** The discrepancy: a vehicle that is in the inventory can never be auctioned. */
  lemma CreateAsWrittenRefusesInventoryVehicles(bids: map<string, int>, inventory: seq<AppVehicle>, store: seq<AppAuction>,
                                                id: M.Guid, vehicle: AppVehicle, startTime: int, endTime: int,
                                                bidders: seq<M.Bidder>)
    requires vehicle in inventory
    ensures CreateAuctionAsWritten(bids, inventory, store, id, vehicle, startTime, endTime, bidders).result.Fail?
    ensures CreateAuctionAsWritten(bids, inventory, store, id, vehicle, startTime, endTime, bidders).state == store
  {
    var i :| 0 <= i < |inventory| && inventory[i] == vehicle;
    assert inventory[i].vin == vehicle.vin;
  }

  /** `CreateAuctionAsync` as evidently intended: a vehicle missing from the
      inventory, or already in an active auction, is refused with a failed result. */
  function CreateAuction(bids: map<string, int>, inventory: seq<AppVehicle>, store: seq<AppAuction>,
                         id: M.Guid, vehicle: AppVehicle, startTime: int, endTime: int, bidders: seq<M.Bidder>)
    : (r: Step<seq<AppAuction>, AppAuction>)
    ensures r.result.Fail? ==> r.state == store
    ensures Inventory.GetVehicleByVin(inventory, vehicle.vin).Fail? ==>
              r.result == Fail(Returned("Invalid vehicle for auction. Vehicle must exist in the inventory."))
    ensures Inventory.GetVehicleByVin(inventory, vehicle.vin).Ok? && InActiveAuction(store, vehicle.vin) ==>
              r.result == Fail(Returned("Vehicle is already in an active auction."))
    ensures r.result.Ok? <==> (exists i :: 0 <= i < |inventory| && inventory[i].vin == vehicle.vin)
                              && !InActiveAuction(store, vehicle.vin)
                              && GetStartingBid(bids, vehicle.attributes).Ok?
    ensures r.result.Ok? ==>
              && r.state == store + [r.result.value]
              && r.result.value == NewAuction(GetStartingBid(bids, vehicle.attributes).value, id, vehicle, startTime, endTime, bidders)
  {
    if Inventory.GetVehicleByVin(inventory, vehicle.vin).Fail? then
      Step(store, Fail(Returned("Invalid vehicle for auction. Vehicle must exist in the inventory.")))
    else if FindFirst(store, (a: AppAuction) => a.vehicle.vin == vehicle.vin && a.isActive).Some? then
      Step(store, Fail(Returned("Vehicle is already in an active auction.")))
    else match GetStartingBid(bids, vehicle.attributes)
      case Fail(e) => Step(store, Fail(e))
      case Ok(bid) =>
        var a := NewAuction(bid, id, vehicle, startTime, endTime, bidders);
        Step(store + [a], Ok(a))
  }

  /** The index of the first auction with the id that is active (`wantActive`) or
      inactive; the source's lookups all ask for the active one. */
  function FindAuction(store: seq<AppAuction>, id: M.Guid, wantActive: bool): (r: Option<nat>)
    ensures r.Some? ==> r.value < |store| && store[r.value].id == id && store[r.value].isActive == wantActive
    ensures r.Some? ==> forall j :: 0 <= j < r.value ==> !(store[j].id == id && store[j].isActive == wantActive)
    ensures r.None? <==> forall j :: 0 <= j < |store| ==> !(store[j].id == id && store[j].isActive == wantActive)
  {
    FindFirst(store, (a: AppAuction) => a.id == id && a.isActive == wantActive)
  }

  /** `store'` differs from `store` at most at index `i`. */
  predicate OnlyAt(store: seq<AppAuction>, store': seq<AppAuction>, i: nat)
  {
    |store'| == |store| && forall j :: 0 <= j < |store| && j != i ==> store'[j] == store[j]
  }

  /** `EndAuctionAsync`: the first active auction with the id becomes inactive. */
  function EndAuction(store: seq<AppAuction>, id: M.Guid): (r: Step<seq<AppAuction>, ()>)
    ensures r.result.Fail? <==> forall j :: 0 <= j < |store| ==> !(store[j].id == id && store[j].isActive)
    ensures r.result.Fail? ==> r.state == store && r.result.error == Returned("Auction not found or already ended.")
    ensures r.result.Ok? ==>
              FindAuction(store, id, true).Some? &&
              var i := FindAuction(store, id, true).value;
              OnlyAt(store, r.state, i) && !r.state[i].isActive && r.state[i].(isActive := true) == store[i]
  {
    match FindAuction(store, id, true)
    case None => Step(store, Fail(Returned("Auction not found or already ended.")))
    case Some(i) => Step(store[i := store[i].(isActive := false)], Ok(()))
  }

  /** Registration as the source checks it: some auction with the id, not
      necessarily the one being bid on, lists a bidder with the bidder's id. */
  predicate Registered(store: seq<AppAuction>, id: M.Guid, bidder: M.Bidder)
  {
    exists j, k :: 0 <= j < |store| && store[j].id == id && 0 <= k < |store[j].bidders|
                   && store[j].bidders[k].id == bidder.id
  }

  /** `PlaceBidAsync`: the auction must be found active, the bidder registered,
      and the amount strictly above both bids; the current bid becomes the
      amount plus 100. */
  function PlaceBid(store: seq<AppAuction>, id: M.Guid, bidder: M.Bidder, amount: int): (r: Step<seq<AppAuction>, ()>)
    ensures r.result.Fail? ==> r.state == store
    ensures FindAuction(store, id, true).None? ==> r.result == Fail(Returned("Auction not found or not active."))
    ensures FindAuction(store, id, true).Some? && !Registered(store, id, bidder) ==>
              r.result == Fail(Returned("Bidder is not registered for this auction."))
    ensures r.result.Ok? <==> FindAuction(store, id, true).Some? && Registered(store, id, bidder)
                              && amount > store[FindAuction(store, id, true).value].startingBid
                              && amount > store[FindAuction(store, id, true).value].currentBid
    ensures r.result.Ok? ==>
              FindAuction(store, id, true).Some? &&
              var i := FindAuction(store, id, true).value;
              && OnlyAt(store, r.state, i)
              && r.state[i].currentBid == amount + BidIncrement > store[i].currentBid + BidIncrement
              && r.state[i].highestBidder == Some(bidder)
              && r.state[i].(currentBid := store[i].currentBid, highestBidder := store[i].highestBidder) == store[i]
  {
    match FindAuction(store, id, true)
    case None => Step(store, Fail(Returned("Auction not found or not active.")))
    case Some(i) =>
      var registered := FindFirst(store, (a: AppAuction) => a.id == id
                                   && FindFirst(a.bidders, (b: M.Bidder) => b.id == bidder.id).Some?).Some?;
      if !registered then Step(store, Fail(Returned("Bidder is not registered for this auction.")))
      else if !(amount > store[i].startingBid && amount > store[i].currentBid) then
        Step(store, Fail(Returned("Bid amount must be greater than the starting bid and the current highest bid.")))
      else Step(store[i := store[i].(currentBid := amount + BidIncrement, highestBidder := Some(bidder))], Ok(()))
  }

  /** `StartAuctionAsync` as written: its lookup asks for an ACTIVE auction, so it
      either fails or sets an already-set flag. */
  function StartAuctionAsWritten(store: seq<AppAuction>, id: M.Guid): (r: Step<seq<AppAuction>, ()>)
    ensures r.result.Fail? <==> forall j :: 0 <= j < |store| ==> !(store[j].id == id && store[j].isActive)
    ensures r.result.Fail? ==> r.result.error == Returned("Auction not found or already active.")
    ensures r.state == store
  {
    match FindAuction(store, id, true)
    case None => Step(store, Fail(Returned("Auction not found or already active.")))
    case Some(i) =>
      assert store[i].(isActive := true) == store[i];
      Step(store[i := store[i].(isActive := true)], Ok(()))
  }

  /** The discrepancy: an auction that is not yet active, such as a freshly created
      one, cannot be started. */
  lemma StartAsWrittenNeverStartsNewAuction(bids: map<string, int>, inventory: seq<AppVehicle>, store: seq<AppAuction>,
                                            id: M.Guid, vehicle: AppVehicle, startTime: int, endTime: int,
                                            bidders: seq<M.Bidder>)
    requires forall j :: 0 <= j < |store| ==> store[j].id != id
    requires CreateAuction(bids, inventory, store, id, vehicle, startTime, endTime, bidders).result.Ok?
    ensures var s := CreateAuction(bids, inventory, store, id, vehicle, startTime, endTime, bidders).state;
            StartAuctionAsWritten(s, id).result == Fail(Returned("Auction not found or already active."))
  {
    var s := CreateAuction(bids, inventory, store, id, vehicle, startTime, endTime, bidders).state;
    assert forall j :: 0 <= j < |s| ==> !(s[j].id == id && s[j].isActive) by {
      forall j | 0 <= j < |s| ensures !(s[j].id == id && s[j].isActive) {
        if j < |store| {
          assert s[j] == store[j];
        }
      }
    }
  }

  /** `StartAuctionAsync` as evidently intended: the first inactive auction with the
      id becomes active. */
  function StartAuction(store: seq<AppAuction>, id: M.Guid): (r: Step<seq<AppAuction>, ()>)
    ensures r.result.Fail? <==> forall j :: 0 <= j < |store| ==> !(store[j].id == id && !store[j].isActive)
    ensures r.result.Fail? ==> r.state == store && r.result.error == Returned("Auction not found or already active.")
    ensures r.result.Ok? ==>
              FindAuction(store, id, false).Some? &&
              var i := FindAuction(store, id, false).value;
              OnlyAt(store, r.state, i) && r.state[i].isActive && r.state[i].(isActive := false) == store[i]
  {
    match FindAuction(store, id, false)
    case None => Step(store, Fail(Returned("Auction not found or already active.")))
    case Some(i) => Step(store[i := store[i].(isActive := true)], Ok(()))
  }

  /** The auction at index `n`, the last, is the only one with the id. */
  predicate OnlyLastHasId(s: seq<AppAuction>, n: nat, id: M.Guid)
  {
    |s| == n + 1 && s[n].id == id && forall j :: 0 <= j < n ==> s[j].id != id
  }

  /** When only the last auction has the id, every lookup by id that it satisfies finds it. */
  lemma FoundLast(s: seq<AppAuction>, n: nat, id: M.Guid)
    requires OnlyLastHasId(s, n, id)
    ensures FindAuction(s, id, s[n].isActive) == Some(n)
    ensures FindAuction(s, id, !s[n].isActive).None?
  {
  }

  /** A change at the last index that keeps its id keeps it the only one with the id. */
  lemma ChangeAtLastKeepsId(s: seq<AppAuction>, s': seq<AppAuction>, n: nat, id: M.Guid)
    requires OnlyLastHasId(s, n, id) && OnlyAt(s, s', n) && s'[n].id == id
    ensures OnlyLastHasId(s', n, id)
  {
    forall j | 0 <= j < n ensures s'[j].id != id {
      assert s'[j] == s[j];
    }
  }

  /** The lifecycle through the corrected members: an auction created under a fresh
      id can be started, bid on by one of its bidders and ended; it then holds the
      bid plus 100 and the bidder, and a second end fails. */
  lemma Lifecycle(bids: map<string, int>, inventory: seq<AppVehicle>, store: seq<AppAuction>,
                  id: M.Guid, vehicle: AppVehicle, startTime: int, endTime: int, bidders: seq<M.Bidder>,
                  k: nat, amount: int)
    requires forall j :: 0 <= j < |store| ==> store[j].id != id
    requires vehicle in inventory && !InActiveAuction(store, vehicle.vin)
    requires EnumName(Factories.AttributesCategory(vehicle.attributes.detail)) in bids
    requires k < |bidders|
    requires amount > bids[EnumName(Factories.AttributesCategory(vehicle.attributes.detail))] && amount > 0
    ensures var c := CreateAuction(bids, inventory, store, id, vehicle, startTime, endTime, bidders);
            var s := StartAuction(c.state, id);
            var b := PlaceBid(s.state, id, bidders[k], amount);
            var e := EndAuction(b.state, id);
            && c.result.Ok? && s.result.Ok? && b.result.Ok? && e.result.Ok?
            && e.state[|store|].currentBid == amount + BidIncrement
            && e.state[|store|].highestBidder == Some(bidders[k])
            && !e.state[|store|].isActive
            && EndAuction(e.state, id).result.Fail?
  {
    var n := |store|;
    assert exists i :: 0 <= i < |inventory| && inventory[i].vin == vehicle.vin by {
      var i :| 0 <= i < |inventory| && inventory[i] == vehicle;
    }
    var s0 := CreateAuction(bids, inventory, store, id, vehicle, startTime, endTime, bidders).state;
    assert OnlyLastHasId(s0, n, id) by {
      forall j | 0 <= j < n ensures s0[j].id != id {
        assert s0[j] == store[j];
      }
    }
    FoundLast(s0, n, id);
    var s1 := StartAuction(s0, id).state;
    ChangeAtLastKeepsId(s0, s1, n, id);
    FoundLast(s1, n, id);
    assert Registered(s1, id, bidders[k]) by {
      assert s1[n].bidders == s0[n].bidders == bidders;
      assert s1[n].bidders[k].id == bidders[k].id;
    }
    var s2 := PlaceBid(s1, id, bidders[k], amount).state;
    ChangeAtLastKeepsId(s1, s2, n, id);
    FoundLast(s2, n, id);
    var s3 := EndAuction(s2, id).state;
    ChangeAtLastKeepsId(s2, s3, n, id);
    FoundLast(s3, n, id);
  }
}
