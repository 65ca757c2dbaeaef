/** `cams.application.services.AuctionService`: the guards that decide whether an
    auction may be created, started, ended or bid on, over the infrastructure
    repository's store. The source reads the wall clock in two guards; whether
    the start time is still ahead, and whether the end time is already behind,
    are parameters here. */
module AuctionService {
  import opened Wrappers
  import opened Text
  import opened Models
  import opened Lists
  import Repo = AuctionRepository
  import Registry = BidderRepository
  import Inventory = VehicleRepository

  /** `store'` differs from `store` at most at index `i`. */
  predicate OnlyAt(store: seq<Auction>, store': seq<Auction>, i: nat)
  {
    |store'| == |store| && forall j :: 0 <= j < |store| && j != i ==> store'[j] == store[j]
  }

  /** Whether the auction `GetAuctionById` returns is active. */
  predicate FoundActive(store: seq<Auction>, id: Guid)
  {
    Repo.IndexOf(store, id).Some? && store[Repo.IndexOf(store, id).value].isActive
  }

  // ---------------------------------------------------------------------
  // Start, end, bid

  /** `StartAuctionAsync`: the auction must exist, must not be active, and its start
      time must not lie ahead; then the repository activates it. */
  function StartAuction(store: seq<Auction>, id: Guid, startTimeInFuture: bool): (r: Step<seq<Auction>, ()>)
    ensures r.result.Fail? ==> r.state == store
    ensures Repo.IndexOf(store, id).None? ==> r.result == Fail(Returned("Auction does not exist."))
    ensures FoundActive(store, id) ==> r.result == Fail(Returned("Auction is already active."))
    ensures r.result.Ok? <==> Repo.IndexOf(store, id).Some? && !FoundActive(store, id) && !startTimeInFuture
    ensures r.result.Ok? ==>
              Repo.IndexOf(store, id).Some? &&
              var i := Repo.IndexOf(store, id).value;
              OnlyAt(store, r.state, i) && r.state[i] == Repo.Started(store[i])
  {
    match Repo.IndexOf(store, id)
    case None => Step(store, Fail(Returned("Auction does not exist.")))
    case Some(i) =>
      if store[i].isActive then Step(store, Fail(Returned("Auction is already active.")))
      else if startTimeInFuture then Step(store, Fail(Returned("Auction cannot be started before the start time.")))
      else Step(store[i := Repo.Started(store[i])], Ok(()))
  }

  /** `EndAuctionAsync`: the auction must exist and be active, and the end-time guard
      must pass; then the repository ends it. The guard as written refuses when the
      end time is already behind the clock, which is the parameter `endTimeInPast`. */
  function EndAuction(cfg: Repo.Settings, store: seq<Auction>, id: Guid, endTimeInPast: bool): (r: Step<seq<Auction>, ()>)
    ensures r.result.Fail? ==> r.state == store
    ensures Repo.IndexOf(store, id).None? ==> r.result == Fail(Returned("Auction does not exist."))
    ensures Repo.IndexOf(store, id).Some? && !FoundActive(store, id) ==> r.result == Fail(Returned("Auction is not active."))
    ensures r.result.Ok? <==> FoundActive(store, id) && !endTimeInPast
    ensures r.result.Ok? ==>
              Repo.IndexOf(store, id).Some? &&
              var i := Repo.IndexOf(store, id).value;
              OnlyAt(store, r.state, i) && r.state[i] == Repo.Ended(cfg, store[i])
  {
    match Repo.IndexOf(store, id)
    case None => Step(store, Fail(Returned("Auction does not exist.")))
    case Some(i) =>
      if !store[i].isActive then Step(store, Fail(Returned("Auction is not active.")))
      else if endTimeInPast then Step(store, Fail(Returned("Auction cannot be ended before the end time.")))
      else Step(store[i := Repo.Ended(cfg, store[i])], Ok(()))
  }

  /** The bid guard: strictly above both the starting bid and the current bid. */
  predicate BidAmountValid(a: Auction, amount: int)
  {
    amount > a.startingBid && amount > a.currentBid
  }

  /** `PlaceBidAsync`: the auction must exist and be active, the bidder must be one
      of its bidders, and the amount must clear both bids; then the repository
      records the bid. */
  function PlaceBid(cfg: Repo.Settings, store: seq<Auction>, id: Guid, bidder: Bidder, amount: int)
    : (r: Step<seq<Auction>, ()>)
    ensures r.result.Fail? ==> r.state == store
    ensures !FoundActive(store, id) ==> r.result == Fail(Returned("Auction not found or not active."))
    ensures FoundActive(store, id) && bidder !in store[Repo.IndexOf(store, id).value].bidders ==>
              r.result == Fail(Returned("Bidder is not registered for this auction."))
    ensures r.result.Ok? <==> FoundActive(store, id)
                              && bidder in store[Repo.IndexOf(store, id).value].bidders
                              && BidAmountValid(store[Repo.IndexOf(store, id).value], amount)
    ensures r.result.Ok? ==>
              Repo.IndexOf(store, id).Some? &&
              var i := Repo.IndexOf(store, id).value;
              OnlyAt(store, r.state, i) && r.state[i] == Repo.BidPlaced(cfg, store[i], bidder, amount)
  {
    match Repo.IndexOf(store, id)
    case None => Step(store, Fail(Returned("Auction not found or not active.")))
    case Some(i) =>
      var a := store[i];
      if !a.isActive then Step(store, Fail(Returned("Auction not found or not active.")))
      else if bidder !in a.bidders then Step(store, Fail(Returned("Bidder is not registered for this auction.")))
      else if !BidAmountValid(a, amount) then
        Step(store, Fail(Returned("Bid amount must be greater than the starting bid and current bid.")))
      else Step(store[i := Repo.BidPlaced(cfg, a, bidder, amount)], Ok(()))
  }

  /** A bid equal to the starting bid or to the current bid is rejected and the store
      is left as it was. */
  lemma BidAtBoundRejected(cfg: Repo.Settings, store: seq<Auction>, id: Guid, bidder: Bidder, amount: int)
    requires Repo.IndexOf(store, id).Some?
    requires var a := store[Repo.IndexOf(store, id).value]; amount == a.startingBid || amount == a.currentBid
    ensures PlaceBid(cfg, store, id, bidder, amount).result.Fail?
    ensures PlaceBid(cfg, store, id, bidder, amount).state == store
  {
  }

  /** With a non-negative increment an accepted bid raises the current bid above
      both the offered amount and the previous current bid. */
  lemma AcceptedBidRaisesCurrentBid(cfg: Repo.Settings, store: seq<Auction>, id: Guid, bidder: Bidder, amount: int)
    requires cfg.bidIncrement >= 0
    requires PlaceBid(cfg, store, id, bidder, amount).result.Ok?
    ensures var i := Repo.IndexOf(store, id).value;
            var a' := PlaceBid(cfg, store, id, bidder, amount).state[i];
            a'.currentBid > store[i].currentBid && a'.currentBid >= amount && a'.highestBidder == Some(bidder)
  {
  }

  /** An accepted bid followed by ending the same auction records the offered amount
      as the hammer price. */
  lemma BidThenEndRecordsAmount(cfg: Repo.Settings, store: seq<Auction>, id: Guid, bidder: Bidder, amount: int,
                                endTimeInPast: bool)
    requires PlaceBid(cfg, store, id, bidder, amount).result.Ok?
    requires !endTimeInPast
    ensures var s1 := PlaceBid(cfg, store, id, bidder, amount).state;
            var s2 := EndAuction(cfg, s1, id, endTimeInPast);
            s2.result.Ok? && Repo.GetAuctionById(s2.state, id).Some?
            && Repo.GetAuctionById(s2.state, id).value.hammerPrice == amount
            && !Repo.GetAuctionById(s2.state, id).value.isActive
  {
    var i := Repo.IndexOf(store, id).value;
    var s1 := PlaceBid(cfg, store, id, bidder, amount).state;
    SameIdsSameIndex(store, s1, i, id);
    var s2 := EndAuction(cfg, s1, id, endTimeInPast).state;
    SameIdsSameIndex(s1, s2, i, id);
  }

  /** Changing one auction without touching its id leaves every lookup by id where it was. */
  lemma SameIdsSameIndex(store: seq<Auction>, store': seq<Auction>, i: nat, id: Guid)
    requires OnlyAt(store, store', i) && i < |store| && store'[i].id == store[i].id
    ensures Repo.IndexOf(store', id) == Repo.IndexOf(store, id)
  {
    FindFirstSamePredicate(store, store', (a: Auction) => a.id == id);
  }

  /** A successful start is followed by a failing one: the auction is now active. */
  lemma StartTwiceFails(store: seq<Auction>, id: Guid, f1: bool, f2: bool)
    requires StartAuction(store, id, f1).result.Ok?
    ensures var s1 := StartAuction(store, id, f1).state;
            StartAuction(s1, id, f2) == Step(s1, Fail(Returned("Auction is already active.")))
  {
    var i := Repo.IndexOf(store, id).value;
    SameIdsSameIndex(store, StartAuction(store, id, f1).state, i, id);
  }

  // ---------------------------------------------------------------------
  // Create

  /** A bidder whose id is empty or whose name is blank. */
  predicate InvalidBidder(b: Bidder)
  {
    b.id == EmptyGuid || IsBlank(b.name)
  }

  /** A bidder the registry does not hold. */
  predicate UnknownBidder(registry: seq<Bidder>, b: Bidder)
  {
    Registry.GetById(registry, b.id).None?
  }

  /** A creation error message. The tests fix only the `fragment` each message must
      mention; the words around it are this model's. */
  function Message(prefix: string, fragment: string, suffix: string): (m: string)
    ensures Mentions(m, fragment)
  {
    MentionsMiddle(prefix, fragment, suffix);
    prefix + fragment + suffix
  }

  /** `CreateAuctionAsync` as its tests describe it (the method itself is a stub):
      an empty bidder list, a bidder without a valid id and name, a bidder the
      registry does not hold, a vehicle not in the inventory and a vehicle already
      in an active auction are refused, in that order; otherwise the repository
      creates the auction. */
  function CreateAuction(cfg: Repo.Settings, registry: seq<Bidder>, inventory: seq<Vehicle>,
                         store: seq<Auction>, id: Guid, vehicle: Vehicle, bidders: seq<Bidder>)
    : (r: Step<seq<Auction>, Auction>)
    ensures r.result.Fail? ==> r.state == store
    ensures |bidders| == 0 ==> r.result.Fail? && Mentions(r.result.error.message, "At least one bidder")
    ensures (exists k :: 0 <= k < |bidders| && InvalidBidder(bidders[k])) ==>
              r.result.Fail? && Mentions(r.result.error.message, "valid ID and name")
    ensures (forall k :: 0 <= k < |bidders| ==> !InvalidBidder(bidders[k]))
            && (exists k :: 0 <= k < |bidders| && UnknownBidder(registry, bidders[k])) ==>
              r.result.Fail? && Mentions(r.result.error.message, "does not exist")
    ensures r.result.Ok? ==>
              && |bidders| > 0
              && (forall k :: 0 <= k < |bidders| ==> !InvalidBidder(bidders[k]) && !UnknownBidder(registry, bidders[k]))
              && Inventory.GetByVin(inventory, vehicle.Reference()).Some?
              && !Repo.ExistingAuctionByVehicle(store, vehicle.Reference())
    ensures (|bidders| > 0
             && (forall k :: 0 <= k < |bidders| ==> !InvalidBidder(bidders[k]) && !UnknownBidder(registry, bidders[k])))
            ==> (Inventory.GetByVin(inventory, vehicle.Reference()).None? ==>
                   r.result.Fail? && Mentions(r.result.error.message, "Vehicle must exist"))
                && (Inventory.GetByVin(inventory, vehicle.Reference()).Some?
                    && Repo.ExistingAuctionByVehicle(store, vehicle.Reference()) ==>
                      r.result.Fail? && Mentions(r.result.error.message, "already in an active auction"))
    ensures r.result.Ok? ==> r == Repo.CreateAuction(cfg, store, id, vehicle, bidders)
    ensures (|bidders| > 0
             && (forall k :: 0 <= k < |bidders| ==> !InvalidBidder(bidders[k]) && !UnknownBidder(registry, bidders[k]))
             && Inventory.GetByVin(inventory, vehicle.Reference()).Some?
             && !Repo.ExistingAuctionByVehicle(store, vehicle.Reference()))
            ==> r == Repo.CreateAuction(cfg, store, id, vehicle, bidders)
  {
    if |bidders| == 0 then Step(store, Fail(Returned(Message("", "At least one bidder", " is required."))))
    else match FindFirst(bidders, InvalidBidder)
      case Some(_) => Step(store, Fail(Returned(Message("Each bidder must have a ", "valid ID and name", "."))))
      case None =>
        match FindFirst(bidders, (b: Bidder) => UnknownBidder(registry, b))
        case Some(k) =>
          Step(store, Fail(Returned(Message("Bidder with ID " + GuidText(bidders[k].id) + " ", "does not exist", "."))))
        case None =>
          if Inventory.GetByVin(inventory, vehicle.Reference()).None? then
            Step(store, Fail(Returned(Message("Invalid vehicle for auction. ", "Vehicle must exist", " in the inventory."))))
          else if Repo.ExistingAuctionByVehicle(store, vehicle.Reference()) then
            Step(store, Fail(Returned(Message("Vehicle is ", "already in an active auction", "."))))
          else Repo.CreateAuction(cfg, store, id, vehicle, bidders)
  }

  // ---------------------------------------------------------------------
  // Invariants across operations

  /** The highest bidder, once there is one, is one of the auction's bidders. */
  predicate HighestBidderListed(a: Auction)
  {
    a.highestBidder.Some? ==> a.highestBidder.value in a.bidders
  }

  /** No two active auctions are for vehicles with the same reference. */
  predicate AtMostOneActivePerVehicle(store: seq<Auction>)
  {
    forall i, j ::
      (0 <= i < |store| && 0 <= j < |store| && store[i].isActive && store[j].isActive
       && store[i].vehicle.Reference() == store[j].vehicle.Reference()) ==> i == j
  }

  predicate Consistent(store: seq<Auction>)
  {
    && (forall i :: 0 <= i < |store| ==> HighestBidderListed(store[i]))
    && AtMostOneActivePerVehicle(store)
  }

  /** `StartAuctionAsync` with the missing check: a vehicle already in an active
      auction cannot have a second one started. */
  function StartAuctionChecked(store: seq<Auction>, id: Guid, startTimeInFuture: bool): (r: Step<seq<Auction>, ()>)
    ensures r.result.Fail? ==> r.state == store
    ensures r.result.Ok? ==> StartAuction(store, id, startTimeInFuture) == r
    ensures r.result.Ok? <==> StartAuction(store, id, startTimeInFuture).result.Ok?
                              && !Repo.ExistingAuctionByVehicle(store, store[Repo.IndexOf(store, id).value].vehicle.Reference())
    ensures AtMostOneActivePerVehicle(store) ==> AtMostOneActivePerVehicle(r.state)
  {
    match Repo.IndexOf(store, id)
    case None => Step(store, Fail(Returned("Auction does not exist.")))
    case Some(i) =>
      if store[i].isActive then Step(store, Fail(Returned("Auction is already active.")))
      else if startTimeInFuture then Step(store, Fail(Returned("Auction cannot be started before the start time.")))
      else if Repo.ExistingAuctionByVehicle(store, store[i].vehicle.Reference()) then
        Step(store, Fail(Returned("Vehicle is already in an active auction.")))
      else
        var store' := store[i := Repo.Started(store[i])];
        assert AtMostOneActivePerVehicle(store) ==> AtMostOneActivePerVehicle(store') by {
          if AtMostOneActivePerVehicle(store) {
            forall j, k | 0 <= j < |store'| && 0 <= k < |store'| && store'[j].isActive && store'[k].isActive
                          && store'[j].vehicle.Reference() == store'[k].vehicle.Reference()
              ensures j == k
            {
              if j != i && k != i {
                assert store'[j] == store[j] && store'[k] == store[k];
              }
            }
          }
        }
        Step(store', Ok(()))
  }

  /** Two auctions created under distinct ids for the same inventory vehicle, with one
      valid registered bidder, are both inactive, and the service starts both: the
      vehicle ends up in two active auctions. The corrected start refuses the second. */
  lemma UncheckedStartActivatesTwoAuctions(cfg: Repo.Settings, registry: seq<Bidder>, inventory: seq<Vehicle>,
                                           v: Vehicle, b: Bidder, id1: Guid, id2: Guid)
    requires id1 != id2
    requires !InvalidBidder(b) && !UnknownBidder(registry, b)
    requires Inventory.GetByVin(inventory, v.Reference()).Some?
    requires TypeName(v) in cfg.startingBids
    ensures var c1 := CreateAuction(cfg, registry, inventory, [], id1, v, [b]);
            var c2 := CreateAuction(cfg, registry, inventory, c1.state, id2, v, [b]);
            var s1 := StartAuction(c2.state, id1, false);
            var s2 := StartAuction(s1.state, id2, false);
            && c1.result.Ok? && c2.result.Ok? && s1.result.Ok? && s2.result.Ok?
            && Consistent(c2.state)
            && !AtMostOneActivePerVehicle(s2.state)
            && StartAuctionChecked(s1.state, id2, false).result.Fail?
  {
    var bidders := [b];
    assert FindFirst(bidders, InvalidBidder).None?;
    assert FindFirst(bidders, (x: Bidder) => UnknownBidder(registry, x)).None?;
    var c1 := CreateAuction(cfg, registry, inventory, [], id1, v, bidders);
    assert c1.result.Ok?;
    assert !Repo.ExistingAuctionByVehicle(c1.state, v.Reference());
    var c2 := CreateAuction(cfg, registry, inventory, c1.state, id2, v, bidders);
    assert c2.result.Ok?;
    var s := c2.state;
    assert |s| == 2 && s[0].id == id1 && s[1].id == id2 && !s[0].isActive && !s[1].isActive;
    assert Consistent(s);
    assert Repo.IndexOf(s, id1) == Some(0);
    var s1 := StartAuction(s, id1, false);
    assert s1.result.Ok?;
    assert s1.state[1] == s[1] && s1.state[0].id == id1;
    assert Repo.IndexOf(s1.state, id2) == Some(1);
    var s2 := StartAuction(s1.state, id2, false);
    assert s2.result.Ok?;
    assert s2.state[0].isActive && s2.state[1].isActive;
    assert s2.state[0].vehicle == s2.state[1].vehicle;
    assert Repo.ExistingAuctionByVehicle(s1.state, v.Reference()) by {
      assert s1.state[0].isActive && s1.state[0].vehicle == v;
    }
  }

  /** The seeded inventory and registry meet the conditions above: the seeded sedan
      with the first seeded bidder. */
  lemma SeedAdmitsTwoActiveAuctions()
    ensures var b := Registry.Seed[0];
            !InvalidBidder(b) && !UnknownBidder(Registry.Seed, b)
    ensures Inventory.GetByVin(Inventory.Seed, Inventory.Seed[0].Reference()).Some?
    ensures TypeName(Inventory.Seed[0]) in map["Sedan" := 1000]
  {
    var b := Registry.Seed[0];
    assert !IsWhiteSpace(b.name[0]);
    assert Registry.Seed[0].id == b.id;
    assert Inventory.Seed[0].Reference() == Inventory.Seed[0].Reference();
  }

  /** One service operation, with the clock readings its guards would take. */
  datatype Op =
    | CreateOp(id: Guid, vehicle: Vehicle, bidders: seq<Bidder>)
    | StartOp(id: Guid, startTimeInFuture: bool)
    | EndOp(id: Guid, endTimeInPast: bool)
    | BidOp(id: Guid, bidder: Bidder, amount: int)

  /** What the service works against besides the auction store. */
  datatype Context = Context(cfg: Repo.Settings, registry: seq<Bidder>, inventory: seq<Vehicle>)

  /** The store after one operation; starting uses the corrected guard. */
  function Apply(ctx: Context, store: seq<Auction>, op: Op): seq<Auction>
  {
    match op
    case CreateOp(id, v, bidders) => CreateAuction(ctx.cfg, ctx.registry, ctx.inventory, store, id, v, bidders).state
    case StartOp(id, f) => StartAuctionChecked(store, id, f).state
    case EndOp(id, f) => EndAuction(ctx.cfg, store, id, f).state
    case BidOp(id, bidder, amount) => PlaceBid(ctx.cfg, store, id, bidder, amount).state
  }

  /** The store after a sequence of operations. */
  function Run(ctx: Context, store: seq<Auction>, ops: seq<Op>): seq<Auction>
    decreases |ops|
  {
    if |ops| == 0 then store else Run(ctx, Apply(ctx, store, ops[0]), ops[1..])
  }

  /** Every existing auction keeps its place and id, and no current bid goes down. */
  predicate NoBidLowered(store: seq<Auction>, store': seq<Auction>)
  {
    |store| <= |store'|
    && forall i :: 0 <= i < |store| ==> store'[i].id == store[i].id && store'[i].currentBid >= store[i].currentBid
  }

  /** One operation keeps the store consistent and lowers no current bid. */
  lemma ApplyPreserves(ctx: Context, store: seq<Auction>, op: Op)
    requires ctx.cfg.bidIncrement >= 0
    requires Consistent(store)
    ensures Consistent(Apply(ctx, store, op))
    ensures NoBidLowered(store, Apply(ctx, store, op))
  {
    var s' := Apply(ctx, store, op);
    match op
    case CreateOp(id, v, bidders) =>
      var r := CreateAuction(ctx.cfg, ctx.registry, ctx.inventory, store, id, v, bidders);
      if r.result.Ok? {
        assert s' == store + [r.result.value];
        forall j, k | 0 <= j < |s'| && 0 <= k < |s'| && s'[j].isActive && s'[k].isActive
                      && s'[j].vehicle.Reference() == s'[k].vehicle.Reference()
          ensures j == k
        {
          assert j < |store| && k < |store|;
          assert s'[j] == store[j] && s'[k] == store[k];
        }
        forall j | 0 <= j < |s'| ensures HighestBidderListed(s'[j]) {
          if j < |store| {
            assert s'[j] == store[j];
          }
        }
      }
    case StartOp(id, f) =>
      var r := StartAuctionChecked(store, id, f);
      if r.result.Ok? {
        var i := Repo.IndexOf(store, id).value;
        forall j | 0 <= j < |s'| ensures HighestBidderListed(s'[j]) {
          if j != i {
            assert s'[j] == store[j];
          }
        }
      }
    case EndOp(id, f) =>
      var r := EndAuction(ctx.cfg, store, id, f);
      if r.result.Ok? {
        var i := Repo.IndexOf(store, id).value;
        forall j | 0 <= j < |s'| ensures HighestBidderListed(s'[j]) {
          if j != i {
            assert s'[j] == store[j];
          }
        }
        forall j, k | 0 <= j < |s'| && 0 <= k < |s'| && s'[j].isActive && s'[k].isActive
                      && s'[j].vehicle.Reference() == s'[k].vehicle.Reference()
          ensures j == k
        {
          assert j != i && k != i;
          assert s'[j] == store[j] && s'[k] == store[k];
        }
      }
    case BidOp(id, bidder, amount) =>
      var r := PlaceBid(ctx.cfg, store, id, bidder, amount);
      if r.result.Ok? {
        var i := Repo.IndexOf(store, id).value;
        assert bidder in store[i].bidders;
        forall j | 0 <= j < |s'| ensures HighestBidderListed(s'[j]) {
          if j != i {
            assert s'[j] == store[j];
          }
        }
        forall j, k | 0 <= j < |s'| && 0 <= k < |s'| && s'[j].isActive && s'[k].isActive
                      && s'[j].vehicle.Reference() == s'[k].vehicle.Reference()
          ensures j == k
        {
          if j != i {
            assert s'[j] == store[j];
          }
          if k != i {
            assert s'[k] == store[k];
          }
        }
      }
  }

  /** Across any sequence of operations, every highest bidder stays one of its
      auction's bidders, no vehicle is in two active auctions, and no auction's
      current bid ever goes down. */
  lemma {:induction false} RunPreserves(ctx: Context, store: seq<Auction>, ops: seq<Op>)
    requires ctx.cfg.bidIncrement >= 0
    requires Consistent(store)
    ensures Consistent(Run(ctx, store, ops))
    ensures NoBidLowered(store, Run(ctx, store, ops))
    decreases |ops|
  {
    if |ops| > 0 {
      var s1 := Apply(ctx, store, ops[0]);
      ApplyPreserves(ctx, store, ops[0]);
      RunPreserves(ctx, s1, ops[1..]);
    }
  }
}
