/** `cams.infrastructure.repositories.VehicleRepository`: the seeded vehicle
    inventory. It checks nothing; duplicate detection is the service's job. */
module VehicleRepository {
  import opened Wrappers
  import opened Models
  import opened Lists

  /** The seeded inventory. The first entry is built with the `Sedan` class. */
  const Seed: seq<Vehicle> := [
    NewSedan("Toyota", "Camry", 2020, "VIN1234567890", Some(5)),
    Suv("Toyota", "Camry", 2020, "VIN1234567891", 5),
    Truck("Toyota", "Hylux", 2020, "VIN1234567892", 520),
    Hatchback("Toyota", "Camry", 2020, "VIN1234567893", 5)
  ]

  /** No two vehicles of the list share a reference. */
  predicate DistinctReferences(store: seq<Vehicle>)
  {
    forall i, j :: 0 <= i < j < |store| ==> store[i].Reference() != store[j].Reference()
  }

  /** The inventory starts with four vehicles with distinct VINs, all made by Toyota. */
  lemma SeedWellFormed()
    ensures |Seed| == 4 && DistinctReferences(Seed)
    ensures forall i :: 0 <= i < |Seed| ==> Seed[i].manufacturer == "Toyota"
    ensures Seed[0].Sedan? && TypeName(Seed[0]) == "Sedan"
  {
  }

  /** `AddVehicleAsync`: appends the vehicle, whatever its VIN, and returns it. */
  function Add(store: seq<Vehicle>, v: Vehicle): (r: (seq<Vehicle>, Vehicle))
    ensures r.0 == store + [v] && r.1 == v
  {
    (store + [v], v)
  }

  /** `GetVehicleByVinAsync`: the first vehicle whose reference equals the VIN, or null. */
  function GetByVin(store: seq<Vehicle>, vin: string): (r: Option<Vehicle>)
    ensures r.Some? ==> exists i :: 0 <= i < |store| && store[i] == r.value
                                    && forall j :: 0 <= j < i ==> store[j].Reference() != vin
    ensures r.Some? ==> r.value.Reference() == vin
    ensures r.None? <==> forall i :: 0 <= i < |store| ==> store[i].Reference() != vin
  {
    match FindFirst(store, (v: Vehicle) => v.Reference() == vin)
    case None => None
    case Some(i) => Some(store[i])
  }

  /** `Search(predicate)`: `Where` over the inventory. Each matching vehicle is
      returned as often as it is stored; store order is the subject of `SearchAppend`. */
  function Search(store: seq<Vehicle>, p: Vehicle -> bool): (r: seq<Vehicle>)
    ensures |r| <= |store|
    ensures forall i :: 0 <= i < |r| ==> r[i] in store && p(r[i])
    ensures forall i :: 0 <= i < |store| && p(store[i]) ==> store[i] in r
    ensures forall x :: multiset(r)[x] == if p(x) then multiset(store)[x] else 0
  {
    FilterCounts(store, p);
    Filter(store, p)
  }

  /** The search keeps inventory order: searching two inventories joined together
      gives the first one's matches followed by the second's, and a single vehicle
      is returned exactly when it matches. */
  lemma SearchAppend(a: seq<Vehicle>, b: seq<Vehicle>, x: Vehicle, p: Vehicle -> bool)
    ensures Search(a + b, p) == Search(a, p) + Search(b, p)
    ensures Search([x], p) == if p(x) then [x] else []
  {
    FilterAppend(a, b, p);
    assert Filter([x], p) == (if p(x) then [x] else []) + Filter([x][1..], p);
  }

  /** `ExistsInActiveAuction`: despite its name, whether the VIN is in the inventory.
      No auction is consulted. */
  function ExistsInActiveAuction(store: seq<Vehicle>, vin: string): (r: bool)
    ensures r <==> exists i :: 0 <= i < |store| && store[i].Reference() == vin
    ensures r <==> GetByVin(store, vin).Some?
  {
    FindFirst(store, (v: Vehicle) => v.Reference() == vin).Some?
  }

  /** `GetAllVehicles` returns the inventory itself. */
  function GetAll(store: seq<Vehicle>): seq<Vehicle>
  {
    store
  }

  /** The seeded VIN is found, both by lookup and by the existence check; after an
      add, every earlier lookup answers as before and the added VIN is found. */
  lemma LookupAfterAdd(store: seq<Vehicle>, v: Vehicle, vin: string)
    ensures GetByVin(Seed, "VIN1234567890").Some?
    ensures ExistsInActiveAuction(Seed, "VIN1234567890")
    ensures GetByVin(store, vin).Some? ==> GetByVin(Add(store, v).0, vin) == GetByVin(store, vin)
    ensures ExistsInActiveAuction(Add(store, v).0, v.Reference())
    ensures GetAll(Add(store, v).0) == GetAll(store) + [v]
  {
    assert Seed[0].Reference() == "VIN1234567890";
    var s' := Add(store, v).0;
    assert s'[|store|] == v;
    if GetByVin(store, vin).Some? {
      var i :| 0 <= i < |store| && store[i] == GetByVin(store, vin).value
               && forall j :: 0 <= j < i ==> store[j].Reference() != vin;
      FindFirstSamePredicate(store, s'[..|store|], (x: Vehicle) => x.Reference() == vin);
      assert s'[..|store|] == store;
      match GetByVin(s', vin)
      case None =>
      case Some(w) =>
        var k :| 0 <= k < |s'| && s'[k] == w && forall j :: 0 <= j < k ==> s'[j].Reference() != vin;
        assert k == i;
    }
  }
}

/** `cams.application.services.VehicleService`: duplicate check on add, VIN
    validation on lookup, and composition of the search criteria. */
module VehicleService {
  import opened Wrappers
  import opened Text
  import opened Models
  import opened Lists
  import opened Search
  import Factories
  import Repo = VehicleRepository

  /** `AddVehicleAsync`: build the vehicle with the factory, reject a reference that
      is already stored, otherwise store and return it. */
  function AddVehicle(store: seq<Vehicle>, req: Factories.AddVehicleRequest): (r: Step<seq<Vehicle>, Vehicle>)
    ensures r.result.Fail? ==> r.state == store
    ensures r.result.Ok? <==> Factories.CreateVehicle(req).Ok? && Repo.GetByVin(store, req.vin).None?
    ensures Factories.CreateVehicle(req).Ok? && Repo.GetByVin(store, req.vin).Some? ==>
              r.result == Fail(Returned("Vehicle already exists."))
    ensures r.result.Ok? ==> r.result.value == Factories.CreateVehicle(req).value
                             && r.state == store + [r.result.value]
  {
    match Factories.CreateVehicle(req)
    case Fail(e) => Step(store, Fail(e))
    case Ok(v) =>
      if Repo.GetByVin(store, v.Reference()).Some? then Step(store, Fail(Returned("Vehicle already exists.")))
      else
        var (store', added) := Repo.Add(store, v);
        Step(store', Ok(added))
  }

  /** Adding through the service keeps the references of the inventory pairwise distinct. */
  lemma AddVehicleKeepsReferencesDistinct(store: seq<Vehicle>, req: Factories.AddVehicleRequest)
    requires Repo.DistinctReferences(store)
    ensures Repo.DistinctReferences(AddVehicle(store, req).state)
  {
    var r := AddVehicle(store, req);
    if r.result.Ok? {
      var s' := r.state;
      forall i, j | 0 <= i < j < |s'| ensures s'[i].Reference() != s'[j].Reference() {
        if j == |store| {
          assert s'[j].Reference() == req.vin;
          assert s'[i] == store[i];
        } else {
          assert s'[i] == store[i] && s'[j] == store[j];
        }
      }
    }
  }

  /** `GetVehicleByVinAsync`: a blank VIN is an error; otherwise the lookup succeeds,
      carrying null when the VIN is not stored. */
  function GetVehicleByVin(store: seq<Vehicle>, vin: string): (r: Result<Option<Vehicle>>)
    ensures r.Fail? <==> IsBlank(vin)
    ensures r.Fail? ==> r.error == Returned("VIN cannot be null or empty.")
    ensures r.Ok? ==> r.value == Repo.GetByVin(store, vin)
    ensures r.Ok? && (forall i :: 0 <= i < |store| ==> store[i].Reference() != vin) ==> r.value.None?
  {
    if IsBlank(vin) then Fail(Returned("VIN cannot be null or empty."))
    else Ok(Repo.GetByVin(store, vin))
  }

  /** The query parameters of a vehicle search; each may be missing. */
  datatype SearchVehicleRequest = SearchVehicleRequest(
    model: Option<string>, manufacturer: Option<string>, year: Option<int>)

  /** A text criterion counts as supplied when it is present and not blank. */
  predicate Supplied(s: Option<string>)
  {
    s.Some? && !IsBlank(s.value)
  }

  /** The sub-searches `Search` builds, in the order it adds them. */
  function Searches(req: SearchVehicleRequest): seq<VehicleSearch>
  {
    (if Supplied(req.model) then [ModelSearch(req.model.value)] else [])
    + (if Supplied(req.manufacturer) then [ManufacturerSearch(req.manufacturer.value)] else [])
    + (if req.year != Some(0) && req.year.Some? then [YearSearch(req.year)] else [])
  }

  /** What a vehicle must satisfy for a request, stated criterion by criterion. */
  predicate Satisfies(req: SearchVehicleRequest, v: Vehicle)
  {
    && (Supplied(req.model) ==> ModelMatch(req.model.value, v))
    && (Supplied(req.manufacturer) ==> ManufacturerMatch(req.manufacturer.value, v))
    && (req.year.Some? && req.year.value != 0 ==> YearMatch(req.year, v))
  }

  function Criteria(req: SearchVehicleRequest): Vehicle -> bool
  {
    v => Satisfies(req, v)
  }

  /** The aggregator of the built sub-searches accepts exactly the vehicles that
      satisfy every supplied criterion. */
  lemma SearchesMatchCriteria(req: SearchVehicleRequest, v: Vehicle)
    ensures MatchAll(Searches(req), MatchVehicle, v) == Satisfies(req, v)
  {
    var m: seq<VehicleSearch> := if Supplied(req.model) then [ModelSearch(req.model.value)] else [];
    var f: seq<VehicleSearch> := if Supplied(req.manufacturer) then [ManufacturerSearch(req.manufacturer.value)] else [];
    var y: seq<VehicleSearch> := if req.year != Some(0) && req.year.Some? then [YearSearch(req.year)] else [];
    assert Searches(req) == m + f + y;
    MatchAllAppend(m + f, y, MatchVehicle, v);
    MatchAllAppend(m, f, MatchVehicle, v);
  }

  /** `Search`: at least one criterion must be given, a given year must render to at
      least four characters, and the result is the stored vehicles satisfying every
      supplied criterion, in store order. */
  function SearchVehicles(store: seq<Vehicle>, req: SearchVehicleRequest): (r: Result<seq<Vehicle>>)
    ensures !Supplied(req.model) && !Supplied(req.manufacturer) && req.year.None? ==>
              r == Fail(Returned("At least one search parameter must be provided."))
    ensures req.year.Some? && -100 < req.year.value < 1000 ==>
              r == Fail(Returned("Year must be a valid 4-digit number."))
    ensures r.Ok? <==> (Supplied(req.model) || Supplied(req.manufacturer) || req.year.Some?)
                       && (req.year.Some? ==> req.year.value >= 1000 || req.year.value <= -100)
    ensures r.Ok? ==> r.value == Filter(store, Criteria(req))
  {
    if !Supplied(req.model) && !Supplied(req.manufacturer) && !req.year.Some? then
      Fail(Returned("At least one search parameter must be provided."))
    else if req.year.Some? && |IntString(req.year.value)| < 4 then
      IntStringShort(req.year.value);
      Fail(Returned("Year must be a valid 4-digit number."))
    else
      IntStringShort(if req.year.Some? then req.year.value else 0);
      var searches := Searches(req);
      var found := Repo.Search(store, (v: Vehicle) => MatchAll(searches, MatchVehicle, v));
      forall i | 0 <= i < |store| ensures MatchAll(searches, MatchVehicle, store[i]) == Criteria(req)(store[i]) {
        SearchesMatchCriteria(req, store[i]);
      }
      FilterSamePredicate(store, (v: Vehicle) => MatchAll(searches, MatchVehicle, v), Criteria(req));
      Ok(found)
  }
}

/** `cams.application.repositories.VehicleRepository`: the older store, which
    enforces unique VINs itself. */
module AppVehicleRepository {
  import opened Wrappers
  import opened VehicleTypes
  import opened AppModels
  import opened Lists
  import Factories

  predicate DistinctVins(store: seq<AppVehicle>)
  {
    forall i, j :: 0 <= i < j < |store| ==> store[i].vin != store[j].vin
  }

  /** `CreateVehicleAsync`: a VIN already stored is refused; otherwise a vehicle with
      the given fields is appended and returned. The vehicle's constructor asks the
      attributes factory for its attributes, which throws on an undeclared type. */
  function CreateVehicle(store: seq<AppVehicle>, vin: string, vehicleType: int,
                         manufacturer: string, model: string, year: int): (r: Step<seq<AppVehicle>, AppVehicle>)
    ensures r.result.Fail? ==> r.state == store
    ensures (exists i :: 0 <= i < |store| && store[i].vin == vin) ==>
              r.result == Fail(Returned("Vehicle with this VIN already exists."))
    ensures r.result.Ok? <==> (forall i :: 0 <= i < |store| ==> store[i].vin != vin) && FromCode(vehicleType).Some?
    ensures r.result.Ok? ==> r.state == store + [r.result.value]
    ensures r.result.Ok? ==> var v := r.result.value;
              v.vin == vin && Some(v.vehicleType) == FromCode(vehicleType)
              && v.attributes.manufacturer == manufacturer && v.attributes.model == model
              && v.attributes.year == year
              && Factories.AttributesCategory(v.attributes.detail) == v.vehicleType
  {
    if FindFirst(store, (v: AppVehicle) => v.vin == vin).Some? then
      Step(store, Fail(Returned("Vehicle with this VIN already exists.")))
    else match Factories.CreateVehicleAttributes(vehicleType)
      case Fail(e) => Step(store, Fail(e))
      case Ok(attributes) =>
        var v := AppVehicle(vin, FromCode(vehicleType).value,
                            attributes.(manufacturer := manufacturer, model := model, year := year));
        Step(store + [v], Ok(v))
  }

  /** A create request: the arguments of one `CreateVehicleAsync` call. */
  datatype CreateRequest = CreateRequest(vin: string, vehicleType: int, manufacturer: string, model: string, year: int)

  /** The store after a sequence of creates, each applied to the result of the last. */
  function CreateAll(store: seq<AppVehicle>, requests: seq<CreateRequest>): seq<AppVehicle>
    decreases |requests|
  {
    if |requests| == 0 then store
    else
      var q := requests[0];
      CreateAll(CreateVehicle(store, q.vin, q.vehicleType, q.manufacturer, q.model, q.year).state, requests[1..])
  }

  /** One create keeps the VINs pairwise distinct. */
  lemma CreateKeepsVinsDistinct(store: seq<AppVehicle>, q: CreateRequest)
    requires DistinctVins(store)
    ensures DistinctVins(CreateVehicle(store, q.vin, q.vehicleType, q.manufacturer, q.model, q.year).state)
  {
    var r := CreateVehicle(store, q.vin, q.vehicleType, q.manufacturer, q.model, q.year);
    if r.result.Ok? {
      var s' := r.state;
      forall i, j | 0 <= i < j < |s'| ensures s'[i].vin != s'[j].vin {
        if j == |store| {
          assert s'[i] == store[i];
        } else {
          assert s'[i] == store[i] && s'[j] == store[j];
        }
      }
    }
  }

  /** The VINs stay pairwise distinct across any sequence of creates. */
  lemma {:induction false} CreateAllKeepsVinsDistinct(store: seq<AppVehicle>, requests: seq<CreateRequest>)
    requires DistinctVins(store)
    ensures DistinctVins(CreateAll(store, requests))
    decreases |requests|
  {
    if |requests| > 0 {
      var q := requests[0];
      CreateKeepsVinsDistinct(store, q);
      CreateAllKeepsVinsDistinct(CreateVehicle(store, q.vin, q.vehicleType, q.manufacturer, q.model, q.year).state, requests[1..]);
    }
  }

  /** `GetVehicleByVinAsync`: the first vehicle with the VIN, or "Vehicle not found.". */
  function GetVehicleByVin(store: seq<AppVehicle>, vin: string): (r: Result<AppVehicle>)
    ensures r.Fail? <==> forall i :: 0 <= i < |store| ==> store[i].vin != vin
    ensures r.Fail? ==> r.error == Returned("Vehicle not found.")
    ensures r.Ok? ==> r.value.vin == vin && r.value in store
  {
    match FindFirst(store, (v: AppVehicle) => v.vin == vin)
    case None => Fail(Returned("Vehicle not found."))
    case Some(i) => Ok(store[i])
  }

  /** `GetAllVehiclesAsync` always succeeds with every stored vehicle. */
  function GetAllVehicles(store: seq<AppVehicle>): Result<seq<AppVehicle>>
  {
    Ok(store)
  }

  /** A vehicle created under a VIN is what a later lookup of that VIN returns. */
  lemma CreateThenGet(store: seq<AppVehicle>, vin: string, vehicleType: int,
                      manufacturer: string, model: string, year: int)
    requires CreateVehicle(store, vin, vehicleType, manufacturer, model, year).result.Ok?
    ensures var r := CreateVehicle(store, vin, vehicleType, manufacturer, model, year);
            GetVehicleByVin(r.state, vin) == Ok(r.result.value)
            && GetAllVehicles(r.state) == Ok(store + [r.result.value])
  {
    var r := CreateVehicle(store, vin, vehicleType, manufacturer, model, year);
    var s' := r.state;
    assert s'[|store|] == r.result.value;
    match FindFirst(s', (v: AppVehicle) => v.vin == vin)
    case None =>
    case Some(i) =>
      assert i == |store|;
  }
}
