/** `cams.infrastructure.repositories.BidderRepository`: a list of bidders,
    seeded with three entries, with no validation of its own. */
module BidderRepository {
  import opened Wrappers
  import opened Text
  import opened Models
  import opened Lists

  /** The seeded registry. */
  const Seed: seq<Bidder> := [
    Bidder(Guid(0xf7d8b9fb_22ec_4ad6_a272_0540865c7b8c), "John Mclane"),
    Bidder(Guid(0x727fcc8a_3fb6_4dfb_a7aa_b73aee80cac9), "John Rambo"),
    Bidder(Guid(0x328e1812_cc63_4de1_b715_c3e4684577d5), "John Wick")
  ]

  /** The registry starts with three bidders with distinct, non-empty ids and non-blank names. */
  lemma SeedWellFormed()
    ensures |Seed| == 3
    ensures forall i, j :: 0 <= i < j < |Seed| ==> Seed[i].id != Seed[j].id
    ensures forall i :: 0 <= i < |Seed| ==> Seed[i].id != EmptyGuid && !IsBlank(Seed[i].name)
  {
    forall i | 0 <= i < |Seed| ensures !IsBlank(Seed[i].name) {
      assert Seed[i].name[0] == 'J';
    }
  }

  /** `CreateBidderAsync`: appends a bidder with exactly the given id and name and returns it. */
  function Create(store: seq<Bidder>, id: Guid, name: string): (r: (seq<Bidder>, Bidder))
    ensures r.1.id == id && r.1.name == name
    ensures r.0 == store + [r.1]
  {
    var bidder := Bidder(id, name);
    (store + [bidder], bidder)
  }

  /** `GetBidderByIdAsync`: the first bidder with the id, or null. */
  function GetById(store: seq<Bidder>, id: Guid): (r: Option<Bidder>)
    ensures r.Some? ==> exists i :: 0 <= i < |store| && store[i] == r.value
                                    && forall j :: 0 <= j < i ==> store[j].id != id
    ensures r.Some? ==> r.value.id == id
    ensures r.None? <==> forall i :: 0 <= i < |store| ==> store[i].id != id
  {
    match FindFirst(store, (b: Bidder) => b.id == id)
    case None => None
    case Some(i) => Some(store[i])
  }

  /** `GetAllBiddersAsync` returns the list itself. */
  function GetAll(store: seq<Bidder>): seq<Bidder>
  {
    store
  }

  /** After creating a bidder under an id not yet registered, looking that id up
      returns the created bidder; every other lookup is unaffected. */
  lemma CreateThenGet(store: seq<Bidder>, id: Guid, name: string, other: Guid)
    requires GetById(store, id).None?
    requires other != id
    ensures GetById(Create(store, id, name).0, id) == Some(Bidder(id, name))
    ensures GetById(Create(store, id, name).0, other) == GetById(store, other)
  {
    var s' := Create(store, id, name).0;
    assert s'[|store|] == Bidder(id, name);
    assert forall j :: 0 <= j < |store| ==> s'[j] == store[j];
    match GetById(s', other)
    case None =>
    case Some(b) =>
      var i :| 0 <= i < |s'| && s'[i] == b && forall j :: 0 <= j < i ==> s'[j].id != other;
      assert i < |store|;
  }

  /** Each create grows the full list by one, keeping the earlier entries in order. */
  lemma CreateGrowsAll(store: seq<Bidder>, id: Guid, name: string)
    ensures |GetAll(Create(store, id, name).0)| == |GetAll(store)| + 1
    ensures GetAll(Create(store, id, name).0)[..|store|] == GetAll(store)
  {
  }
}

/** `cams.application.services.BidderService`: validation in front of the bidder repository. */
module BidderService {
  import opened Wrappers
  import opened Text
  import opened Models
  import Repo = BidderRepository

  /** `GetBidderByIdAsync`. */
  function GetBidderById(store: seq<Bidder>, id: Guid): (r: Result<Bidder>)
    ensures id == EmptyGuid ==> r == Fail(Returned("Bidder ID cannot be empty."))
    ensures id != EmptyGuid && Repo.GetById(store, id).None? ==>
              r == Fail(Returned("Bidder with ID " + GuidText(id) + " does not exist."))
    ensures r.Ok? <==> id != EmptyGuid && exists i :: 0 <= i < |store| && store[i].id == id
    ensures r.Ok? ==> r.value.id == id && r.value in store
    ensures r.Ok? ==> Some(r.value) == Repo.GetById(store, id)
  {
    if id == EmptyGuid then Fail(Returned("Bidder ID cannot be empty."))
    else match Repo.GetById(store, id)
      case None => Fail(Returned("Bidder with ID " + GuidText(id) + " does not exist."))
      case Some(b) => Ok(b)
  }

  /** `CreateBidderAsync`: the id is checked before the name; on success the bidder
      is stored and returned. */
  function CreateBidder(store: seq<Bidder>, id: Guid, name: string): (r: Step<seq<Bidder>, Bidder>)
    ensures id == EmptyGuid ==> r.result == Fail(Returned("Bidder ID cannot be empty."))
    ensures id != EmptyGuid && IsBlank(name) ==> r.result == Fail(Returned("Bidder name cannot be empty."))
    ensures r.result.Ok? <==> id != EmptyGuid && !IsBlank(name)
    ensures r.result.Fail? ==> r.state == store
    ensures r.result.Ok? ==> r.result.value == Bidder(id, name) && r.state == store + [Bidder(id, name)]
  {
    if id == EmptyGuid then Step(store, Fail(Returned("Bidder ID cannot be empty.")))
    else if IsBlank(name) then Step(store, Fail(Returned("Bidder name cannot be empty.")))
    else
      var (store', _) := Repo.Create(store, id, name);
      Step(store', Ok(Bidder(id, name)))
  }

  /** A bidder created through the service under a fresh id can be fetched back. */
  lemma CreateThenGetBidder(store: seq<Bidder>, id: Guid, name: string)
    requires Repo.GetById(store, id).None?
    requires CreateBidder(store, id, name).result.Ok?
    ensures GetBidderById(CreateBidder(store, id, name).state, id) == Ok(Bidder(id, name))
  {
    Repo.CreateThenGet(store, id, name, EmptyGuid);
  }

  /** `GetAllBiddersAsync`: the whole list, or a failure when it is empty. */
  function GetAllBidders(store: seq<Bidder>): (r: Result<seq<Bidder>>)
    ensures r.Ok? <==> |store| > 0
    ensures r.Ok? ==> r.value == Repo.GetAll(store)
    ensures r.Fail? ==> r.error == Returned("No bidders found.")
  {
    var bidders := Repo.GetAll(store);
    if |bidders| > 0 then Ok(bidders) else Fail(Returned("No bidders found."))
  }
}
