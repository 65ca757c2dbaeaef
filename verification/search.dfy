/** The `ISearch<T>` predicates of `cams.contracts.Search` and their
    conjunction, `SearchAggregator<T>`.
 */
module Search {
  import opened Wrappers
  import opened Text
  import opened Models

  // ---------------------------------------------------------------------
  // SearchAggregator

  /** `SearchAggregator.Match`: `searches.All(s => s.Match(item))`. */
  function MatchAll<S, T>(searches: seq<S>, matches: (S, T) -> bool, item: T): (r: bool)
    ensures r <==> forall i :: 0 <= i < |searches| ==> matches(searches[i], item)
    decreases |searches|
  {
    |searches| == 0 || (matches(searches[0], item) && MatchAll(searches[1..], matches, item))
  }

  /** An aggregator with no sub-searches matches everything; with one it is that search. */
  lemma MatchAllEmptyAndSingleton<S, T>(s: S, matches: (S, T) -> bool, item: T)
    ensures MatchAll([], matches, item)
    ensures MatchAll([s], matches, item) == matches(s, item)
  {
  }

  /** Adding sub-searches can only shrink the set of matches: the aggregator of a
      concatenation matches exactly when both parts do. */
  lemma MatchAllAppend<S, T>(a: seq<S>, b: seq<S>, matches: (S, T) -> bool, item: T)
    ensures MatchAll(a + b, matches, item) <==> MatchAll(a, matches, item) && MatchAll(b, matches, item)
  {
    if MatchAll(a, matches, item) && MatchAll(b, matches, item) {
      forall i | 0 <= i < |a + b| ensures matches((a + b)[i], item) {
        if i >= |a| {
          assert (a + b)[i] == b[i - |a|];
        }
      }
    }
    if MatchAll(a + b, matches, item) {
      forall i | 0 <= i < |a| ensures matches(a[i], item) {
        assert (a + b)[i] == a[i];
      }
      forall i | 0 <= i < |b| ensures matches(b[i], item) {
        assert (a + b)[|a| + i] == b[i];
      }
    }
  }

  /** Every search of `b` also occurs in `a`, so whatever `a` matches, `b` matches. */
  lemma MatchAllSubset<S, T>(a: seq<S>, b: seq<S>, matches: (S, T) -> bool, item: T)
    requires forall j :: 0 <= j < |b| ==> b[j] in a
    requires MatchAll(a, matches, item)
    ensures MatchAll(b, matches, item)
  {
    forall j | 0 <= j < |b| ensures matches(b[j], item) {
      assert b[j] in a;
      var i :| 0 <= i < |a| && a[i] == b[j];
    }
  }

  /** The order of the sub-searches does not affect the result. */
  lemma MatchAllPermutation<S, T>(a: seq<S>, b: seq<S>, matches: (S, T) -> bool, item: T)
    requires multiset(a) == multiset(b)
    ensures MatchAll(a, matches, item) == MatchAll(b, matches, item)
  {
    forall j | 0 <= j < |b| ensures b[j] in a {
      assert b[j] in multiset(b);
    }
    forall i | 0 <= i < |a| ensures a[i] in b {
      assert a[i] in multiset(a);
    }
    if MatchAll(a, matches, item) {
      MatchAllSubset(a, b, matches, item);
    }
    if MatchAll(b, matches, item) {
      MatchAllSubset(b, a, matches, item);
    }
  }

  // ---------------------------------------------------------------------
  // Vehicle searches

  /** `ModelSearch.Match`: a vehicle without a model matches; otherwise the query
      must occur in the model, ignoring case. */
  function ModelMatch(query: string, v: Vehicle): (r: bool)
    ensures IsBlank(v.model) ==> r
    ensures !IsBlank(v.model) ==> (r <==> exists i :: OccursAt(Lower(v.model), Lower(query), i))
    ensures EqualsIgnoreCase(query, v.model) ==> r
    ensures query == "" ==> r
  {
    ContainsIffSlice(Lower(v.model), Lower(query));
    ContainsSelfAndEmpty(Lower(v.model));
    assert Lower("") == "";
    IsBlank(v.model) || ContainsIgnoreCase(v.model, query)
  }

  /** `ManufacturerSearch.Match`: a vehicle without a manufacturer matches; otherwise
      the query must occur in the manufacturer, ignoring case. */
  function ManufacturerMatch(query: string, v: Vehicle): (r: bool)
    ensures IsBlank(v.manufacturer) ==> r
    ensures !IsBlank(v.manufacturer) ==>
              (r <==> exists i :: OccursAt(Lower(v.manufacturer), Lower(query), i))
    ensures EqualsIgnoreCase(query, v.manufacturer) ==> r
    ensures query == "" ==> r
  {
    ContainsIffSlice(Lower(v.manufacturer), Lower(query));
    ContainsSelfAndEmpty(Lower(v.manufacturer));
    assert Lower("") == "";
    IsBlank(v.manufacturer) || ContainsIgnoreCase(v.manufacturer, query)
  }

  /** `YearSearch.Match` for an `int?` year: `year != 0 && item.Year == year` with
      C#'s lifted comparisons, under which a null year is unequal to everything. */
  function YearMatch(year: Option<int>, v: Vehicle): (r: bool)
    ensures r <==> year.Some? && year.value != 0 && year.value == v.year
  {
    year != Some(0) && year == Some(v.year)
  }

  /** The vehicle searches `VehicleService.Search` composes. */
  datatype VehicleSearch =
    | ModelSearch(model: string)
    | ManufacturerSearch(manufacturer: string)
    | YearSearch(year: Option<int>)

  function MatchVehicle(s: VehicleSearch, v: Vehicle): bool
  {
    match s
    case ModelSearch(q) => ModelMatch(q, v)
    case ManufacturerSearch(q) => ManufacturerMatch(q, v)
    case YearSearch(y) => YearMatch(y, v)
  }

  // ---------------------------------------------------------------------
  // Auction searches

  /** `VinSearch.Match`: a blank VIN matches every auction; otherwise the VIN must
      equal the auctioned vehicle's reference, ignoring case. */
  function VinMatch(vin: string, a: Auction): (r: bool)
    ensures IsBlank(vin) ==> r
    ensures !IsBlank(vin) ==> (r <==> EqualsIgnoreCase(vin, a.vehicle.Reference()))
    ensures !IsBlank(vin) && r ==> |vin| == |a.vehicle.Reference()|
  {
    assert |Lower(vin)| == |vin| && |Lower(a.vehicle.Reference())| == |a.vehicle.Reference()|;
    IsBlank(vin) || EqualsIgnoreCase(a.vehicle.Reference(), vin)
  }

  /** VIN search is equality, not a substring test: a non-blank proper prefix of the
      reference does not match. */
  lemma VinPrefixDoesNotMatch(vin: string, a: Auction)
    requires !IsBlank(vin)
    requires |vin| < |a.vehicle.Reference()| && IsPrefix(vin, a.vehicle.Reference())
    ensures !VinMatch(vin, a)
  {
  }

  /** `AuctionIdSearch.Match`: the auction's id equals the searched id. */
  function AuctionIdMatch(id: Guid, a: Auction): bool
  {
    a.id == id
  }

  /** The id search reads nothing but the id; the empty GUID is not a wildcard. */
  lemma AuctionIdMatchOnlyReadsId(id: Guid, a: Auction, b: Auction)
    requires a.id == b.id
    ensures AuctionIdMatch(id, a) == AuctionIdMatch(id, b)
    ensures AuctionIdMatch(a.id, a)
    ensures AuctionIdMatch(EmptyGuid, a) <==> a.id == EmptyGuid
  {
  }

  /** The auction searches. */
  datatype AuctionSearch =
    | VinSearch(vin: string)
    | AuctionIdSearch(id: Guid)

  function MatchAuction(s: AuctionSearch, a: Auction): bool
  {
    match s
    case VinSearch(vin) => VinMatch(vin, a)
    case AuctionIdSearch(id) => AuctionIdMatch(id, a)
  }
}
