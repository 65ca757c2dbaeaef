/** The closed `VehicleType` enum. A C# enum variable can hold any int, so
    the factories receive the underlying code and must handle undeclared ones.
 */
module VehicleTypes {
  import opened Wrappers

  datatype VehicleType = Hatchback | Sedan | Suv | Truck

  /** The declared underlying values: Hatchback = 0, Sedan = 1, Suv = 2, Truck = 3. */
  function Code(t: VehicleType): int
  {
    match t
    case Hatchback => 0
    case Sedan => 1
    case Suv => 2
    case Truck => 3
  }

  /** The declared member whose value is `code`, if there is one. */
  function FromCode(code: int): (r: Option<VehicleType>)
    ensures r.Some? ==> Code(r.value) == code
    ensures r.None? <==> code < 0 || code > 3
  {
    if code == 0 then Some(Hatchback)
    else if code == 1 then Some(Sedan)
    else if code == 2 then Some(Suv)
    else if code == 3 then Some(Truck)
    else None
  }

  /** `VehicleType.ToString()` for a declared member. */
  function EnumName(t: VehicleType): string
  {
    match t
    case Hatchback => "Hatchback"
    case Sedan => "Sedan"
    case Suv => "Suv"
    case Truck => "Truck"
  }

  /** Every declared member is recovered from its code. */
  lemma CodeRoundTrip(t: VehicleType)
    ensures FromCode(Code(t)) == Some(t)
  {
  }
}

/** The entity classes of the `cams.contracts.models` namespace. */
module Models {
  import opened Wrappers
  import opened Text

  newtype u128 = x: int | 0 <= x < 0x1_0000_0000_0000_0000_0000_0000_0000_0000

  /** A GUID, as the 128-bit number its 32 hexadecimal digits spell. */
  datatype Guid = Guid(bits: u128)

  /** `Guid.Empty`. */
  const EmptyGuid: Guid := Guid(0)

  /** `Guid.ToString()`: 32 lower-case hexadecimal digits grouped 8-4-4-4-12. */
  function GuidText(g: Guid): (r: string)
    ensures |r| == 36
  {
    var h := Hex(g.bits as nat, 32);
    h[..8] + "-" + h[8..12] + "-" + h[12..16] + "-" + h[16..20] + "-" + h[20..]
  }

  datatype Bidder = Bidder(id: Guid, name: string)

  /** The vehicle class hierarchy as a tagged union: one constructor per
      concrete class. `Sedan` and `Sedans` are two distinct classes; the
      factory builds `Sedans`, the seeded inventory holds a `Sedan`. */
  datatype Vehicle =
    | Hatchback(manufacturer: string, model: string, year: int, vin: string, numberOfDoors: int)
    | Sedan(manufacturer: string, model: string, year: int, vin: string, numberOfDoors: int)
    | Sedans(manufacturer: string, model: string, year: int, vin: string, numberOfDoors: int)
    | Suv(manufacturer: string, model: string, year: int, vin: string, numberOfSeats: int)
    | Truck(manufacturer: string, model: string, year: int, vin: string, loadCapacity: int)
  {
    /** The reference that stores and searches key a vehicle by: its VIN. */
    function Reference(): string
    {
      vin
    }
  }

  /** `vehicle.GetType().Name`. */
  function TypeName(v: Vehicle): string
  {
    match v
    case Hatchback(_, _, _, _, _) => "Hatchback"
    case Sedan(_, _, _, _, _) => "Sedan"
    case Sedans(_, _, _, _, _) => "Sedans"
    case Suv(_, _, _, _, _) => "Suv"
    case Truck(_, _, _, _, _) => "Truck"
  }

  /** The `Sedan` constructor with a nullable door count: four doors when none is given. */
  function NewSedan(manufacturer: string, model: string, year: int, vin: string, numberOfDoors: Option<int>): Vehicle
  {
    Sedan(manufacturer, model, year, vin, if numberOfDoors.Some? then numberOfDoors.value else 4)
  }

  /** An auction. Money is an exact `decimal` in the source; whole units here. */
  datatype Auction = Auction(
    id: Guid,
    name: string,
    startingBid: int,
    vehicle: Vehicle,
    bidders: seq<Bidder>,
    highestBidder: Option<Bidder>,
    isActive: bool,
    currentBid: int,
    hammerPrice: int)
}

/** The entity classes of the older `cams.application.models` namespace.
    Its `Bidder` has the same shape as the contracts one and is reused. */
module AppModels {
  import opened Wrappers
  import opened Text
  import Models
  import opened VehicleTypes

  /** The concrete attribute classes; manufacturer, model and year live on the
      common base class. */
  datatype AttributeDetail =
    | SedanAttributes(numberOfDoors: int)
    | HatchbackAttributes(numberOfDoors: int)
    | SuvAttributes(numberOfSeats: int)
    | TruckAttributes(loadCapacity: int)

  datatype VehicleAttributes = VehicleAttributes(
    manufacturer: string, model: string, year: int, detail: AttributeDetail)

  /** `attributes.GetType().Name`. */
  function AttributesTypeName(d: AttributeDetail): string
  {
    match d
    case SedanAttributes(_) => "SedanAttributes"
    case HatchbackAttributes(_) => "HatchbackAttributes"
    case SuvAttributes(_) => "SuvAttributes"
    case TruckAttributes(_) => "TruckAttributes"
  }

  /** The starting-bid lookup key of the older repository: the class name with
      every "Attributes" removed. */
  function BidKey(d: AttributeDetail): string
  {
    Replace(AttributesTypeName(d), "Attributes", "")
  }

  datatype AppVehicle = AppVehicle(vin: string, vehicleType: VehicleType, attributes: VehicleAttributes)

  /** An auction of the older model: start and end times, no hammer price.
      Times are opaque tick counts. */
  datatype AppAuction = AppAuction(
    id: Models.Guid,
    name: string,
    startingBid: int,
    vehicle: AppVehicle,
    bidders: seq<Models.Bidder>,
    highestBidder: Option<Models.Bidder>,
    isActive: bool,
    currentBid: int,
    startTime: int,
    endTime: int)
}
