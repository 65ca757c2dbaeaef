/** The factories that turn a `VehicleType` into a concrete class:
    `VehicleFactory.CreateVehicle` (contracts vehicle classes) and the two
    copies of `VehicleAttributesFactory.CreateVehicleAttributes`
    (application and contracts attribute classes).
 */
module Factories {
  import opened Wrappers
  import opened Text
  import opened VehicleTypes
  import M = Models
  import opened AppModels

  /** The fields of an add-vehicle request the factory reads. The vehicle type
      is the enum's underlying int, which may be an undeclared value. */
  datatype AddVehicleRequest = AddVehicleRequest(
    vin: string,
    vehicleType: int,
    manufacturer: string,
    model: string,
    year: int,
    numberOfDoors: int,
    numberOfSeats: int,
    loadCapacity: int)

  /** The category a vehicle class stands for; `Sedan` and `Sedans` both stand for `Sedan`. */
  function Category(v: M.Vehicle): VehicleType
  {
    match v
    case Hatchback(_, _, _, _, _) => Hatchback
    case Sedan(_, _, _, _, _) => Sedan
    case Sedans(_, _, _, _, _) => Sedan
    case Suv(_, _, _, _, _) => Suv
    case Truck(_, _, _, _, _) => Truck
  }

  /** The one category-specific number a vehicle carries. */
  function CarriedAttribute(v: M.Vehicle): int
  {
    match v
    case Hatchback(_, _, _, _, d) => d
    case Sedan(_, _, _, _, d) => d
    case Sedans(_, _, _, _, d) => d
    case Suv(_, _, _, _, s) => s
    case Truck(_, _, _, _, l) => l
  }

  /** The request field that belongs to a category: doors, seats or load capacity. */
  function RequestedAttribute(req: AddVehicleRequest, t: VehicleType): int
  {
    match t
    case Hatchback => req.numberOfDoors
    case Sedan => req.numberOfDoors
    case Suv => req.numberOfSeats
    case Truck => req.loadCapacity
  }

  /** `VehicleFactory.CreateVehicle`: one concrete class per declared type,
      an `ArgumentOutOfRangeException` for any other value. */
  function CreateVehicle(req: AddVehicleRequest): (r: Result<M.Vehicle>)
    ensures r.Fail? <==> FromCode(req.vehicleType).None?
    ensures r.Fail? ==> r.error.Thrown? && r.error.exception == "ArgumentOutOfRangeException"
    ensures r.Ok? ==> Some(Category(r.value)) == FromCode(req.vehicleType)
    ensures r.Ok? ==> r.value.Reference() == req.vin && r.value.manufacturer == req.manufacturer
                      && r.value.model == req.model && r.value.year == req.year
    ensures r.Ok? ==> CarriedAttribute(r.value) == RequestedAttribute(req, Category(r.value))
    ensures r.Ok? && Category(r.value) == Sedan ==> r.value.Sedans?
  {
    match FromCode(req.vehicleType)
    case None =>
      Fail(Thrown("ArgumentOutOfRangeException", "Specified argument was out of the range of valid values."))
    case Some(t) =>
      Ok(match t
         case Hatchback => M.Hatchback(req.manufacturer, req.model, req.year, req.vin, req.numberOfDoors)
         case Sedan => M.Sedans(req.manufacturer, req.model, req.year, req.vin, req.numberOfDoors)
         case Suv => M.Suv(req.manufacturer, req.model, req.year, req.vin, req.numberOfSeats)
         case Truck => M.Truck(req.manufacturer, req.model, req.year, req.vin, req.loadCapacity))
  }

  /** The class name of a factory-built vehicle equals the enum member's name for
      every type except `Sedan`, whose class is `Sedans`. A starting-bid table keyed
      by enum names therefore has no entry for a factory-built sedan. */
  lemma CreatedTypeNameIsEnumNameExceptSedan(req: AddVehicleRequest)
    requires CreateVehicle(req).Ok?
    ensures var v := CreateVehicle(req).value;
            M.TypeName(v) == EnumName(Category(v)) <==> Category(v) != Sedan
    ensures Category(CreateVehicle(req).value) == Sedan ==> M.TypeName(CreateVehicle(req).value) == "Sedans"
  {
  }

  /** The attribute class that stands for a category. */
  function AttributesCategory(d: AttributeDetail): VehicleType
  {
    match d
    case SedanAttributes(_) => Sedan
    case HatchbackAttributes(_) => Hatchback
    case SuvAttributes(_) => Suv
    case TruckAttributes(_) => Truck
  }

  /** A freshly constructed attribute object: every property at its default. */
  function NewAttributes(t: VehicleType): VehicleAttributes
  {
    var detail := match t
      case Sedan => SedanAttributes(0)
      case Hatchback => HatchbackAttributes(0)
      case Suv => SuvAttributes(0)
      case Truck => TruckAttributes(0);
    VehicleAttributes("", "", 0, detail)
  }

  /** `cams.application.factories.VehicleAttributesFactory.CreateVehicleAttributes`. */
  function CreateVehicleAttributes(vehicleType: int): (r: Result<VehicleAttributes>)
    ensures r.Fail? <==> FromCode(vehicleType).None?
    ensures r.Fail? ==> r.error == Thrown("ArgumentException", "Invalid vehicle type")
    ensures r.Ok? ==> Some(AttributesCategory(r.value.detail)) == FromCode(vehicleType)
    ensures r.Ok? ==> BidKey(r.value.detail) == EnumName(AttributesCategory(r.value.detail))
  {
    match FromCode(vehicleType)
    case None => Fail(Thrown("ArgumentException", "Invalid vehicle type"))
    case Some(t) => BidKeyIsEnumName(NewAttributes(t).detail); Ok(NewAttributes(t))
  }

  /** `cams.contracts.factories.VehicleAttributesFactory.CreateVehicleAttributes`, the
      duplicate in the contracts namespace. Its attribute classes have the same shape
      as the application ones and share their datatype here. */
  function CreateContractAttributes(vehicleType: int): (r: Result<VehicleAttributes>)
    ensures r.Fail? <==> FromCode(vehicleType).None?
    ensures r.Fail? ==> r.error == Thrown("ArgumentException", "Invalid vehicle type")
    ensures r.Ok? ==> Some(AttributesCategory(r.value.detail)) == FromCode(vehicleType)
  {
    match FromCode(vehicleType)
    case None => Fail(Thrown("ArgumentException", "Invalid vehicle type"))
    case Some(t) => Ok(NewAttributes(t))
  }

  /** Removing "Attributes" from an attribute class name leaves the enum member's name. */
  lemma BidKeyIsEnumName(d: AttributeDetail)
    ensures BidKey(d) == EnumName(AttributesCategory(d))
  {
    var name := EnumName(AttributesCategory(d));
    assert AttributesTypeName(d) == name + "Attributes";
    ReplaceDropsSuffix(name, "Attributes");
  }

  /** Distinct declared types give attribute objects of distinct classes. */
  lemma AttributesInjective(c1: int, c2: int)
    requires 0 <= c1 <= 3 && 0 <= c2 <= 3
    requires c1 != c2
    ensures CreateVehicleAttributes(c1).Ok? && CreateVehicleAttributes(c2).Ok?
    ensures AttributesTypeName(CreateVehicleAttributes(c1).value.detail)
            != AttributesTypeName(CreateVehicleAttributes(c2).value.detail)
  {
  }

  /** The contracts copy is injective and total over the four declared members. */
  lemma ContractAttributesInjectiveAndTotal(c1: int, c2: int)
    requires 0 <= c1 <= 3 && 0 <= c2 <= 3
    ensures CreateContractAttributes(c1).Ok? && CreateContractAttributes(c2).Ok?
    ensures c1 != c2 ==> AttributesTypeName(CreateContractAttributes(c1).value.detail)
                         != AttributesTypeName(CreateContractAttributes(c2).value.detail)
  {
  }
}
