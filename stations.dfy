/**
 * The provider's records as the itinerary server deserialises them
 * (`Contact`, `Position`, `Availabilities`, `Stands`, `Station`). A C# `null`
 * reference is `None`; fields that no decision reads are left out.
 */
module Stations {
  import opened Wrappers

  /** One contract (service region) of the provider. */
  datatype Contact = Contact(name: string, commercialName: string, cities: seq<string>, countryCode: string)

  /** A coordinate in decimal degrees. */
  datatype Position = Position(latitude: real, longitude: real)

  /** Bikes present and free docks. */
  datatype Availabilities = Availabilities(bikes: int, stands: int)

  /** A group of docks and what is available in it. */
  datatype Stands = Stands(availabilities: Option<Availabilities>, capacity: int)

  /** One physical station. */
  datatype Station = Station(
    number: int,
    contractName: string,
    name: string,
    address: string,
    position: Option<Position>,
    status: string,
    totalStands: Option<Stands>)
}
