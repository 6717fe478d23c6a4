/** `src/components/location.rs`: a named place with a numeric id. */
module Location {
  import opened Int32

  datatype Location = Location(name: string, id: i32)

  /** `Default for Location`: empty name, id 0. */
  function DefaultLocation(): Location
  {
    Location([], 0)
  }
}
