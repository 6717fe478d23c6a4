/**
 * `src/components/actor.rs`: an actor with its current location, the list and
 * id map of the locations it has visited, its timing fields and its member
 * actors keyed by id.
 */
module Actor {
  import opened Wrappers
  import opened Int32
  import opened Location

  class Actor {
    var name: string
    var id: i32
    var location: Option<Location>
    var locations: seq<Location>
    var mapLocations: map<i32, Location>
    var entryTime: i32
    var lifeTime: i32
    var members: map<i32, Actor>
    var parentId: i32

    /** `Default for Actor`: empty collections, zero numbers, at the default location. */
    constructor Default()
      ensures name == [] && id == 0 && entryTime == 0 && lifeTime == 0 && parentId == 0
      ensures locations == [] && mapLocations == map[] && members == map[]
      ensures location == Some(DefaultLocation())
    {
      name := [];
      id := 0;
      entryTime := 0;
      lifeTime := 0;
      parentId := 0;
      locations := [];
      mapLocations := map[];
      location := Some(DefaultLocation());
      members := map[];
    }

    /** `add_location`: append to the list and (re)bind its id in the map; nothing else changes. */
    method AddLocation(location: Location)
      modifies this
      ensures locations == old(locations) + [location]
      ensures mapLocations == old(mapLocations)[location.id := location]
      ensures name == old(name) && id == old(id) && this.location == old(this.location)
      ensures entryTime == old(entryTime) && lifeTime == old(lifeTime)
      ensures members == old(members) && parentId == old(parentId)
    {
      locations := locations + [location];
      mapLocations := mapLocations[location.id := location];
    }

    /** `set_entry_time`: only the entry time changes. */
    method SetEntryTime(time: i32)
      modifies this
      ensures entryTime == time
      ensures name == old(name) && id == old(id) && location == old(location)
      ensures locations == old(locations) && mapLocations == old(mapLocations)
      ensures lifeTime == old(lifeTime) && members == old(members) && parentId == old(parentId)
    {
      entryTime := time;
    }

    /** `has_member`: whether an actor with that id is a member. */
    predicate HasMember(memberId: i32)
      reads this
    {
      memberId in members
    }
  }
}
