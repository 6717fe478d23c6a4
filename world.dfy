/**
 * `src/components/world.rs`: a world keeps its locations twice, as the list in
 * insertion order and as a map from id to location in which a later location
 * replaces an earlier one with the same id.
 */
module World {
  import opened Int32
  import opened Location

  class World {
    var name: string
    var id: i32
    var locations: seq<Location>
    var mapLocations: map<i32, Location>

    /** `build_world`: the given name and id, no locations. */
    constructor Build(name: string, id: i32)
      ensures this.name == name && this.id == id
      ensures locations == [] && mapLocations == map[]
    {
      this.name := name;
      this.id := id;
      locations := [];
      mapLocations := map[];
    }

    /** `add_location`: append to the list and (re)bind its id in the map. */
    method AddLocation(location: Location)
      modifies this
      ensures locations == old(locations) + [location]
      ensures mapLocations == old(mapLocations)[location.id := location]
      ensures name == old(name) && id == old(id)
    {
      locations := locations + [location];
      mapLocations := mapLocations[location.id := location];
    }
  }

  /**
   * Two locations with the same id: the list grows by two, the map gains at most
   * one key, and the map keeps only the second location.
   */
  method AddTwoWithSameId(world: World, first: Location, second: Location)
    requires first.id == second.id
    modifies world
    ensures world.locations == old(world.locations) + [first, second]
    ensures world.mapLocations == old(world.mapLocations)[second.id := second]
    ensures |world.mapLocations.Keys| <= |old(world.mapLocations).Keys| + 1
  {
    world.AddLocation(first);
    world.AddLocation(second);
    RebindGrowsByAtMostOne(old(world.mapLocations), second.id, second);
  }

  /** Binding one key grows a map's key set by at most one. */
  lemma RebindGrowsByAtMostOne<V>(m: map<i32, V>, k: i32, v: V)
    ensures |m[k := v].Keys| <= |m.Keys| + 1
    ensures k in m ==> |m[k := v].Keys| == |m.Keys|
  {
    if k in m {
      assert m[k := v].Keys == m.Keys;
    } else {
      assert m[k := v].Keys == m.Keys + {k};
    }
  }
}
