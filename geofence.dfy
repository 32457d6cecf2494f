/** The `geofence_check` endpoint of views.py: may a device at the posted coordinates use the app. The
    haversine distance is a parameter; floating-point values are represented by reals. */
module Geofence {
  import opened Wrappers

  datatype AccessArea = AccessArea(name: string, latitude: real, longitude: real, radiusMeters: int, active: bool)

  /** The JSON answer and its HTTP status. */
  datatype Answer = Answer(status: int, allowed: bool, reason: string)

  /** `GeofenceSettings.objects.first().enabled`; with no row the attribute access raises and the
      default `True` stays. */
  function Enabled(settings: seq<bool>): (e: bool)
    ensures settings == [] ==> e
  {
    if settings == [] then true else settings[0]
  }

  /** The area is active and the device lies within its radius. */
  predicate Within(area: AccessArea, lat: real, lng: real, distance: (real, real, real, real) -> real)
  {
    area.active && distance(lat, lng, area.latitude, area.longitude) <= area.radiusMeters as real
  }

  /** The first area, in table order, that the device is within. */
  function FirstWithin(areas: seq<AccessArea>, lat: real, lng: real, distance: (real, real, real, real) -> real): (k: Option<nat>)
    ensures k.None? <==> forall i :: 0 <= i < |areas| ==> !Within(areas[i], lat, lng, distance)
    ensures k.Some? ==> k.value < |areas| && Within(areas[k.value], lat, lng, distance)
    ensures k.Some? ==> forall i :: 0 <= i < k.value ==> !Within(areas[i], lat, lng, distance)
    decreases |areas|
  {
    if areas == [] then None
    else if Within(areas[0], lat, lng, distance) then Some(0)
    else
      match FirstWithin(areas[1..], lat, lng, distance)
      case None => None
      case Some(j) => Some(j + 1)
  }

  /** `geofence_check`, given the parsed coordinates (`None` when either field is missing or not a
      number, and always for a JSON body, since the request object has no `json` attribute), the
      settings rows' `enabled` flags, the areas, and the distance function. */
  method GeofenceCheck(coords: Option<(real, real)>, settings: seq<bool>, areas: seq<AccessArea>,
                       distance: (real, real, real, real) -> real)
    returns (answer: Answer)
    ensures coords.None? ==> answer == Answer(400, false, "Invalid coordinates")
    ensures coords.Some? && !Enabled(settings) ==> answer == Answer(200, true, "Geofencing disabled")
    ensures coords.Some? && Enabled(settings) ==>
              match FirstWithin(areas, coords.value.0, coords.value.1, distance)
              case Some(k) => answer == Answer(200, true, "Within area: " + areas[k].name)
              case None => answer == Answer(200, false, "You are out of the access area.")
    ensures coords.Some? ==>
              (answer.allowed <==>
                 !Enabled(settings) || exists i :: 0 <= i < |areas| && Within(areas[i], coords.value.0, coords.value.1, distance))
  {
    if coords.None? {
      return Answer(400, false, "Invalid coordinates");
    }
    var (lat, lng) := coords.value;
    var enabled := true;
    if settings != [] {
      enabled := settings[0];
    }
    if !enabled {
      return Answer(200, true, "Geofencing disabled");
    }
    var i := 0;
    while i < |areas|
      invariant 0 <= i <= |areas|
      invariant forall j :: 0 <= j < i ==> !Within(areas[j], lat, lng, distance)
    {
      var area := areas[i];
      if area.active {
        var dist := distance(lat, lng, area.latitude, area.longitude);
        if dist <= area.radiusMeters as real {
          return Answer(200, true, "Within area: " + area.name);
        }
      }
      i := i + 1;
    }
    return Answer(200, false, "You are out of the access area.");
  }

  /** Inactive areas are never matched, whatever the distance. */
  lemma InactiveAreasIgnored(areas: seq<AccessArea>, lat: real, lng: real, distance: (real, real, real, real) -> real)
    requires forall i :: 0 <= i < |areas| ==> !areas[i].active
    ensures FirstWithin(areas, lat, lng, distance).None?
  {
  }
}
