/** A place on the map, as the finder and the page templates use it. */
module Geography {
  datatype Coordinates = Coordinates(latitude: real, longitude: real)
}
