/** Identifiers the server assigns to artworks, as opaque strings. */
module Identifiers {
  type Id = string
}
