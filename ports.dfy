/** ports/ports.go: the response records the stores hand to the HTTP
    layer and the errors they report. */
module Ports {
  import opened Common

  datatype Coords = Coords(x: int, y: int, z: int)

  /** SystemResponse and SystemsResponse have the same fields. */
  datatype SystemResponse = SystemResponse(id: int, coords: Coords, visited: bool, link: string)

  datatype TurnNumberResponse = TurnNumberResponse(turnNumber: int)

  datatype UserResponse = UserResponse(id: int)

  datatype VersionResponse = VersionResponse(version: string)

  datatype KnownSpeciesResponse = KnownSpeciesResponse(id: int)

  datatype SpeciesResponse = SpeciesResponse(id: int)

  /** ErrInternalError, ErrNotFound and ErrUnauthorized. */
  datatype StoreError = InternalError | NotFound | Unauthorized

  /** fmt.Sprintf("/api/system/%d %d %d", x, y, z). */
  function SystemLink(x: int, y: int, z: int): string
  {
    "/api/system/" + CoordsText(x, y, z)
  }
}
