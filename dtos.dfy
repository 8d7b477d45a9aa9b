/** The request shapes the service receives. Field validation happens before the
    service is called and is not part of this model. */
module Dtos {
  import opened Outcomes
  import opened Js

  /** A creation request: a name and a catalogue number. */
  datatype CreatePokemonDto = CreatePokemonDto(name: string, no: Number)

  /** A partial update: every field of a creation request, each optional. */
  datatype UpdatePokemonDto = UpdatePokemonDto(name: Option<string>, no: Option<Number>)

  /** Paging for the listing: both fields optional. */
  datatype PaginationDto = PaginationDto(limit: Option<int>, offset: Option<nat>)
}
