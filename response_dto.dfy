/** The outbound `SpeciesResponseDTO`: a plain holder mirroring the entity one-to-one. */
module ResponseDto {
  import opened Lang

  datatype SpeciesResponse = SpeciesResponse(
    id: Option<int>,
    commonName: Option<string>,
    scientificName: Option<string>,
    conservationStatus: Option<string>)
}
