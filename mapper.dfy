/**
 * `SpeciesMapper`: total, stateless field copies between the entity and the
 * two transfer shapes, and what they imply for the two validity checks.
 */
module SpeciesMapper {
  import opened Lang
  import opened Constraints
  import opened SpeciesModel
  import opened RequestDto
  import opened ResponseDto

  function ToResponseDto(species: Species): SpeciesResponse {
    SpeciesResponse(species.speciesId, species.commonName, species.scientificName, species.conservationStatus)
  }

  /** A fresh entity carrying the request's strings and no id yet. */
  function ToEntity(dto: SpeciesRequest): Species {
    Species(None, dto.commonName, dto.scientificName, dto.conservationStatus)
  }

  /** The response mirrors the entity: every field is copied unchanged. */
  lemma ToResponseDtoCopiesFields(species: Species)
    ensures ToResponseDto(species).id == species.speciesId
    ensures ToResponseDto(species).commonName == species.commonName
    ensures ToResponseDto(species).scientificName == species.scientificName
    ensures ToResponseDto(species).conservationStatus == species.conservationStatus
  {
  }

  /** The mapping to responses is one-to-one: distinct entities give distinct responses. */
  lemma ToResponseDtoInjective(a: Species, b: Species)
    ensures ToResponseDto(a) == ToResponseDto(b) ==> a == b
  {
  }

  /** Request to entity to response keeps the three strings and leaves the id null. */
  lemma RequestRoundTrip(dto: SpeciesRequest)
    ensures ToResponseDto(ToEntity(dto)) == SpeciesResponse(None, dto.commonName, dto.scientificName, dto.conservationStatus)
  {
  }

  /** Every entity invariant violation a valid request can carry past its own check. */
  lemma RequestEntityGap(dto: SpeciesRequest)
    ensures ValidSpecies(ToEntity(dto)) <==>
      && ValidRequest(dto)
      && SizeAtMost(dto.commonName, COMMON_NAME_MAX)
      && SizeAtMost(dto.scientificName, SCIENTIFIC_NAME_MAX)
      && NotBlank(dto.conservationStatus)
      && SizeAtMost(dto.conservationStatus, CONSERVATION_STATUS_MAX)
  {
  }

  /** The entity invariant is the stronger check: an entity-valid request is request-valid. */
  lemma EntityValidityImpliesRequestValidity(dto: SpeciesRequest)
    ensures ValidSpecies(ToEntity(dto)) ==> ValidRequest(dto)
  {
  }

  /** The converse fails: a request with a null status passes its own check, yet its entity is invalid. */
  lemma RequestValidityDoesNotImplyEntityValidity()
    ensures exists dto :: ValidRequest(dto) && !ValidSpecies(ToEntity(dto))
  {
    var dto := SpeciesRequest(Some("Lince ibérico"), Some("Lynx pardinus"), None);
    NotBlankIffVisibleChar("Lince ibérico");
    NotBlankIffVisibleChar("Lynx pardinus");
    assert "Lince ibérico"[0] > ' ';
    assert "Lynx pardinus"[0] > ' ';
    assert ValidRequest(dto) && !ValidSpecies(ToEntity(dto));
  }
}
