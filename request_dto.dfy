/** The inbound `SpeciesRequestDTO` and its weaker declarative check. */
module RequestDto {
  import opened Lang
  import opened Constraints

  /** A create or update payload. It has no id field: identity comes from the path or the store. */
  datatype SpeciesRequest = SpeciesRequest(
    commonName: Option<string>,
    scientificName: Option<string>,
    conservationStatus: Option<string>)

  /** `@NotBlank` on the two names; no length bound and nothing on `conservationStatus`. */
  predicate ValidRequest(dto: SpeciesRequest) {
    NotBlank(dto.commonName) && NotBlank(dto.scientificName)
  }

  /** A valid request's two names each hold a character above U+0020. */
  lemma ValidRequestNames(dto: SpeciesRequest)
    requires ValidRequest(dto)
    ensures dto.commonName.Some? && HasVisibleChar(dto.commonName.value)
    ensures dto.scientificName.Some? && HasVisibleChar(dto.scientificName.value)
  {
    NotBlankIffVisibleChar(dto.commonName.value);
    NotBlankIffVisibleChar(dto.scientificName.value);
  }

  /** The status is never looked at: any value, `null` included, leaves validity as it was. */
  lemma StatusIsUnconstrained(dto: SpeciesRequest, status: Option<string>)
    ensures ValidRequest(dto.(conservationStatus := status)) == ValidRequest(dto)
  {
  }
}
