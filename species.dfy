/** The persisted `Species` entity and the invariant its field constraints declare. */
module SpeciesModel {
  import opened Lang
  import opened Constraints

  const COMMON_NAME_MAX: nat := 100
  const SCIENTIFIC_NAME_MAX: nat := 150
  const CONSERVATION_STATUS_MAX: nat := 50

  /**
   * A species record. `speciesId` is `null` until the store assigns it on
   * insert; the three strings are nullable, as Java's fields are.
   */
  datatype Species = Species(
    speciesId: Option<int>,
    commonName: Option<string>,
    scientificName: Option<string>,
    conservationStatus: Option<string>)

  /** The entity's `@NotBlank`/`@Size` constraints; the id carries none. */
  predicate ValidSpecies(s: Species) {
    && NotBlank(s.commonName) && SizeAtMost(s.commonName, COMMON_NAME_MAX)
    && NotBlank(s.scientificName) && SizeAtMost(s.scientificName, SCIENTIFIC_NAME_MAX)
    && NotBlank(s.conservationStatus) && SizeAtMost(s.conservationStatus, CONSERVATION_STATUS_MAX)
  }

  /** What validity means field by field: present, with a visible character, within its bound. */
  lemma ValidSpeciesFields(s: Species)
    requires ValidSpecies(s)
    ensures s.commonName.Some? && 0 < |s.commonName.value| <= COMMON_NAME_MAX
    ensures HasVisibleChar(s.commonName.value)
    ensures s.scientificName.Some? && 0 < |s.scientificName.value| <= SCIENTIFIC_NAME_MAX
    ensures HasVisibleChar(s.scientificName.value)
    ensures s.conservationStatus.Some? && 0 < |s.conservationStatus.value| <= CONSERVATION_STATUS_MAX
    ensures HasVisibleChar(s.conservationStatus.value)
  {
    NotBlankIffVisibleChar(s.commonName.value);
    NotBlankIffVisibleChar(s.scientificName.value);
    NotBlankIffVisibleChar(s.conservationStatus.value);
    NotBlankIsNonEmpty(s.commonName);
    NotBlankIsNonEmpty(s.scientificName);
    NotBlankIsNonEmpty(s.conservationStatus);
  }

  /** Validity never looks at the id: assigning one keeps a valid entity valid, and an invalid one invalid. */
  lemma ValidityIgnoresId(s: Species, id: Option<int>)
    ensures ValidSpecies(s.(speciesId := id)) == ValidSpecies(s)
  {
  }
}
