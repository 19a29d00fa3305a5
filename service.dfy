/**
 * `SpeciesService`: the five operations over the injected store. Lookups
 * that miss throw `SpeciesNotFoundException`; everything else is a field
 * copy through the mapper.
 */
module Service {
  import opened Lang
  import opened SpeciesModel
  import opened RequestDto
  import opened ResponseDto
  import opened SpeciesMapper
  import opened Errors
  import opened Repository

  /** The stream map of `getAll`: `toResponseDTO` applied to each entity, order kept. */
  function ToResponseDtos(all: seq<Species>): (responses: seq<SpeciesResponse>)
    ensures |responses| == |all|
    ensures forall k :: 0 <= k < |all| ==> responses[k] == ToResponseDto(all[k])
  {
    seq(|all|, k requires 0 <= k < |all| => ToResponseDto(all[k]))
  }

  class SpeciesService {
    const repository: SpeciesRepository

    constructor (repository: SpeciesRepository)
      ensures this.repository == repository
    {
      this.repository := repository;
    }

    /** `getAll`: one response per stored entity, in store order, each the mapped entity. */
    method GetAll() returns (responses: seq<SpeciesResponse>)
      requires repository.Valid()
      ensures responses == ToResponseDtos(repository.FindAll())
      ensures forall k :: 0 <= k < |responses| ==>
                && responses[k].id.Some?
                && responses[k].id.value in repository.rows
                && responses[k] == ToResponseDto(repository.rows[responses[k].id.value])
      ensures forall id :: id in repository.rows ==>
                exists k :: 0 <= k < |responses| && responses[k] == ToResponseDto(repository.rows[id])
      ensures forall j, k :: 0 <= j < k < |responses| ==> responses[j].id.value < responses[k].id.value
      ensures repository.rows == map[] ==> responses == []
    {
      var all := repository.FindAll();
      responses := ToResponseDtos(all);
      repository.FindAllIsComplete();
      forall id | id in repository.rows
        ensures exists k :: 0 <= k < |responses| && responses[k] == ToResponseDto(repository.rows[id])
      {
        var k :| 0 <= k < |all| && all[k] == repository.rows[id];
        assert responses[k] == ToResponseDto(all[k]);
      }
    }

    /** `getById`: the mapped entity when `id` is stored, otherwise the not-found failure for `id`. */
    method GetById(id: int) returns (r: Result<SpeciesResponse, ServiceError>)
      requires repository.Valid()
      ensures r.Success? <==> id in repository.rows
      ensures r.Success? ==> r.value == ToResponseDto(repository.rows[id]) && r.value.id == Some(id)
      ensures r.Failure? ==> r.error == NotFoundError(id)
    {
      var found := repository.FindById(id);
      match found
      case None =>
        r := Failure(NotFoundError(id));
      case Some(species) =>
        r := Success(ToResponseDto(species));
    }

    /**
     * `saveSpecies`: inserts the request's fields under a fresh id, leaving
     * every earlier row as it was. When the request breaks the entity
     * invariant the store refuses it and nothing changes.
     */
    method SaveSpecies(dto: SpeciesRequest) returns (r: Result<SpeciesResponse, ServiceError>)
      requires repository.Valid()
      modifies repository
      ensures repository.Valid()
      ensures r.Success? <==> ValidSpecies(ToEntity(dto))
      ensures r.Failure? ==>
                r.error == ConstraintViolation && unchanged(repository)
      ensures r.Success? ==>
                var id := old(repository.nextId);
                && id !in old(repository.rows)
                && r.value == SpeciesResponse(Some(id), dto.commonName, dto.scientificName, dto.conservationStatus)
                && repository.rows == old(repository.rows)[id := ToEntity(dto).(speciesId := Some(id))]
                && repository.nextId == id + 1
    {
      var species := ToEntity(dto);
      var saved := repository.Save(species);
      match saved
      case Failure(e) =>
        r := Failure(e);
      case Success(stored) =>
        r := Success(ToResponseDto(stored));
    }

    /**
     * `updateSpecies`: overwrites all three strings of the entity stored
     * under `id` with the request's, keeps its id and every other row, and
     * returns the mapped result. An absent id fails with not-found and
     * changes nothing; so does an update the entity invariant refuses.
     */
    method UpdateSpecies(id: int, dto: SpeciesRequest) returns (r: Result<SpeciesResponse, ServiceError>)
      requires repository.Valid()
      modifies repository
      ensures repository.Valid()
      ensures repository.nextId == old(repository.nextId)
      ensures id !in old(repository.rows) ==>
                r == Failure(NotFoundError(id)) && unchanged(repository)
      ensures id in old(repository.rows) && !ValidSpecies(ToEntity(dto)) ==>
                r == Failure(ConstraintViolation) && unchanged(repository)
      ensures id in old(repository.rows) && ValidSpecies(ToEntity(dto)) ==>
                var updated := ToEntity(dto).(speciesId := Some(id));
                && r == Success(ToResponseDto(updated))
                && repository.rows == old(repository.rows)[id := updated]
    {
      var found := repository.FindById(id);
      if found.None? {
        return Failure(NotFoundError(id));
      }
      var species := found.value.(commonName := dto.commonName,
                                  scientificName := dto.scientificName,
                                  conservationStatus := dto.conservationStatus);
      var saved := repository.Save(species);
      match saved
      case Failure(e) =>
        r := Failure(e);
      case Success(stored) =>
        r := Success(ToResponseDto(stored));
    }

    /** `deleteSpecies`: removes exactly the row under `id`; an absent id fails with not-found. */
    method DeleteSpecies(id: int) returns (r: Outcome<ServiceError>)
      requires repository.Valid()
      modifies repository
      ensures repository.Valid()
      ensures repository.nextId == old(repository.nextId)
      ensures r.Pass? <==> id in old(repository.rows)
      ensures r.Pass? ==> repository.rows == old(repository.rows) - {id}
      ensures r.Fail? ==> r.error == NotFoundError(id) && unchanged(repository)
    {
      var found := repository.FindById(id);
      if found.None? {
        return Fail(NotFoundError(id));
      }
      repository.Delete(found.value);
      r := Pass;
    }
  }
}
