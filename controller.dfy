/**
 * `SpeciesController`: the REST handlers under `/api/species`. Each handler
 * runs the request-body check first (a failing body is answered 400 before
 * the service is called), calls one service operation, and wraps its result
 * in a status and a body; `handleSpeciesNotFound` turns a not-found failure
 * into 404 with the failure's message as the body.
 */
module Controller {
  import opened Lang
  import opened SpeciesModel
  import opened RequestDto
  import opened ResponseDto
  import opened SpeciesMapper
  import opened Errors
  import opened Repository
  import opened Service

  const OK: int := 200
  const CREATED: int := 201
  const NO_CONTENT: int := 204
  const BAD_REQUEST: int := 400
  const NOT_FOUND: int := 404

  datatype Body =
    | SpeciesJson(species: SpeciesResponse)
    | SpeciesListJson(list: seq<SpeciesResponse>)
    | Text(text: string)
    | Empty
    | ValidationErrors   // the framework's report of the constraints the body broke

  /**
   * What a handler answers: a status with a body, or `Unhandled` for a
   * failure no handler of this controller catches (the framework's generic
   * error path, whose status is not this code's to choose).
   */
  datatype HttpResponse = Respond(status: int, body: Body) | Unhandled

  /** `handleSpeciesNotFound`: 404 with the exception's message as the body. */
  function HandleSpeciesNotFound(message: string): (h: HttpResponse)
    ensures h.Respond? && h.status == NOT_FOUND
    ensures h.body.Text? && h.body.text == message
  {
    Respond(NOT_FOUND, Text(message))
  }

  /**
   * The exception dispatch shared by all handlers: only the not-found
   * exception has a handler here; the constraint violation is not caught.
   */
  function FailureResponse(e: ServiceError): (h: HttpResponse)
    ensures h.Unhandled? <==> e.ConstraintViolation?
    ensures h.Respond? <==> e.SpeciesNotFound?
    ensures e.SpeciesNotFound? ==> h == HandleSpeciesNotFound(e.message)
  {
    match e
    case SpeciesNotFound(message) => HandleSpeciesNotFound(message)
    case ConstraintViolation => Unhandled
  }

  /**
   * The 404 answered for an absent id names that id: its body reads back as
   * the id, and different ids get different bodies.
   */
  lemma NotFoundResponseNamesId(id: int, other: int)
    ensures FailureResponse(NotFoundError(id)).Respond?
    ensures FailureResponse(NotFoundError(id)).status == NOT_FOUND
    ensures MessageId(FailureResponse(NotFoundError(id)).body.text) == Some(id)
    ensures other != id ==> FailureResponse(NotFoundError(other)) != FailureResponse(NotFoundError(id))
  {
    NotFoundMessageNamesId(id);
    NotFoundMessageInjective(id, other);
  }

  /** `getAllSpecies`: always 200 with the service's list. */
  function AllSpeciesResponse(list: seq<SpeciesResponse>): (h: HttpResponse)
    ensures h.Respond? && h.status == OK && h.body.SpeciesListJson? && h.body.list == list
  {
    Respond(OK, SpeciesListJson(list))
  }

  /**
   * `getSpeciesById` and `updateSpecies`: 200 with the response exactly on
   * success, 404 with the message exactly on not-found, and no other status.
   */
  function OkResponse(r: Result<SpeciesResponse, ServiceError>): (h: HttpResponse)
    ensures h.Respond? ==> h.status == OK || h.status == NOT_FOUND
    ensures (h.Respond? && h.status == OK) <==> r.Success?
    ensures (h.Respond? && h.status == NOT_FOUND) <==> (r.Failure? && r.error.SpeciesNotFound?)
    ensures h.Unhandled? <==> r == Failure(ConstraintViolation)
    ensures r.Success? ==> h.body == SpeciesJson(r.value)
    ensures r.Failure? && r.error.SpeciesNotFound? ==> h.body == Text(r.error.message)
  {
    match r
    case Success(response) => Respond(OK, SpeciesJson(response))
    case Failure(e) => FailureResponse(e)
  }

  /** `createSpecies`: 201 with the created response on success; never 409. */
  function CreatedResponse(r: Result<SpeciesResponse, ServiceError>): (h: HttpResponse)
    ensures h.Respond? ==> h.status == CREATED || h.status == NOT_FOUND
    ensures (h.Respond? && h.status == CREATED) <==> r.Success?
    ensures (h.Respond? && h.status == NOT_FOUND) <==> (r.Failure? && r.error.SpeciesNotFound?)
    ensures h.Unhandled? <==> r == Failure(ConstraintViolation)
    ensures r.Success? ==> h.body == SpeciesJson(r.value)
    ensures r.Failure? && r.error.SpeciesNotFound? ==> h.body == Text(r.error.message)
  {
    match r
    case Success(response) => Respond(CREATED, SpeciesJson(response))
    case Failure(e) => FailureResponse(e)
  }

  /** `deleteSpecies`: 204 with no body on success, 404 with the message on not-found. */
  function NoContentResponse(r: Outcome<ServiceError>): (h: HttpResponse)
    ensures h.Respond? ==> h.status == NO_CONTENT || h.status == NOT_FOUND
    ensures (h.Respond? && h.status == NO_CONTENT) <==> r.Pass?
    ensures (h.Respond? && h.status == NOT_FOUND) <==> (r.Fail? && r.error.SpeciesNotFound?)
    ensures h.Unhandled? <==> r == Fail(ConstraintViolation)
    ensures r.Pass? ==> h.body == Empty
    ensures r.Fail? && r.error.SpeciesNotFound? ==> h.body == Text(r.error.message)
  {
    match r
    case Pass => Respond(NO_CONTENT, Empty)
    case Fail(e) => FailureResponse(e)
  }

  /** The 400 that request-body validation answers before any handler runs. */
  function InvalidBodyResponse(): HttpResponse {
    Respond(BAD_REQUEST, ValidationErrors)
  }

  /** The statuses any handler can produce; 409 Conflict is not among them. */
  predicate IsHandlerStatus(status: int) {
    status == OK || status == CREATED || status == NO_CONTENT || status == BAD_REQUEST || status == NOT_FOUND
  }

  /** No handler outcome carries 409 Conflict: there is no duplicate detection. */
  lemma NoConflictResponse(list: seq<SpeciesResponse>, r: Result<SpeciesResponse, ServiceError>, o: Outcome<ServiceError>)
    ensures forall h :: (h in {AllSpeciesResponse(list), OkResponse(r), CreatedResponse(r), NoContentResponse(o), InvalidBodyResponse()}
                         && h.Respond?) ==> IsHandlerStatus(h.status) && h.status != 409
  {
  }

  class SpeciesController {
    const service: SpeciesService

    constructor (service: SpeciesService)
      ensures this.service == service
    {
      this.service := service;
    }

    /** GET /api/species */
    method GetAllSpecies() returns (h: HttpResponse)
      requires service.repository.Valid()
      ensures h == Respond(OK, SpeciesListJson(ToResponseDtos(service.repository.FindAll())))
    {
      var list := service.GetAll();
      h := AllSpeciesResponse(list);
    }

    /** GET /api/species/{id} */
    method GetSpeciesById(id: int) returns (h: HttpResponse)
      requires service.repository.Valid()
      ensures id in service.repository.rows ==>
                h == Respond(OK, SpeciesJson(ToResponseDto(service.repository.rows[id])))
      ensures id !in service.repository.rows ==>
                h == Respond(NOT_FOUND, Text(NotFoundMessage(id)))
    {
      var r := service.GetById(id);
      h := OkResponse(r);
    }

    /** POST /api/species */
    method CreateSpecies(dto: SpeciesRequest) returns (h: HttpResponse)
      requires service.repository.Valid()
      modifies service.repository
      ensures service.repository.Valid()
      ensures !ValidRequest(dto) ==>
                h == InvalidBodyResponse() && unchanged(service.repository)
      ensures ValidRequest(dto) && !ValidSpecies(ToEntity(dto)) ==>
                h == Unhandled && unchanged(service.repository)
      ensures ValidRequest(dto) && ValidSpecies(ToEntity(dto)) ==>
                var id := old(service.repository.nextId);
                && id !in old(service.repository.rows)
                && h == Respond(CREATED, SpeciesJson(SpeciesResponse(Some(id), dto.commonName, dto.scientificName, dto.conservationStatus)))
                && service.repository.rows == old(service.repository.rows)[id := ToEntity(dto).(speciesId := Some(id))]
                && service.repository.nextId == id + 1
    {
      if !ValidRequest(dto) {
        return InvalidBodyResponse();
      }
      var r := service.SaveSpecies(dto);
      h := CreatedResponse(r);
    }

    /** PUT /api/species/{id} */
    method UpdateSpecies(id: int, dto: SpeciesRequest) returns (h: HttpResponse)
      requires service.repository.Valid()
      modifies service.repository
      ensures service.repository.Valid()
      ensures service.repository.nextId == old(service.repository.nextId)
      ensures !ValidRequest(dto) ==>
                h == InvalidBodyResponse() && unchanged(service.repository)
      ensures ValidRequest(dto) && id !in old(service.repository.rows) ==>
                h == Respond(NOT_FOUND, Text(NotFoundMessage(id))) && unchanged(service.repository)
      ensures ValidRequest(dto) && id in old(service.repository.rows) && !ValidSpecies(ToEntity(dto)) ==>
                h == Unhandled && unchanged(service.repository)
      ensures ValidRequest(dto) && id in old(service.repository.rows) && ValidSpecies(ToEntity(dto)) ==>
                var updated := ToEntity(dto).(speciesId := Some(id));
                && h == Respond(OK, SpeciesJson(ToResponseDto(updated)))
                && service.repository.rows == old(service.repository.rows)[id := updated]
    {
      if !ValidRequest(dto) {
        return InvalidBodyResponse();
      }
      var r := service.UpdateSpecies(id, dto);
      h := OkResponse(r);
    }

    /** DELETE /api/species/{id} */
    method DeleteSpecies(id: int) returns (h: HttpResponse)
      requires service.repository.Valid()
      modifies service.repository
      ensures service.repository.Valid()
      ensures service.repository.nextId == old(service.repository.nextId)
      ensures id in old(service.repository.rows) ==>
                h == Respond(NO_CONTENT, Empty) && service.repository.rows == old(service.repository.rows) - {id}
      ensures id !in old(service.repository.rows) ==>
                h == Respond(NOT_FOUND, Text(NotFoundMessage(id))) && unchanged(service.repository)
    {
      var r := service.DeleteSpecies(id);
      h := NoContentResponse(r);
    }
  }
}
