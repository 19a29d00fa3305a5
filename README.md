# Species service — a Dafny model

The species service is a small REST microservice that stores wildlife species. Each species
has a common name, a scientific name and a conservation status. It offers create, read,
update and delete under `/api/species`. This project models its request pipeline in Dafny
and proves properties of the model:

- the controller checks the request body, then calls one service operation, then turns the
  result or the thrown `SpeciesNotFoundException` into an HTTP status and body;
- the service looks up or persists a `Species` through the store and maps it with
  `SpeciesMapper`;
- the store is an id-keyed table that assigns identities on insert.

Files, one module each:

| file | module | models |
|---|---|---|
| `lang.dfy` | `Lang` | nullable references (`Option`), returned-or-thrown results (`Result`, `Outcome`) |
| `long_format.dfy` | `LongFormat` | the decimal text of a `Long` (as string concatenation writes it), and the model's own inverse of it, used by the round-trip lemmas |
| `constraints.dfy` | `Constraints` | `@NotBlank` (non-null, non-empty after `String.trim()`) and `@Size(max)` (null or at most `max` characters) |
| `species.dfy` | `SpeciesModel` | the `Species` entity and its field invariant |
| `request_dto.dfy` | `RequestDto` | `SpeciesRequestDTO` and its weaker check |
| `response_dto.dfy` | `ResponseDto` | `SpeciesResponseDTO` |
| `mapper.dfy` | `SpeciesMapper` | `toResponseDTO`, `toEntity`, and how the two validity checks relate |
| `errors.dfy` | `Errors` | `SpeciesNotFoundException` and its message; the constraint violation raised on persist |
| `repository.dfy` | `Repository` | the store: class `SpeciesRepository` with a `map<int, Species>` and an identity counter |
| `service.dfy` | `Service` | class `SpeciesService` with the five operations |
| `controller.dfy` | `Controller` | the outcome-to-response mapping, and class `SpeciesController` with the five handlers |
| `scenarios.dfy` | `Scenarios` | end-to-end request sequences built from the requests used in the project's tests |

The store invariant `SpeciesRepository.Valid()` says three things about every stored row:

- the row's key is its `speciesId`;
- the key is below the identity counter;
- the row satisfies the entity constraints.

Every store, service and controller method keeps this invariant. Ids are never reused: the
counter only grows, and a deleted id is never handed out again.

Two points where the code does less than one might expect; the model follows the code:

- The request check is weaker than the entity invariant. It requires only that `commonName`
  and `scientificName` are non-blank, with no length limits and nothing on the status. So a
  request with a null, blank or over-long status, or an over-long name, passes the 400 check.
  It then fails the entity constraints when the store persists it, and that failure
  propagates unhandled. The model does the same: the controller answers `Unhandled`.
  `SpeciesMapper.RequestEntityGap` states exactly which requests fall into this gap.
- The controller documents a 409 Conflict response for `createSpecies`, but no code
  produces one. The model has no duplicate detection.

## Model

| member | source | states |
|---|---|---|
| `LongFormat.NaturalDigitsRoundTrip` | src/main/java/org/ironhack/speciesService/exception/SpeciesNotFoundException.java:23-25 | the decimal digits of a natural number are non-empty, all digits, and parse back to that number |
| `LongFormat.LongToStringRoundTrip` | src/main/java/org/ironhack/speciesService/exception/SpeciesNotFoundException.java:23-25 | the text a `Long` id is written as in the message is well-formed and parses back to the id, negative ids included |
| `LongFormat.LongToStringInjective` | src/main/java/org/ironhack/speciesService/exception/SpeciesNotFoundException.java:23-25 | distinct ids are written as distinct texts |
| `Constraints.NotBlankIffVisibleChar` | src/main/java/org/ironhack/speciesService/dto/SpeciesRequestDTO.java:11-13 | a present string is non-blank exactly when it has a character above U+0020, i.e. one that trimming keeps |
| `Constraints.NotBlankIsNonEmpty` | src/main/java/org/ironhack/speciesService/model/Species.java:23-25 | a non-blank string is not empty |
| `SpeciesModel.ValidSpeciesFields` | src/main/java/org/ironhack/speciesService/model/Species.java:23-33 | a valid entity has all three strings present, each with a visible character, of lengths 1..100, 1..150 and 1..50 |
| `SpeciesModel.ValidityIgnoresId` | src/main/java/org/ironhack/speciesService/model/Species.java:19-21 | the id carries no constraint: setting it never changes whether an entity is valid |
| `RequestDto.ValidRequestNames` | src/main/java/org/ironhack/speciesService/dto/SpeciesRequestDTO.java:11-17 | a valid request has a present `commonName` and a present `scientificName`, each with a visible character |
| `RequestDto.StatusIsUnconstrained` | src/main/java/org/ironhack/speciesService/dto/SpeciesRequestDTO.java:19-20 | any `conservationStatus`, null or blank included, leaves request validity as it was |
| `SpeciesMapper.ToResponseDtoCopiesFields` | src/main/java/org/ironhack/speciesService/mapper/SpeciesMapper.java:19-26 | the response has the entity's id and its three strings, unchanged; the mapping is total |
| `SpeciesMapper.ToResponseDtoInjective` | src/main/java/org/ironhack/speciesService/mapper/SpeciesMapper.java:19-26 | the response mirrors the entity one-to-one: distinct entities give distinct responses |
| `SpeciesMapper.RequestRoundTrip` | src/main/java/org/ironhack/speciesService/mapper/SpeciesMapper.java:38-44 | mapping a request to an entity and then to a response keeps the three strings and leaves the id null |
| `SpeciesMapper.RequestEntityGap` | src/main/java/org/ironhack/speciesService/dto/SpeciesRequestDTO.java:11-20 | a request's entity is valid exactly when the request is valid, both names are within 100 and 150 characters, and the status is non-blank and within 50 |
| `SpeciesMapper.EntityValidityImpliesRequestValidity` | src/main/java/org/ironhack/speciesService/model/Species.java:23-33 | a request whose entity is valid also passes the request check |
| `SpeciesMapper.RequestValidityDoesNotImplyEntityValidity` | src/main/java/org/ironhack/speciesService/dto/SpeciesRequestDTO.java:19-20 | some request passes the request check while its entity is invalid (a null status) |
| `Errors.NotFoundMessageNamesId` | src/main/java/org/ironhack/speciesService/exception/SpeciesNotFoundException.java:23-25 | the not-found message is `"Species not found with ID: "` followed by the id, and the id can be read back from it |
| `Errors.NotFoundMessageInjective` | src/main/java/org/ironhack/speciesService/exception/SpeciesNotFoundException.java:23-25 | distinct ids give distinct not-found messages |
| `Errors.NotFoundMessageFor999` | src/main/java/org/ironhack/speciesService/exception/SpeciesNotFoundException.java:23-25 | the message for id 999, the id the not-found tests ask for, is exactly `"Species not found with ID: 999"` |
| `Repository.KeysBetween` | src/main/java/org/ironhack/speciesService/service/SpeciesService.java:38 | lists every stored id in a range exactly once, only stored ids, strictly ascending |
| `Repository.SpeciesRepository.constructor` | src/main/java/org/ironhack/speciesService/repository/SpeciesRepository.java:8 | a new store is empty, satisfies the invariant, and will hand out id 1 first |
| `Repository.SpeciesRepository.FindById` | src/main/java/org/ironhack/speciesService/service/SpeciesService.java:53 | finds something exactly when the id is stored; what it finds carries that id and is a valid entity |
| `Repository.SpeciesRepository.FindAll` | src/main/java/org/ironhack/speciesService/service/SpeciesService.java:38 | lists only stored entities, each under its own id, in strictly ascending id order and so none twice; an empty store lists nothing |
| `Repository.SpeciesRepository.FindAllIsComplete` | src/main/java/org/ironhack/speciesService/service/SpeciesService.java:38 | every stored entity appears in the listing |
| `Repository.SpeciesRepository.Save` | src/main/java/org/ironhack/speciesService/model/Species.java:19-33 | an entity that breaks the entity constraints is refused and the store is unchanged. An entity whose id is stored replaces that row only. Any other entity is stored under a fresh id, which was not in the store before; the counter advances and the other rows are untouched |
| `Repository.SpeciesRepository.Delete` | src/main/java/org/ironhack/speciesService/service/SpeciesService.java:101 | removes exactly the row under the entity's id, if any, and leaves the counter alone |
| `Service.ToResponseDtos` | src/main/java/org/ironhack/speciesService/service/SpeciesService.java:38-40 | one response per entity, same length and order, each the mapped entity |
| `Service.SpeciesService.constructor` | src/main/java/org/ironhack/speciesService/service/SpeciesService.java:25-27 | the service works on the store it is given |
| `Service.SpeciesService.GetAll` | src/main/java/org/ironhack/speciesService/service/SpeciesService.java:37-41 | one response per stored entity, in store order. Each response is the mapped entity under its id, and every stored entity has one. An empty store gives an empty list |
| `Service.SpeciesService.GetById` | src/main/java/org/ironhack/speciesService/service/SpeciesService.java:52-56 | succeeds exactly when the id is stored, with the mapped entity carrying that id. Otherwise it fails with the not-found error for that id. It modifies nothing |
| `Service.SpeciesService.SaveSpecies` | src/main/java/org/ironhack/speciesService/service/SpeciesService.java:66-69 | succeeds exactly when the request's entity is valid. On success the response has a fresh, previously unused id and the request's three strings, and the store gains just that row. On failure it reports the constraint violation and the store is unchanged |
| `Service.SpeciesService.UpdateSpecies` | src/main/java/org/ironhack/speciesService/service/SpeciesService.java:80-88 | an absent id fails with not-found and changes nothing. Otherwise all three strings of the stored row are replaced by the request's and its id is kept; every other row is untouched, and the result is the mapped updated entity. An update the entity constraints refuse changes nothing |
| `Service.SpeciesService.DeleteSpecies` | src/main/java/org/ironhack/speciesService/service/SpeciesService.java:98-102 | succeeds exactly when the id is stored and then removes that key only. An absent id fails with the not-found error for that id and changes nothing |
| `Controller.HandleSpeciesNotFound` | src/main/java/org/ironhack/speciesService/controller/SpeciesController.java:136-139 | answers 404 with the exception's message as the body; the 404 clauses of `Controller.OkResponse`, `Controller.CreatedResponse` and `Controller.NoContentResponse` state what this means for each handler |
| `Controller.FailureResponse` | src/main/java/org/ironhack/speciesService/controller/SpeciesController.java:136-139 | the exception dispatch: a not-found failure goes to `handleSpeciesNotFound`, and exactly the constraint violation is left unhandled |
| `Controller.NotFoundResponseNamesId` | src/main/java/org/ironhack/speciesService/controller/SpeciesController.java:136-139 | the 404 for an absent id has a body that reads back as that id, and different ids get different 404 responses |
| `Controller.AllSpeciesResponse` | src/main/java/org/ironhack/speciesService/controller/SpeciesController.java:38-40 | `getAllSpecies` always answers 200, with the service's list as the body |
| `Controller.OkResponse` | src/main/java/org/ironhack/speciesService/controller/SpeciesController.java:59-61 | 200 with the response exactly on success. 404 with the exception's message as the body exactly on not-found. `Unhandled` exactly on a constraint violation. No other status |
| `Controller.CreatedResponse` | src/main/java/org/ironhack/speciesService/controller/SpeciesController.java:81-83 | 201 with the created response exactly on success. 404 with the message on not-found. `Unhandled` on a constraint violation. Never 409 |
| `Controller.NoContentResponse` | src/main/java/org/ironhack/speciesService/controller/SpeciesController.java:123-126 | 204 with an empty body exactly on success. 404 with the message exactly on not-found |
| `Controller.NoConflictResponse` | src/main/java/org/ironhack/speciesService/controller/SpeciesController.java:76-83 | no handler outcome has status 409; every status is one of 200, 201, 204, 400, 404 |
| `Controller.SpeciesController.constructor` | src/main/java/org/ironhack/speciesService/controller/SpeciesController.java:24-25 | the controller works on the service it is given |
| `Controller.SpeciesController.GetAllSpecies` | src/main/java/org/ironhack/speciesService/controller/SpeciesController.java:38-40 | answers 200 with the mapped store listing |
| `Controller.SpeciesController.GetSpeciesById` | src/main/java/org/ironhack/speciesService/controller/SpeciesController.java:59-61 | a stored id gives 200 with its mapped entity. An absent id gives 404 with `"Species not found with ID: " + id` |
| `Controller.SpeciesController.CreateSpecies` | src/main/java/org/ironhack/speciesService/controller/SpeciesController.java:81-83 | an invalid body gives 400 and the service is not called. A valid body whose entity is invalid is unhandled and changes nothing. Otherwise the answer is 201 with the stored species under a fresh id |
| `Controller.SpeciesController.UpdateSpecies` | src/main/java/org/ironhack/speciesService/controller/SpeciesController.java:101-103 | an invalid body gives 400 before the id is looked up. An absent id gives 404 with the message. Otherwise the answer is 200 with the overwritten species; the store changes at that id only |
| `Controller.SpeciesController.DeleteSpecies` | src/main/java/org/ironhack/speciesService/controller/SpeciesController.java:123-126 | a stored id gives 204 with an empty body and that row is removed. An absent id gives 404 with the message and changes nothing |
| `Scenarios.CreateFetchDeleteScenario` | src/test/java/org/ironhack/speciesService/functional/SpeciesFunctionalTest.java:20-39 | on a fresh store, POST the lynx gives 201 with id 1, and GET under that id gives 200 with it, as the create-and-fetch test does. Then a sequence of the model's own: DELETE gives 204, and a second DELETE and a GET give 404 naming id 1 |
| `Scenarios.NotFoundScenario` | src/test/java/org/ironhack/speciesService/controller/SpeciesControllerTest.java:76-130 | on an empty store, GET, PUT (with the badger) and DELETE on id 999 each give 404 with `"Species not found with ID: 999"` as the body; the tests check only the status |
| `Scenarios.EmptyListingScenario` | src/test/java/org/ironhack/speciesService/service/SpeciesServiceTest.java:46-54 | listing an empty store answers 200 with an empty list |
| `Scenarios.StoredListingScenario` | src/test/java/org/ironhack/speciesService/controller/SpeciesControllerTest.java:53-63 | after the stork is saved straight through the store, the listing answers 200 with a one-element list: the stork under id 1 |
| `Scenarios.UpdateStoredScenario` | src/test/java/org/ironhack/speciesService/controller/SpeciesControllerTest.java:83-99 | after the eagle is saved straight through the store, PUT with the renamed eagle answers 200 with the new strings under the same id |
| `Scenarios.DeleteStoredScenario` | src/test/java/org/ironhack/speciesService/controller/SpeciesControllerTest.java:115-123 | after the vulture is saved straight through the store, DELETE answers 204 with an empty body, and a listing afterwards is empty |
| `Scenarios.TwoRecordListingScenario` | src/main/java/org/ironhack/speciesService/service/SpeciesService.java:37-41 | a sequence of the model's own (the listing test stores one record): after two creates, the listing holds both records, mapped, with ids 1 and 2, in creation order |

## Left out

- HTTP routing, JSON parsing and serialisation, and turning path text into a `Long` are not
  modelled. `LongFormat.ParseLong` is not `Long.parseLong`: it reads back only the text
  `LongToString` writes, for the round-trip lemmas. Handlers take the parsed id and request. A malformed body or a non-numeric id
  (which the framework answers with 400) is not modelled.
- The framework's report for a body that fails validation is the opaque body
  `ValidationErrors`. Only the 400 status and the fact that the service is not called are
  modelled.
- Failures other than not-found and the constraint violation on persist (store unavailable,
  database errors) are not modelled. Both kinds propagate as a generic server error, and the
  model represents the constraint violation only as `Unhandled`, with no status.
- Ids and the identity counter are unbounded integers. The 64-bit range of `Long` and
  overflow of the identity column are not modelled.
- `@Size` counts UTF-16 code units (`String.length()`). The model counts Dafny characters
  (Unicode scalar values), so strings with characters outside the Basic Multilingual Plane
  have different lengths here.
- `@NotBlank` is modelled by its reference implementation: `String.trim()` leaves something.
  That is, some character is above U+0020. A string made only of other Unicode spaces
  (such as U+00A0) counts as non-blank, as it does there.
- The order of `findAll` is not fixed by the store's contract. The model lists rows in
  ascending id order, which is insertion order because ids only grow.
- Saving an entity whose id is set but not stored inserts it under
  a fresh id (insert-or-update by presence of the id in the store). The service never
  saves such an entity: it saves either a new entity without an id or one it has just found.
- `updateSpecies` changes the found entity in place through three setters and then saves
  it. The model copies the entity value with the three fields replaced and saves the copy.
  The store ends in the same state, but the aliasing of the managed entity object is not
  modelled.
- Concurrency, transactions and store-level atomicity are not modelled. Each operation is
  one sequential step on the store.
- `SpeciesRepository.java` is a Spring Data JPA interface with no body. The store class
  stands in for it with find-by-id, find-all, save and delete; JPA itself is not modelled.
- `SpeciesServiceApplication.java` (startup) and `OpenApiConfig.java` (CORS and API
  documentation) are framework configuration and are not part of this model.
- The 409 Conflict response the controller documents for `createSpecies` has no
  implementation and is not modelled. `Controller.NoConflictResponse` states that it
  cannot occur.
