/**
 * End-to-end request sequences against a freshly wired store, service and
 * controller, built from the requests used in the project's controller and
 * functional tests. Where a sequence goes beyond what a test does (the
 * double delete, the two-create listing), the doc comment says so.
 */
module Scenarios {
  import opened Lang
  import opened RequestDto
  import opened ResponseDto
  import opened Errors
  import opened Repository
  import opened Service
  import opened Controller

  /**
   * POST the Iberian lynx and GET it back under the id the POST returned, as
   * the functional create-and-fetch test does; on a fresh store that id is 1.
   * Then, as a sequence of this model's own, DELETE it twice and GET it again.
   */
  method CreateFetchDeleteScenario()
    returns (created: HttpResponse, fetched: HttpResponse, deleted: HttpResponse,
             deletedAgain: HttpResponse, fetchedAgain: HttpResponse)
    ensures created == Respond(CREATED, SpeciesJson(
              SpeciesResponse(Some(1), Some("Lince ibérico"), Some("Lynx pardinus"), Some("Endangered"))))
    ensures fetched == Respond(OK, created.body)
    ensures deleted == Respond(NO_CONTENT, Empty)
    ensures deletedAgain == Respond(NOT_FOUND, Text("Species not found with ID: 1"))
    ensures fetchedAgain == deletedAgain
  {
    var repository := new SpeciesRepository();
    var service := new SpeciesService(repository);
    var controller := new SpeciesController(service);

    var lynx := SpeciesRequest(Some("Lince ibérico"), Some("Lynx pardinus"), Some("Endangered"));
    VisibleHeads();
    created := controller.CreateSpecies(lynx);
    fetched := controller.GetSpeciesById(1);
    deleted := controller.DeleteSpecies(1);
    deletedAgain := controller.DeleteSpecies(1);
    fetchedAgain := controller.GetSpeciesById(1);

    assert NotFoundMessage(1) == "Species not found with ID: 1" by {
      assert LongFormat.NaturalDigits(1) == "1";
    }
  }

  /**
   * GET, PUT (with the badger) and DELETE on id 999 of an empty store, the
   * three not-found requests of the controller tests: each is 404, and the
   * body is the exception's message naming 999.
   */
  method NotFoundScenario() returns (fetched: HttpResponse, updated: HttpResponse, deleted: HttpResponse)
    ensures fetched == Respond(NOT_FOUND, Text("Species not found with ID: 999"))
    ensures updated == fetched && deleted == fetched
  {
    var repository := new SpeciesRepository();
    var service := new SpeciesService(repository);
    var controller := new SpeciesController(service);

    var badger := SpeciesRequest(Some("Tejón"), Some("Meles meles"), Some("Least Concern"));
    VisibleHeads();
    fetched := controller.GetSpeciesById(999);
    updated := controller.UpdateSpecies(999, badger);
    deleted := controller.DeleteSpecies(999);
    NotFoundMessageFor999();
  }

  /** The lynx, badger and vulture strings pass `@NotBlank`. */
  lemma VisibleHeads()
    ensures Constraints.NotBlank(Some("Lince ibérico")) && Constraints.NotBlank(Some("Lynx pardinus"))
    ensures Constraints.NotBlank(Some("Endangered"))
    ensures Constraints.NotBlank(Some("Tejón")) && Constraints.NotBlank(Some("Meles meles"))
    ensures Constraints.NotBlank(Some("Least Concern")) && Constraints.NotBlank(Some("Buitre negro"))
    ensures Constraints.NotBlank(Some("Aegypius monachus")) && Constraints.NotBlank(Some("Near Threatened"))
  {
  }

  /** GET /api/species on an empty store answers 200 with an empty list. */
  method EmptyListingScenario() returns (listed: HttpResponse)
    ensures listed == Respond(OK, SpeciesListJson([]))
  {
    var repository := new SpeciesRepository();
    var service := new SpeciesService(repository);
    var controller := new SpeciesController(service);
    listed := controller.GetAllSpecies();
  }

  /**
   * Save the black stork straight through the store, then GET /api/species:
   * a one-element list holding the stork under id 1, as the controller's
   * listing test expects.
   */
  method StoredListingScenario() returns (listed: HttpResponse)
    ensures listed == Respond(OK, SpeciesListJson([
              SpeciesResponse(Some(1), Some("Cigüeña negra"), Some("Ciconia nigra"), Some("Vulnerable"))]))
  {
    var repository := new SpeciesRepository();
    var service := new SpeciesService(repository);
    var controller := new SpeciesController(service);

    var stork := SpeciesModel.Species(None, Some("Cigüeña negra"), Some("Ciconia nigra"), Some("Vulnerable"));
    StorkHeads();
    var saved := repository.Save(stork);
    var e := stork.(speciesId := Some(1));
    assert repository.rows == map[1 := e] && repository.nextId == 2;
    listed := controller.GetAllSpecies();
    ListingOfOne(repository, e);
    assert ToResponseDtos([e]) == [SpeciesMapper.ToResponseDto(e)];
  }

  /**
   * Save the imperial eagle straight through the store, then PUT a renamed
   * eagle under its id: 200 with the new strings under the same id, as the
   * controller's update test expects.
   */
  method UpdateStoredScenario() returns (updated: HttpResponse)
    ensures updated == Respond(OK, SpeciesJson(
              SpeciesResponse(Some(1), Some("Águila imperial ibérica"), Some("Aquila adalberti"), Some("Vulnerable"))))
  {
    var repository := new SpeciesRepository();
    var service := new SpeciesService(repository);
    var controller := new SpeciesController(service);

    var eagle := SpeciesModel.Species(None, Some("Águila imperial"), Some("Aquila adalberti"), Some("Endangered"));
    var renamed := SpeciesRequest(Some("Águila imperial ibérica"), Some("Aquila adalberti"), Some("Vulnerable"));
    EagleHeads();
    var saved := repository.Save(eagle);
    updated := controller.UpdateSpecies(1, renamed);
  }

  /**
   * Save the cinereous vulture straight through the store, then DELETE it:
   * 204, as the controller's delete test expects; a listing afterwards is
   * empty.
   */
  method DeleteStoredScenario() returns (deleted: HttpResponse, listed: HttpResponse)
    ensures deleted == Respond(NO_CONTENT, Empty)
    ensures listed == Respond(OK, SpeciesListJson([]))
  {
    var repository := new SpeciesRepository();
    var service := new SpeciesService(repository);
    var controller := new SpeciesController(service);

    var vulture := SpeciesModel.Species(None, Some("Buitre negro"), Some("Aegypius monachus"), Some("Near Threatened"));
    VisibleHeads();
    var saved := repository.Save(vulture);
    deleted := controller.DeleteSpecies(1);
    assert repository.rows == map[];
    listed := controller.GetAllSpecies();
  }

  /** The stork's strings pass `@NotBlank`. */
  lemma StorkHeads()
    ensures Constraints.NotBlank(Some("Cigüeña negra")) && Constraints.NotBlank(Some("Ciconia nigra"))
    ensures Constraints.NotBlank(Some("Vulnerable"))
  {
  }

  /** The eagle's strings pass `@NotBlank`. */
  lemma EagleHeads()
    ensures Constraints.NotBlank(Some("Águila imperial")) && Constraints.NotBlank(Some("Aquila adalberti"))
    ensures Constraints.NotBlank(Some("Endangered")) && Constraints.NotBlank(Some("Águila imperial ibérica"))
    ensures Constraints.NotBlank(Some("Vulnerable"))
  {
  }

  /** The store listing of row 1 alone, counter at 2. */
  lemma ListingOfOne(repository: SpeciesRepository, e: SpeciesModel.Species)
    requires repository.Valid()
    requires repository.rows == map[1 := e] && repository.nextId == 2
    ensures repository.FindAll() == [e]
  {
  }

  /**
   * Two creates, then GET /api/species: both records, mapped, in the order
   * they were created. This is a sequence of this model's own; the listing
   * test stores a single record.
   */
  method TwoRecordListingScenario() returns (listed: HttpResponse)
    ensures listed == Respond(OK, SpeciesListJson([
              SpeciesResponse(Some(1), Some("Lince ibérico"), Some("Lynx pardinus"), Some("Endangered")),
              SpeciesResponse(Some(2), Some("Cigüeña negra"), Some("Ciconia nigra"), Some("Vulnerable"))]))
  {
    var repository := new SpeciesRepository();
    var service := new SpeciesService(repository);
    var controller := new SpeciesController(service);

    var lynx := SpeciesRequest(Some("Lince ibérico"), Some("Lynx pardinus"), Some("Endangered"));
    var stork := SpeciesRequest(Some("Cigüeña negra"), Some("Ciconia nigra"), Some("Vulnerable"));
    VisibleHeads();
    Constraints.NotBlankIffVisibleChar("Cigüeña negra");
    Constraints.NotBlankIffVisibleChar("Ciconia nigra");
    Constraints.NotBlankIffVisibleChar("Vulnerable");
    assert "Cigüeña negra"[0] > ' ' && "Ciconia nigra"[0] > ' ' && "Vulnerable"[0] > ' ';
    var _ := controller.CreateSpecies(lynx);
    var _ := controller.CreateSpecies(stork);
    var e1 := SpeciesModel.Species(Some(1), lynx.commonName, lynx.scientificName, lynx.conservationStatus);
    var e2 := SpeciesModel.Species(Some(2), stork.commonName, stork.scientificName, stork.conservationStatus);
    assert repository.rows == map[1 := e1, 2 := e2] && repository.nextId == 3;
    listed := controller.GetAllSpecies();
    ListingOfTwo(repository, e1, e2);
    assert ToResponseDtos([e1, e2]) == [SpeciesMapper.ToResponseDto(e1), SpeciesMapper.ToResponseDto(e2)];
  }

  /** The store listing of rows 1 and 2, counter at 3: row 1, then row 2. */
  lemma ListingOfTwo(repository: SpeciesRepository, e1: SpeciesModel.Species, e2: SpeciesModel.Species)
    requires repository.Valid()
    requires repository.rows == map[1 := e1, 2 := e2] && repository.nextId == 3
    ensures repository.FindAll() == [e1, e2]
  {
  }
}
