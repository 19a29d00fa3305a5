/**
 * The entity store the service is given: a table keyed by id, with the
 * identity counter that assigns ids on insert. It offers the four
 * operations the service uses: find-by-id, find-all, save and delete.
 */
module Repository {
  import opened Lang
  import opened SpeciesModel
  import opened Errors

  /** The first id an identity column hands out. */
  const FIRST_ID: int := 1

  /** The keys of `rows` that lie in `[lo, hi)`, each once, in ascending order. */
  function KeysBetween(rows: map<int, Species>, lo: int, hi: int): (ks: seq<int>)
    decreases hi - lo
    ensures forall k :: 0 <= k < |ks| ==> ks[k] in rows && lo <= ks[k] < hi
    ensures forall id :: id in rows && lo <= id < hi ==> id in ks
    ensures forall j, k :: 0 <= j < k < |ks| ==> ks[j] < ks[k]
  {
    if lo >= hi then []
    else if lo in rows then [lo] + KeysBetween(rows, lo + 1, hi)
    else KeysBetween(rows, lo + 1, hi)
  }

  /** A listing built row by row from a key sequence holds the row of every key in it. */
  lemma ListingCoversKeys(table: map<int, Species>, ks: seq<int>, all: seq<Species>)
    requires |all| == |ks|
    requires forall k :: 0 <= k < |ks| ==> ks[k] in table && all[k] == table[ks[k]]
    ensures forall id :: id in ks ==> exists k :: 0 <= k < |all| && all[k] == table[id]
  {
  }

  class SpeciesRepository {
    /** The stored entities, by id. */
    var rows: map<int, Species>
    /** The id the next insert receives. */
    var nextId: int

    /**
     * Every stored entity sits under its own id, below the counter, and
     * satisfies the entity invariant (the store refuses to persist one that does not).
     */
    ghost predicate Valid()
      reads this
    {
      && FIRST_ID <= nextId
      && forall id :: id in rows ==>
           && FIRST_ID <= id < nextId
           && rows[id].speciesId == Some(id)
           && ValidSpecies(rows[id])
    }

    constructor ()
      ensures Valid()
      ensures rows == map[] && nextId == FIRST_ID
    {
      rows := map[];
      nextId := FIRST_ID;
    }

    /** `findById`: the entity stored under `id`, which carries that id and is valid. */
    function FindById(id: int): (found: Option<Species>)
      requires Valid()
      reads this
      ensures found.Some? <==> id in rows
      ensures found.Some? ==> found.value.speciesId == Some(id) && ValidSpecies(found.value)
      ensures found.Some? ==> found.value == rows[id]
    {
      if id in rows then Some(rows[id]) else None
    }

    /**
     * `findAll`: stored entities only, each under its own id, in strictly
     * ascending id order (the order of insertion), so none twice;
     * FindAllIsComplete adds that none is missing.
     */
    function FindAll(): (all: seq<Species>)
      requires Valid()
      reads this
      ensures forall k :: 0 <= k < |all| ==>
                all[k].speciesId.Some? && all[k].speciesId.value in rows && all[k] == rows[all[k].speciesId.value]
      ensures forall j, k :: 0 <= j < k < |all| ==> all[j].speciesId.value < all[k].speciesId.value
      ensures rows == map[] ==> all == []
    {
      var table := rows;
      var ks := KeysBetween(table, FIRST_ID, nextId);
      assert |ks| > 0 ==> ks[0] in table;
      seq(|ks|, k requires 0 <= k < |ks| => table[ks[k]])
    }

    /** Every stored entity appears in `findAll`. */
    lemma FindAllIsComplete()
      requires Valid()
      ensures forall id :: id in rows ==> exists k :: 0 <= k < |FindAll()| && FindAll()[k] == rows[id]
    {
      var ks := KeysBetween(rows, FIRST_ID, nextId);
      ListingCoversKeys(rows, ks, FindAll());
    }

    /**
     * `save`: an entity whose id is stored overwrites that row; any other
     * entity is inserted under a fresh id. An entity that breaks the entity
     * invariant is refused and nothing changes.
     */
    method Save(species: Species) returns (r: Result<Species, ServiceError>)
      requires Valid()
      modifies this
      ensures Valid()
      ensures !ValidSpecies(species) ==>
                r == Failure(ConstraintViolation) && unchanged(this)
      ensures ValidSpecies(species) && species.speciesId.Some? && species.speciesId.value in old(rows) ==>
                && r == Success(species)
                && rows == old(rows)[species.speciesId.value := species]
                && nextId == old(nextId)
      ensures ValidSpecies(species) && !(species.speciesId.Some? && species.speciesId.value in old(rows)) ==>
                && old(nextId) !in old(rows)
                && r == Success(species.(speciesId := Some(old(nextId))))
                && rows == old(rows)[old(nextId) := r.value]
                && nextId == old(nextId) + 1
    {
      if !ValidSpecies(species) {
        return Failure(ConstraintViolation);
      }
      if species.speciesId.Some? && species.speciesId.value in rows {
        rows := rows[species.speciesId.value := species];
        return Success(species);
      }
      var stored := species.(speciesId := Some(nextId));
      rows := rows[nextId := stored];
      nextId := nextId + 1;
      r := Success(stored);
    }

    /** `delete`: removes the row under the entity's id; an id that is not stored is silently ignored. */
    method Delete(species: Species)
      requires Valid()
      modifies this
      ensures Valid()
      ensures rows == if species.speciesId.Some? then old(rows) - {species.speciesId.value} else old(rows)
      ensures nextId == old(nextId)
    {
      if species.speciesId.Some? {
        rows := rows - {species.speciesId.value};
      }
    }
  }
}
