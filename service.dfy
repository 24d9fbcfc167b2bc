/** The character service (internal/core/services/character_service.go): get a
    character by name from the local store, or fetch it from the catalog and
    save it. The store is the PostgreSQL repository model; the catalog is any
    function with the catalog port's by-name signature
    (internal/core/ports/secondary.go). */
module Services {
  import opened Wrappers
  import opened Domain
  import opened Postgres
  import opened DragonBallApi

  /** The catalog port's FindCharacterByName, as a value: any catalog. An
      implementation other than the Dragon Ball client reports its errors as
      `CatalogError.Foreign`. */
  type Catalog = string -> Result<Option<Character>, CatalogError>

  /** The Dragon Ball API client as a catalog: every by-name lookup fetches
      the same collection, so the upstream reply is fixed and only the name
      varies. */
  function DragonBallCatalog(listing: Response<seq<ApiCharacter>>): Catalog
  {
    name => DragonBallApi.FindCharacterByName(listing, name)
  }

  /** A catalog that, for `name`, only ever answers with a record of exactly
      that name. */
  predicate ExactFor(catalog: Catalog, name: string)
  {
    catalog(name).Success? && catalog(name).value.Some? ==> catalog(name).value.value.name == name
  }

  datatype ServiceError =
    | FetchError(apiError: CatalogError)
    | NotFound(name: string)
    | SaveError(dbError: StoreError)
  {
    function Message(): string
    {
      match this
      case FetchError(e) => FetchErrorPrefix + ": " + e.Message()
      case NotFound(name) => "character '" + name + "' not found in external API"
      case SaveError(e) => SaveErrorPrefix + ": " + e.Message()
    }
  }

  const FetchErrorPrefix := "failed to fetch character from external API"
  const SaveErrorPrefix := "failed to save character"

  /** The record the service saves for a catalog hit: id, name, ki and race
      copied, timestamps left at Go's zero value. */
  function NewCharacter(found: Character): (c: Character)
    ensures c.id == found.id && c.name == found.name && c.ki == found.ki && c.race == found.race
    ensures c.createdAt == ZeroTime && c.updatedAt == ZeroTime
  {
    Character(found.id, found.name, found.ki, found.race, ZeroTime, ZeroTime)
  }

  /** The caller's answer together with the table after the call. */
  datatype Outcome = Outcome(result: Result<Character, ServiceError>, rows: map<string, Character>)

  /** One CreateCharacter call, given the table before it, the store lookup's
      answer, the catalog, the save's injected failure and the clock. */
  function GetOrCreate(rows: map<string, Character>, name: string,
                       lookup: Result<Option<Character>, StoreError>,
                       catalog: Catalog, saveFault: Option<string>, now: Timestamp): Outcome
  {
    if lookup.Success? && lookup.value.Some? then
      Outcome(Success(lookup.value.value), rows)
    else
      match catalog(name)
      case Failure(e) => Outcome(Failure(FetchError(e)), rows)
      case Success(None) => Outcome(Failure(NotFound(name)), rows)
      case Success(Some(found)) =>
        var c := NewCharacter(found);
        if saveFault.Some? then Outcome(Failure(SaveError(SaveFailed(saveFault.value))), rows)
        else Outcome(Success(c), Upsert(rows, c, now))
  }

  class CharacterService {
    const repository: CharacterRepository
    const catalog: Catalog

    constructor (repository: CharacterRepository, catalog: Catalog)
      ensures this.repository == repository && this.catalog == catalog
    {
      this.repository := repository;
      this.catalog := catalog;
    }

    /** CreateCharacter. `lookupFault` and `saveFault` are the database
        failures of this call, if any; `now` is the database clock. The ghost
        `lookup` is what the store's name lookup answered. */
    method CreateCharacter(characterName: string, lookupFault: Option<string>,
                           saveFault: Option<string>, now: Timestamp)
      returns (r: Result<Character, ServiceError>, ghost lookup: Result<Option<Character>, StoreError>)
      requires repository.Valid()
      modifies repository
      ensures repository.Valid()
      ensures IsLookupResult(old(repository.rows), characterName, lookupFault, lookup)
      ensures Outcome(r, repository.rows) ==
        GetOrCreate(old(repository.rows), characterName, lookup, catalog, saveFault, now)
    {
      var existing := repository.FindCharacterByName(characterName, lookupFault);
      lookup := existing;
      if existing.Success? && existing.value.Some? {
        return Success(existing.value.value), lookup;
      }

      var fetched := catalog(characterName);
      if fetched.Failure? {
        return Failure(FetchError(fetched.error)), lookup;
      }
      if fetched.value.None? {
        return Failure(NotFound(characterName)), lookup;
      }

      var newCharacter := NewCharacter(fetched.value.value);
      var err := repository.SaveCharacter(newCharacter, now, saveFault);
      if err.Some? {
        return Failure(SaveError(err.value)), lookup;
      }
      return Success(newCharacter), lookup;
    }
  }

  /** A hit in the store is returned exactly as the lookup answered it (a
      stored row whose name matches): the table is not written, and neither
      the catalog nor the save's outcome plays any part. */
  lemma ServedFromStore(rows: map<string, Character>, name: string,
                        lookup: Result<Option<Character>, StoreError>,
                        catalog: Catalog, other: Catalog, saveFault: Option<string>,
                        otherFault: Option<string>, now: Timestamp)
    requires IsLookupResult(rows, name, None, lookup)
    requires HasMatch(rows, name)
    ensures var o := GetOrCreate(rows, name, lookup, catalog, saveFault, now);
      && o.result == Success(lookup.value.value)
      && o.result.value.id in rows && rows[o.result.value.id] == o.result.value
      && EqualFold(o.result.value.name, name)
      && o.rows == rows
      && o == GetOrCreate(rows, name, lookup, other, otherFault, now)
  {
  }

  /** A failed store lookup is not reported: the call goes on exactly as if
      the store had no such character. */
  lemma LookupErrorIsMiss(rows: map<string, Character>, name: string, e: StoreError,
                          catalog: Catalog, saveFault: Option<string>, now: Timestamp)
    ensures GetOrCreate(rows, name, Failure(e), catalog, saveFault, now) ==
            GetOrCreate(rows, name, Success(None), catalog, saveFault, now)
  {
  }

  /** Only the catalog's answer for this very name matters: the catalog is
      consulted at most once, with the name the caller gave. */
  lemma CatalogAskedOnlyForName(rows: map<string, Character>, name: string,
                                lookup: Result<Option<Character>, StoreError>,
                                catalog: Catalog, other: Catalog, saveFault: Option<string>, now: Timestamp)
    requires catalog(name) == other(name)
    ensures GetOrCreate(rows, name, lookup, catalog, saveFault, now) ==
            GetOrCreate(rows, name, lookup, other, saveFault, now)
  {
  }

  /** A catalog error becomes a fetch error that wraps it; nothing is saved. */
  lemma CatalogErrorIsFetchError(rows: map<string, Character>, name: string,
                                 lookup: Result<Option<Character>, StoreError>,
                                 catalog: Catalog, saveFault: Option<string>, now: Timestamp)
    requires !(lookup.Success? && lookup.value.Some?)
    requires catalog(name).Failure?
    ensures var o := GetOrCreate(rows, name, lookup, catalog, saveFault, now);
      && o.result == Failure(FetchError(catalog(name).error))
      && FetchErrorPrefix <= o.result.error.Message()
      && o.rows == rows
  {
  }

  /** A catalog miss becomes a not-found error naming the character; nothing
      is saved. */
  lemma CatalogMissIsNotFound(rows: map<string, Character>, name: string,
                              lookup: Result<Option<Character>, StoreError>,
                              catalog: Catalog, saveFault: Option<string>, now: Timestamp)
    requires !(lookup.Success? && lookup.value.Some?)
    requires catalog(name) == Success(None)
    ensures var o := GetOrCreate(rows, name, lookup, catalog, saveFault, now);
      o.result == Failure(NotFound(name)) && o.rows == rows
  {
  }

  /** A catalog hit is saved once, with the catalog's id, name, ki and race,
      and the record handed back is the one saved. */
  lemma CatalogHitIsSaved(rows: map<string, Character>, name: string,
                          lookup: Result<Option<Character>, StoreError>,
                          catalog: Catalog, now: Timestamp)
    requires !(lookup.Success? && lookup.value.Some?)
    requires catalog(name).Success? && catalog(name).value.Some?
    ensures var found := catalog(name).value.value;
      var o := GetOrCreate(rows, name, lookup, catalog, None, now);
      && o.result.Success?
      && o.result.value.id == found.id && o.result.value.name == found.name
      && o.result.value.ki == found.ki && o.result.value.race == found.race
      && o.rows == Upsert(rows, o.result.value, now)
      && o.rows[found.id].name == found.name && o.rows[found.id].ki == found.ki
      && o.rows[found.id].race == found.race
  {
  }

  /** A failed save is reported as a save error and no character is handed
      back. */
  lemma SaveFailureIsSaveError(rows: map<string, Character>, name: string,
                               lookup: Result<Option<Character>, StoreError>,
                               catalog: Catalog, cause: string, now: Timestamp)
    requires !(lookup.Success? && lookup.value.Some?)
    requires catalog(name).Success? && catalog(name).value.Some?
    ensures var o := GetOrCreate(rows, name, lookup, catalog, Some(cause), now);
      && o.result == Failure(SaveError(SaveFailed(cause)))
      && SaveErrorPrefix <= o.result.error.Message()
      && o.rows == rows
  {
  }

  /** Every call writes the table at most once, and only with the record it
      returns: an error never comes with a changed table. */
  lemma AtMostOneWrite(rows: map<string, Character>, name: string,
                       lookup: Result<Option<Character>, StoreError>,
                       catalog: Catalog, saveFault: Option<string>, now: Timestamp)
    ensures var o := GetOrCreate(rows, name, lookup, catalog, saveFault, now);
      && (o.result.Failure? ==> o.rows == rows)
      && (o.rows == rows || (o.result.Success? && o.rows == Upsert(rows, o.result.value, now)))
  {
  }

  /** The Dragon Ball client answers by-name lookups with exact matches only. */
  lemma DragonBallCatalogIsExact(listing: Response<seq<ApiCharacter>>, name: string)
    ensures ExactFor(DragonBallCatalog(listing), name)
  {
  }

  /** Asking twice: when the first call fetched the character and saved it,
      the second call is served from the store, with the same id, whatever
      the catalog would now answer. */
  lemma SecondCallServedFromStore(rows: map<string, Character>, name: string,
                                  lookup1: Result<Option<Character>, StoreError>, lookupFault1: Option<string>,
                                  lookup2: Result<Option<Character>, StoreError>,
                                  catalog: Catalog, later: Catalog, saveFault2: Option<string>,
                                  now1: Timestamp, now2: Timestamp)
    requires KeyedById(rows)
    requires !HasMatch(rows, name)
    requires IsLookupResult(rows, name, lookupFault1, lookup1)
    requires ExactFor(catalog, name)
    requires GetOrCreate(rows, name, lookup1, catalog, None, now1).result.Success?
    requires IsLookupResult(GetOrCreate(rows, name, lookup1, catalog, None, now1).rows, name, None, lookup2)
    ensures var first := GetOrCreate(rows, name, lookup1, catalog, None, now1);
      var second := GetOrCreate(first.rows, name, lookup2, later, saveFault2, now2);
      && second.result.Success?
      && second.result.value.id == first.result.value.id
      && second.result.value.name == first.result.value.name
      && second.rows == first.rows
  {
  }
}
