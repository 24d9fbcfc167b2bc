/** Client code for the models, one method per test case of the repository's
    own test suite. For the service and the repository, the methods' contracts
    alone determine the outcome the test asserts; the client tests call pure
    functions, whose definitions are visible as well. */
module Scenarios {
  import opened Wrappers
  import opened Domain
  import opened Postgres
  import opened DragonBallApi
  import opened Services

  /** A catalog that must not be needed: it fails for every name. */
  function Unreachable(): Catalog
  {
    _ => Failure(RequestFailed("catalog must not be called"))
  }

  method FromDatabase()
  {
    var goku := Character("123", "Goku", "", "", 5, 5);
    var repo := new CharacterRepository(map["123" := goku]);
    var service := new CharacterService(repo, Unreachable());
    assert EqualFold(repo.rows["123"].name, "Goku");
    var r, lookup := service.CreateCharacter("Goku", None, None, 9);
    assert r == Success(goku);
    assert repo.rows == map["123" := goku];
  }

  method FromApi()
  {
    var repo := new CharacterRepository(map[]);
    var listing := Reply(200, "", Success([ApiCharacter("456", "Vegeta", "8000", "Saiyan")]));
    var service := new CharacterService(repo, DragonBallCatalog(listing));
    var r, lookup := service.CreateCharacter("Vegeta", None, None, 7);
    assert r.Success?;
    assert r.value.id == "456" && r.value.name == "Vegeta" && r.value.ki == "8000" && r.value.race == "Saiyan";
    var again := repo.FindCharacterByName("Vegeta", None);
    assert again.Success? && again.value.Some? && again.value.value.id == "456";
  }

  method ApiError()
  {
    var repo := new CharacterRepository(map[]);
    var failing: Catalog := _ => Failure(Foreign("API error"));
    var service := new CharacterService(repo, failing);
    var r, lookup := service.CreateCharacter("Krillin", None, None, 7);
    assert r == Failure(FetchError(Foreign("API error")));
    assert r.error.Message() == "failed to fetch character from external API: API error";
    assert repo.rows == map[];
  }

  method SaveErrorReported()
  {
    var repo := new CharacterRepository(map[]);
    var piccolo := Character("789", "Piccolo", "", "", ZeroTime, ZeroTime);
    var catalog: Catalog := _ => Success(Some(piccolo));
    var service := new CharacterService(repo, catalog);
    var r, lookup := service.CreateCharacter("Piccolo", None, Some("DB save error"), 7);
    assert r == Failure(SaveError(SaveFailed("DB save error")));
    assert repo.rows == map[];
  }

  method RepositorySave()
  {
    var repo := new CharacterRepository(map[]);
    var goku := Character("1", "Goku", "10000", "Saiyan", ZeroTime, ZeroTime);
    var err := repo.SaveCharacter(goku, 3, None);
    assert err.None?;
    assert "1" in repo.rows;
    assert repo.rows["1"].name == "Goku" && repo.rows["1"].ki == "10000" && repo.rows["1"].race == "Saiyan";
  }

  method RepositoryFindByName()
  {
    var vegeta := Character("2", "Vegeta", "9000", "Saiyan", 4, 4);
    var repo := new CharacterRepository(map["2" := vegeta]);
    assert EqualFold(repo.rows["2"].name, "Vegeta");
    var found := repo.FindCharacterByName("Vegeta", None);
    assert found == Success(Some(vegeta));
    assert found.value.value.name == "Vegeta";
    assert !EqualFold("Vegeta", "NonExistent") by {
      FoldCaseAt("Vegeta");
      FoldCaseAt("NonExistent");
    }
    assert !HasMatch(repo.rows, "NonExistent");
    var missing := repo.FindCharacterByName("NonExistent", None);
    assert missing == Success(None);
  }

  method ClientByName()
  {
    var listing := Reply(200, "", Success([
      ApiCharacter("1", "Goku", "9000", "Saiyan"),
      ApiCharacter("2", "Vegeta", "8000", "Saiyan")]));
    var found := DragonBallApi.FindCharacterByName(listing, "Goku");
    assert found == Success(Some(Character("1", "Goku", "9000", "Saiyan", ZeroTime, ZeroTime)));
    var missing := DragonBallApi.FindCharacterByName(listing, "Frieza");
    assert missing == Success(None);
  }

  method ClientByID()
  {
    var gohan := Reply(200, "", Success(ApiCharacter("1", "Gohan", "7000", "Saiyan")));
    var found := FindCharacterByID(gohan);
    assert found.Success? && found.value.Some? && found.value.value.name == "Gohan" && found.value.value.id == "1";
    var absent := FindCharacterByID(Reply(404, "", Failure("EOF")));
    assert absent == Success(None);
    var broken := FindCharacterByID(Reply(500, "", Failure("EOF")));
    assert broken.Failure?;
    BadStatusMessageNamesStatus(500, "");
    assert StatusOf(broken.error.Message()) == Some(500);
  }
}
