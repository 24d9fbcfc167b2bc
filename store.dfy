/** The PostgreSQL character repository
    (internal/adapters/secondary/db/postgres/character_repository.go).
    The `characters` table is a map from primary key `id` to the row; the
    database's NOW() is the `now` argument and a driver failure is the
    injected `fault` argument (its text is the driver's error message). */
module Postgres {
  import opened Wrappers
  import opened Domain

  datatype StoreError =
    | FindFailed(cause: string)
    | SaveFailed(cause: string)
  {
    function Message(): string
    {
      match this
      case FindFailed(cause) => "failed to find character by name: " + cause
      case SaveFailed(cause) => "failed to save character: " + cause
    }
  }

  /** `id` is the primary key: every row is stored under its own id. */
  ghost predicate KeyedById(rows: map<string, Character>)
  {
    forall id :: id in rows ==> rows[id].id == id
  }

  /** Some row's name equals `name` up to case. */
  predicate HasMatch(rows: map<string, Character>, name: string)
  {
    exists id :: id in rows && EqualFold(rows[id].name, name)
  }

  /** INSERT ... ON CONFLICT (id) DO UPDATE SET name, ki, race, updated_at:
      the table after one successful upsert of `c` at time `now`. */
  function Upsert(rows: map<string, Character>, c: Character, now: Timestamp)
    : (r: map<string, Character>)
    ensures r.Keys == rows.Keys + {c.id}
    ensures r[c.id].id == c.id && r[c.id].name == c.name && r[c.id].ki == c.ki && r[c.id].race == c.race
    ensures r[c.id].updatedAt == now
    ensures r[c.id].createdAt == if c.id in rows then rows[c.id].createdAt else now
    ensures forall id :: id in rows && id != c.id ==> r[id] == rows[id]
    ensures KeyedById(rows) ==> KeyedById(r)
  {
    var created := if c.id in rows then rows[c.id].createdAt else now;
    rows[c.id := Character(c.id, c.name, c.ki, c.race, created, now)]
  }

  /** What a name lookup may answer: the error for an injected failure;
      otherwise absent exactly when no row matches, and else one of the
      matching rows, returned as stored (which one is up to the database). */
  ghost predicate IsLookupResult(rows: map<string, Character>, name: string, fault: Option<string>,
                                 r: Result<Option<Character>, StoreError>)
  {
    if fault.Some? then
      r == Failure(FindFailed(fault.value))
    else
      && r.Success?
      && (r.value.None? <==> !HasMatch(rows, name))
      && (r.value.Some? ==>
            r.value.value.id in rows && rows[r.value.value.id] == r.value.value
            && EqualFold(r.value.value.name, name))
  }

  class CharacterRepository {
    var rows: map<string, Character>

    ghost predicate Valid()
      reads this
    {
      KeyedById(rows)
    }

    constructor (initial: map<string, Character>)
      requires KeyedById(initial)
      ensures Valid() && rows == initial
    {
      rows := initial;
    }

    /** SaveCharacter: an upsert keyed by `c.id`; a failed statement leaves the
        table as it was. */
    method SaveCharacter(c: Character, now: Timestamp, fault: Option<string>)
      returns (err: Option<StoreError>)
      requires Valid()
      modifies this
      ensures Valid()
      ensures fault.Some? ==> err == Some(SaveFailed(fault.value)) && rows == old(rows)
      ensures fault.None? ==> err.None? && rows == Upsert(old(rows), c, now)
    {
      if fault.Some? {
        return Some(SaveFailed(fault.value));
      }
      rows := Upsert(rows, c, now);
      return None;
    }

    /** FindCharacterByName: "no rows" is absence, not an error; the table is
        only read. */
    method FindCharacterByName(name: string, fault: Option<string>)
      returns (r: Result<Option<Character>, StoreError>)
      requires Valid()
      ensures fault.Some? ==> r == Failure(FindFailed(fault.value))
      ensures fault.None? ==> r.Success? && (r.value.None? <==> !HasMatch(rows, name))
      ensures r.Success? && r.value.Some? ==>
        r.value.value.id in rows && rows[r.value.value.id] == r.value.value
        && EqualFold(r.value.value.name, name)
      ensures IsLookupResult(rows, name, fault, r)
    {
      if fault.Some? {
        return Failure(FindFailed(fault.value));
      }
      if !HasMatch(rows, name) {
        return Success(None);
      }
      var id :| id in rows && EqualFold(rows[id].name, name);
      return Success(Some(rows[id]));
    }
  }

  /** Saving the same character again leaves name, ki, race and the creation
      time as the first save left them, and touches no other key. */
  lemma UpsertIdempotent(rows: map<string, Character>, c: Character, t1: Timestamp, t2: Timestamp)
    ensures var once := Upsert(rows, c, t1);
      var twice := Upsert(once, c, t2);
      && twice.Keys == once.Keys
      && twice[c.id] == once[c.id].(updatedAt := t2)
      && forall id :: id in once && id != c.id ==> twice[id] == once[id]
  {
  }

  /** After an upsert of `c` into a table where no row matched `c.name`, the
      row just written is the only one that matches that name (up to case). */
  lemma UpsertOnlyMatch(rows: map<string, Character>, c: Character, now: Timestamp, name: string)
    requires !HasMatch(rows, name)
    requires EqualFold(c.name, name)
    ensures HasMatch(Upsert(rows, c, now), name)
    ensures forall id :: id in Upsert(rows, c, now) && EqualFold(Upsert(rows, c, now)[id].name, name) ==> id == c.id
  {
  }

  // ILIKE as PostgreSQL evaluates it. The repository hands the caller's name
  // to ILIKE as the pattern, so the pattern characters '%', '_' and '\' in a
  // name are not matched literally. The rest of this model uses EqualFold.

  /** SQL LIKE: '%' matches any run of characters, '_' any one character,
      '\' makes the next character literal. */
  function Like(s: string, p: string): bool
    decreases |p|, |s|
  {
    if p == [] then s == []
    else if p[0] == '%' then Like(s, p[1..]) || (s != [] && Like(s[1..], p))
    else if p[0] == '_' then s != [] && Like(s[1..], p[1..])
    else if p[0] == '\\' && |p| >= 2 then s != [] && s[0] == p[1] && Like(s[1..], p[2..])
    else s != [] && s[0] == p[0] && Like(s[1..], p[1..])
  }

  /** `s ILIKE p`: LIKE after lower-casing both sides. */
  predicate ILike(s: string, p: string)
  {
    Like(FoldCase(s), FoldCase(p))
  }

  predicate WildcardFree(p: string)
  {
    forall i :: 0 <= i < |p| ==> p[i] != '%' && p[i] != '_' && p[i] != '\\'
  }

  /** Without pattern characters LIKE is plain equality. */
  lemma {:induction false} LikeLiteral(s: string, p: string)
    requires WildcardFree(p)
    ensures Like(s, p) <==> s == p
    decreases |p|
  {
    if p != [] {
      LikeLiteral(if s == [] then s else s[1..], p[1..]);
      if s != [] && s[0] == p[0] && s[1..] == p[1..] {
        assert s == [s[0]] + s[1..] && p == [p[0]] + p[1..];
      }
    }
  }

  /** For a name free of pattern characters, ILIKE is exactly equality up to
      case, the matching the rest of the model uses. */
  lemma ILikeAgreesOnPlainNames(s: string, p: string)
    requires WildcardFree(p)
    ensures ILike(s, p) <==> EqualFold(s, p)
  {
    FoldCaseAt(p);
    assert WildcardFree(FoldCase(p));
    LikeLiteral(FoldCase(s), FoldCase(p));
  }

  /** A counterexample: looking up the name "%" matches a stored "Goku",
      which is not that name up to case. */
  lemma WildcardNameMatchesOtherRow()
    ensures ILike("Goku", "%")
    ensures !EqualFold("Goku", "%")
  {
  }
}
