/** The Pokemon service: name normalisation, lookup-term resolution, the shallow
    merge `update` returns, and the translation of store errors into HTTP errors,
    all over the in-memory collection of module `Mongo`. */
module Pokemons {
  import opened Outcomes
  import opened Js
  import opened Dtos
  import opened Mongo

  /** The text of a thrown exception, by what it interpolates. */
  datatype Message =
    | ExistsInDb(key: DupKey)                   // "Pokemon exist in db {keyValue}"
    | ExistsInDbWrite(writeError: WriteError)   // "Pokemon exist in db {writeErrors[0].err}"
    | AnotherExists(key: DupKey)                // "Another pokemon exist in db with {keyValue}"
    | CheckServerLogs                           // "Can't create Pokemon - Check server logs"
    | NotFoundByTerm(term: string)              // "Pokemon with id, name or no {term} not found"
    | NotFoundById(id: string)                  // "Pokemon with id {id} not found"

  /** What a service call throws: the three HTTP exceptions, the TypeError of
      reading `.err` from a missing first write error, and the ODM's CastError for
      a string that is not an ObjectId where one is required. */
  datatype Failure =
    | BadRequest(message: Message)
    | NotFound(message: Message)
    | InternalServerError(message: Message)
    | TypeError
    | CastError(value: string)

  /** The plain object `update` returns: the prior document's fields overlaid with the patch's. */
  datatype MergedView = MergedView(id: ObjectId, no: Number, name: string)

  /** What the batch insert returns. */
  datatype SeedReport = SeedReport(success: bool, insertedIds: seq<ObjectId>)

  /** `error instanceof MongoError`. */
  predicate IsMongoError(e: StoreError) {
    e.ServerError? || e.BulkWriteError?
  }

  /** `error instanceof MongoError && 'keyValue' in error`. */
  predicate HasKeyValue(e: StoreError) {
    IsMongoError(e) && e.keyValue.Some?
  }

  /** The duplicate-key signals the service reports as a client error: the
      duplicate-key code on a MongoError that names the key, either in `keyValue`
      or in the first of its `writeErrors`. */
  predicate IsDuplicateKeyError(e: StoreError) {
    IsMongoError(e) && e.code == DuplicateKeyCode &&
    (e.keyValue.Some? || (e.BulkWriteError? && e.writeErrors != []))
  }

  /** `handleException`: every path throws, so the result is the failure thrown.
      `customMessage` is `None` for the default empty message. */
  function HandleException(error: StoreError, customMessage: Option<Message>): (f: Failure)
    ensures f.BadRequest? <==> IsDuplicateKeyError(error)
    ensures f.BadRequest? ==> f.message == customMessage.GetOr(
      if HasKeyValue(error) then ExistsInDb(error.keyValue.value) else ExistsInDbWrite(error.writeErrors[0]))
    ensures f.TypeError? <==>
      error.BulkWriteError? && error.code == DuplicateKeyCode && error.keyValue.None? && error.writeErrors == []
    ensures f.BadRequest? || f.TypeError? || f == InternalServerError(CheckServerLogs)
  {
    if HasKeyValue(error) then
      var message := customMessage.GetOr(ExistsInDb(error.keyValue.value));
      if error.code == DuplicateKeyCode then BadRequest(message)
      else InternalServerError(CheckServerLogs)
    else if error.BulkWriteError? && error.code == DuplicateKeyCode then
      if error.writeErrors == [] then TypeError
      else BadRequest(customMessage.GetOr(ExistsInDbWrite(error.writeErrors[0])))
    else InternalServerError(CheckServerLogs)
  }

  /** Any error that is not a MongoError, and any MongoError with another code,
      becomes the generic server error. */
  lemma HandleExceptionServerFault(error: StoreError, customMessage: Option<Message>)
    requires !IsMongoError(error) || error.code != DuplicateKeyCode
    ensures HandleException(error, customMessage) == InternalServerError(CheckServerLogs)
  {
  }

  // The three lookup strategies of `findOne`, in order; each turns the term into
  // a query, or into nothing when it does not apply.

  /** By number, when `+term` is not NaN. */
  function NumericLookup(term: string): (q: Option<Filter>)
    ensures q.Some? <==> ToNumber(term).Finite?
    ensures q.Some? ==> q.value == ByNo(ToNumber(term).value)
  {
    match ToNumber(term)
    case Finite(n) => Some(ByNo(n))
    case NaN => None
  }

  /** By id, when the term is a valid ObjectId. */
  function IdLookup(term: string): (q: Option<Filter>)
    ensures q.Some? <==> IsValidObjectId(term)
    ensures q.Some? ==> q.value.ById? && q.value.id == ToLower(term)
  {
    if IsValidObjectId(term) then Some(ById(CastObjectId(term))) else None
  }

  /** By the trimmed, lower-cased term as a name; always applies. */
  function NameLookup(term: string): Option<Filter> {
    Some(ByName(ToLower(Trim(term))))
  }

  function LookupOrder(term: string): seq<Option<Filter>> {
    [NumericLookup(term), IdLookup(term), NameLookup(term)]
  }

  /** The document found by the first query that finds one. */
  function FirstHit(rs: seq<Pokemon>, queries: seq<Option<Filter>>): (r: Option<Pokemon>)
    ensures r.None? <==>
      forall k :: 0 <= k < |queries| && queries[k].Some? ==> FindFirst(rs, queries[k].value).None?
    ensures r.Some? ==>
      exists k :: 0 <= k < |queries| && queries[k].Some? && FindFirst(rs, queries[k].value) == r
  {
    if queries == [] then None
    else if queries[0].Some? && FindFirst(rs, queries[0].value).Some? then FindFirst(rs, queries[0].value)
    else
      var r := FirstHit(rs, queries[1..]);
      assert forall k :: 1 <= k < |queries| ==> queries[k] == queries[1..][k - 1];
      r
  }

  lemma FirstHitCons(rs: seq<Pokemon>, q: Option<Filter>, rest: seq<Option<Filter>>)
    ensures FirstHit(rs, [q] + rest) ==
      if q.Some? && FindFirst(rs, q.value).Some? then FindFirst(rs, q.value) else FirstHit(rs, rest)
  {
    assert ([q] + rest)[1..] == rest;
  }

  /** The strategy list read as the three guarded lookups, one after another. */
  lemma FirstHitOfLookupOrder(rs: seq<Pokemon>, term: string)
    ensures FirstHit(rs, LookupOrder(term)) ==
      var byNo := if NumericLookup(term).Some? then FindFirst(rs, NumericLookup(term).value) else None;
      var byId := if byNo.None? && IdLookup(term).Some? then FindFirst(rs, IdLookup(term).value) else byNo;
      if byId.None? then FindFirst(rs, NameLookup(term).value) else byId
  {
    var q := LookupOrder(term);
    assert q == [q[0]] + ([q[1]] + ([q[2]] + []));
    FirstHitCons(rs, q[0], [q[1]] + ([q[2]] + []));
    FirstHitCons(rs, q[1], [q[2]] + []);
    FirstHitCons(rs, q[2], []);
  }

  /** What `findOne(term)` returns or throws. */
  function Resolve(rs: seq<Pokemon>, term: string): (r: Result<Pokemon, Failure>)
    ensures r.Ok? ==> r.value in rs
    ensures r.Err? ==> r.error == NotFound(NotFoundByTerm(term))
  {
    match FirstHit(rs, LookupOrder(term))
    case Some(p) => Ok(p)
    case None => Err(NotFound(NotFoundByTerm(term)))
  }

  /** A document answers to a term when one of the three matchers accepts it. */
  predicate MatchesTerm(p: Pokemon, term: string) {
    || ToNumber(term) == Finite(p.no)
    || (IsValidObjectId(term) && p.id == ToLower(term))
    || p.name == ToLower(Trim(term))
  }

  lemma LookupMatches(p: Pokemon, term: string)
    ensures MatchesTerm(p, term) <==>
      exists k :: 0 <= k < 3 && LookupOrder(term)[k].Some? && Satisfies(p, LookupOrder(term)[k].value)
  {
    var q := LookupOrder(term);
    if IsValidObjectId(term) {
      assert q[1] == Some(ById(ToLower(term)));
    }
    if MatchesTerm(p, term) {
      if ToNumber(term) == Finite(p.no) {
        assert q[0].Some? && Satisfies(p, q[0].value);
      } else if IsValidObjectId(term) && p.id == ToLower(term) {
        assert q[1].Some? && Satisfies(p, q[1].value);
      } else {
        assert q[2].Some? && Satisfies(p, q[2].value);
      }
    }
  }

  /** A document `findOne` returns is stored and answers to the term. */
  lemma ResolveSound(rs: seq<Pokemon>, term: string)
    requires Resolve(rs, term).Ok?
    ensures Resolve(rs, term).value in rs && MatchesTerm(Resolve(rs, term).value, term)
  {
    var p := Resolve(rs, term).value;
    var k :| 0 <= k < 3 && LookupOrder(term)[k].Some? && FindFirst(rs, LookupOrder(term)[k].value) == Some(p);
    LookupMatches(p, term);
  }

  /** `findOne` throws NotFound exactly when no stored document answers to the term. */
  lemma ResolveNotFound(rs: seq<Pokemon>, term: string)
    ensures Resolve(rs, term).Err? <==> forall i :: 0 <= i < |rs| ==> !MatchesTerm(rs[i], term)
    ensures Resolve(rs, term).Err? ==> Resolve(rs, term).error == NotFound(NotFoundByTerm(term))
  {
    var q := LookupOrder(term);
    if Resolve(rs, term).Err? {
      forall i | 0 <= i < |rs| ensures !MatchesTerm(rs[i], term) {
        LookupMatches(rs[i], term);
        forall k | 0 <= k < 3 && q[k].Some? ensures !Satisfies(rs[i], q[k].value) {
          assert FindFirst(rs, q[k].value).None?;
        }
      }
    } else {
      ResolveSound(rs, term);
      var p := Resolve(rs, term).value;
      var i :| 0 <= i < |rs| && rs[i] == p;
    }
  }

  /** A number that a stored document has wins, whatever the id or name lookups would find. */
  lemma ResolveNumberFirst(rs: seq<Pokemon>, term: string, i: int)
    requires Unique(rs) && 0 <= i < |rs|
    requires ToNumber(term) == Finite(rs[i].no)
    ensures Resolve(rs, term) == Ok(rs[i])
  {
    FindFirstUnique(rs, ByNo(rs[i].no), i);
    FirstHitOfLookupOrder(rs, term);
  }

  /** The id lookup answers only after the number lookup missed. */
  lemma ResolveIdSecond(rs: seq<Pokemon>, term: string, i: int)
    requires Unique(rs) && 0 <= i < |rs|
    requires forall k :: 0 <= k < |rs| ==> ToNumber(term) != Finite(rs[k].no)
    requires IsValidObjectId(term) && rs[i].id == ToLower(term)
    ensures Resolve(rs, term) == Ok(rs[i])
  {
    FindFirstUnique(rs, ById(CastObjectId(term)), i);
    if ToNumber(term).Finite? {
      assert FindFirst(rs, ByNo(ToNumber(term).value)).None?;
    }
    FirstHitOfLookupOrder(rs, term);
  }

  /** The name lookup, on the trimmed and lower-cased term, answers only after both others missed. */
  lemma ResolveNameLast(rs: seq<Pokemon>, term: string, i: int)
    requires Unique(rs) && 0 <= i < |rs|
    requires forall k :: 0 <= k < |rs| ==> ToNumber(term) != Finite(rs[k].no)
    requires forall k :: 0 <= k < |rs| ==> !(IsValidObjectId(term) && rs[k].id == ToLower(term))
    requires rs[i].name == ToLower(Trim(term))
    ensures Resolve(rs, term) == Ok(rs[i])
  {
    FindFirstUnique(rs, ByName(rs[i].name), i);
    if ToNumber(term).Finite? {
      assert FindFirst(rs, ByNo(ToNumber(term).value)).None?;
    }
    if IsValidObjectId(term) {
      assert FindFirst(rs, ById(CastObjectId(term))).None?;
    }
    FirstHitOfLookupOrder(rs, term);
  }

  /** Every stored document is found by its printed number. */
  lemma ResolveByPrintedNumber(rs: seq<Pokemon>, i: int)
    requires Unique(rs) && 0 <= i < |rs|
    ensures Resolve(rs, IntToString(rs[i].no)) == Ok(rs[i])
  {
    ToNumberOfIntToString(rs[i].no);
    ResolveNumberFirst(rs, IntToString(rs[i].no), i);
  }

  /** `create` lowers the name but does not trim it, and the name lookup trims the
      term: a name stored with leading white space is never found by name. */
  lemma PaddedNameNeverMatched(p: Pokemon, term: string)
    requires p.name != [] && IsWhitespace(p.name[0])
    ensures p.name != ToLower(Trim(term))
  {
    var t := Trim(term);
    if t != [] {
      assert ToLower(t)[0] == LowerChar(t[0]);
    }
  }

  /** `update` lowers and trims a patch name that is not the empty string. */
  function NormalizeName(dto: UpdatePokemonDto): (r: UpdatePokemonDto)
    ensures r.no == dto.no
    ensures r.name.Some? <==> dto.name.Some?
    ensures dto.name == Some("") ==> r.name == Some("")
    ensures dto.name.Some? && dto.name.value != "" ==> r.name == Some(ToLower(Trim(dto.name.value)))
    ensures dto.name.Some? && dto.name.value != "" ==>
      var n := r.name.value;
      && (forall i :: 0 <= i < |n| ==> !IsUpper(n[i]))
      && (n == [] || (!IsWhitespace(n[0]) && !IsWhitespace(n[|n| - 1])))
  {
    if dto.name.Some? && dto.name.value != "" then
      var n := ToLower(Trim(dto.name.value));
      var t := Trim(dto.name.value);
      assert n != [] ==> n[0] == LowerChar(t[0]) && n[|n| - 1] == LowerChar(t[|t| - 1]);
      dto.(name := Some(n))
    else dto
  }

  /** `{ ...pokemon.toJSON(), ...updatePokemonDto }`. */
  function Merge(p: Pokemon, patch: UpdatePokemonDto): (v: MergedView)
    ensures v.id == p.id
    ensures patch == UpdatePokemonDto(None, None) ==> v == AsView(p)
  {
    MergedView(p.id,
               if patch.no.Some? then patch.no.value else Finite(p.no),
               patch.name.GetOr(p.name))
  }

  /** A stored document as a plain object. */
  function AsView(p: Pokemon): MergedView {
    MergedView(p.id, Finite(p.no), p.name)
  }

  /** When the write goes through, the merged view `update` returns is exactly the
      document the store now holds in the target's place. */
  lemma UpdateViewIsStored(rs: seq<Pokemon>, i: int, patch: UpdatePokemonDto)
    requires Unique(rs) && 0 <= i < |rs|
    requires UpdateById(rs, rs[i].id, patch).Ok?
    ensures var after := UpdateById(rs, rs[i].id, patch).value;
      |after| == |rs| && AsView(after[i]) == Merge(rs[i], patch)
  {
    UpdateByIdReplaces(rs, i, patch);
    ApplyIsMerge(rs[i], patch);
  }

  /** The store's `$set` and the spread merge agree on every field. */
  lemma ApplyIsMerge(p: Pokemon, patch: UpdatePokemonDto)
    requires patch.no != Some(NaN)
    ensures AsView(Apply(p, patch)) == Merge(p, patch)
  {
    assert patch.no.Some? ==> patch.no.value.Finite?;
  }

  /** The service over one collection; `defaultLimit` is the configured page size. */
  class PokemonService {
    var records: seq<Pokemon>
    const defaultLimit: int

    ghost predicate Valid()
      reads this
    {
      Unique(records)
    }

    constructor(collection: seq<Pokemon>, defaultLimit: int)
      requires Unique(collection)
      ensures Valid() && records == collection && this.defaultLimit == defaultLimit
    {
      records := collection;
      this.defaultLimit := defaultLimit;
    }

    /** `create`: store the request with its name lower-cased (not trimmed). A
        `fault` is a failure of the store call itself, thrown instead of its outcome. */
    method Create(createPokemonDto: CreatePokemonDto, newId: ObjectId, fault: Option<StoreError>)
      returns (r: Result<Pokemon, Failure>)
      requires Valid()
      modifies this
      ensures Valid()
      ensures r.Ok? ==>
        && fault.None? && createPokemonDto.no.Finite?
        && r.value == Pokemon(newId, createPokemonDto.no.value, ToLower(createPokemonDto.name))
        && records == old(records) + [r.value]
      ensures r.Err? ==> records == old(records)
      ensures fault.Some? ==> r == Err(HandleException(fault.value, None))
      ensures fault.None? ==>
        (r.Ok? <==> createPokemonDto.no.Finite? &&
                    Unique(old(records) + [Pokemon(newId, createPokemonDto.no.value, ToLower(createPokemonDto.name))]))
      ensures fault.None? && r.Err? ==>
        r.error == if createPokemonDto.no.NaN? then InternalServerError(CheckServerLogs)
                   else BadRequest(ExistsInDb(Conflict(old(records), Pokemon(newId, createPokemonDto.no.value, ToLower(createPokemonDto.name))).value))
    {
      var dto := createPokemonDto.(name := ToLower(createPokemonDto.name));
      var written := if fault.Some? then Err(fault.value) else Insert(records, newId, dto);
      match written {
        case Ok(rs) =>
          records := rs;
          r := Ok(rs[|rs| - 1]);
        case Err(e) =>
          r := Err(HandleException(e, None));
      }
    }

    /** `findAll`: sorted by number, `offset` skipped, at most `limit` taken
        (a limit of 0 takes everything, a negative one its absolute value). */
    function FindAll(paginationDto: PaginationDto): (r: seq<Pokemon>)
      reads this
      ensures |r| == PageSize(|records|, paginationDto.limit.GetOr(defaultLimit), paginationDto.offset.GetOr(0))
      ensures SortedByNo(r)
      ensures forall k :: 0 <= k < |r| ==> r[k] in records
      ensures forall k :: 0 <= k < |r| ==>
        paginationDto.offset.GetOr(0) + k < |records| && r[k] == SortByNo(records)[paginationDto.offset.GetOr(0) + k]
    {
      var offset := paginationDto.offset.GetOr(0);
      var n := PageSize(|records|, paginationDto.limit.GetOr(defaultLimit), offset);
      if n == 0 then []
      else
        SortedWindow(records, offset, n);
        SortByNo(records)[offset..offset + n]
    }

    /** `findOne`: try the number, then the id, then the name. */
    method FindOne(term: string) returns (r: Result<Pokemon, Failure>)
      ensures r == Resolve(records, term)
    {
      FirstHitOfLookupOrder(records, term);
      var pokemon: Option<Pokemon> := None;
      var number := ToNumber(term);
      if number.Finite? {
        pokemon := FindFirst(records, ByNo(number.value));
      }
      if pokemon.None? && IsValidObjectId(term) {
        pokemon := FindFirst(records, ById(CastObjectId(term)));
      }
      if pokemon.None? {
        pokemon := FindFirst(records, ByName(ToLower(Trim(term))));
      }
      if pokemon.None? {
        return Err(NotFound(NotFoundByTerm(term)));
      }
      return Ok(pokemon.value);
    }

    /** `update`: resolve the target, normalise the patch name, write, and return the
        merged view. A MongoError naming a key is translated; any other write error is
        swallowed and the merged view is still returned. */
    method Update(term: string, updatePokemonDto: UpdatePokemonDto, fault: Option<StoreError>)
      returns (r: Result<MergedView, Failure>)
      requires Valid()
      modifies this
      ensures Valid()
      ensures Resolve(old(records), term).Err? ==>
        r == Err(Resolve(old(records), term).error) && records == old(records)
      ensures Resolve(old(records), term).Ok? ==>
        var p := Resolve(old(records), term).value;
        var patch := NormalizeName(updatePokemonDto);
        var written := if fault.Some? then Err(fault.value) else UpdateById(old(records), p.id, patch);
        && (written.Ok? ==> records == written.value && r == Ok(Merge(p, patch)))
        && (written.Err? ==>
              && records == old(records)
              && r == if HasKeyValue(written.error)
                      then Err(HandleException(written.error, Some(AnotherExists(written.error.keyValue.value))))
                      else Ok(Merge(p, patch)))
    {
      var found := FindOne(term);
      if found.Err? {
        return Err(found.error);
      }
      var pokemon := found.value;
      ResolveSound(records, term);
      ghost var i :| 0 <= i < |records| && records[i] == pokemon;
      var patch := NormalizeName(updatePokemonDto);
      var written := if fault.Some? then Err(fault.value) else UpdateById(records, pokemon.id, patch);
      match written {
        case Ok(rs) =>
          UpdateByIdReplaces(records, i, patch);
          records := rs;
        case Err(e) =>
          if HasKeyValue(e) {
            return Err(HandleException(e, Some(AnotherExists(e.keyValue.value))));
          }
      }
      return Ok(Merge(pokemon, patch));
    }

    /** `remove`: delete by id only. A string that is not an ObjectId fails the
        ODM's cast; NotFound when no document has the id. */
    method Remove(id: string) returns (r: Result<Pokemon, Failure>)
      requires Valid()
      modifies this
      ensures Valid()
      ensures !IsValidObjectId(id) ==> r == Err(CastError(id)) && records == old(records)
      ensures r.Ok? ==>
        && r.value.id == ToLower(id)
        && r.value in old(records) && records == Without(old(records), r.value.id)
      ensures IsValidObjectId(id) && r.Err? ==>
        && r.error == NotFound(NotFoundById(id)) && records == old(records)
        && forall i :: 0 <= i < |records| ==> records[i].id != ToLower(id)
    {
      if !IsValidObjectId(id) {
        return Err(CastError(id));
      }
      var result := FindFirst(records, ById(CastObjectId(id)));
      if result.None? {
        return Err(NotFound(NotFoundById(id)));
      }
      var doc := result.value;
      ghost var i :| 0 <= i < |records| && records[i] == doc;
      WithoutUnique(records, i);
      records := Without(records, doc.id);
      return Ok(doc);
    }

    /** `deleteAllPokemons`: empty the collection, whatever it held. */
    method DeleteAllPokemons()
      requires Valid()
      modifies this
      ensures Valid() && records == []
    {
      records := [];
    }

    /** `fillDbPokemosWithSeed`: insert the batch and report the new ids; what that
        means is `FillDbOutcome`. */
    method FillDbPokemonsWithSeed(createPokemonDtos: seq<CreatePokemonDto>, newIds: seq<ObjectId>, fault: Option<StoreError>)
      returns (r: Result<SeedReport, Failure>)
      requires Valid() && |newIds| == |createPokemonDtos|
      modifies this
      ensures Valid()
      ensures records == SeedWrite(old(records), createPokemonDtos, newIds, fault).stored
      ensures r == SeedResult(SeedWrite(old(records), createPokemonDtos, newIds, fault), newIds)
    {
      var outcome := if fault.Some? then BatchOutcome(records, fault) else InsertMany(records, createPokemonDtos, newIds);
      InsertManySpec(records, createPokemonDtos, newIds);
      var before := records;
      records := outcome.stored;
      match outcome.error {
        case None =>
          var inserted := records[|before|..];
          var insertedIds := seq(|inserted|, i requires 0 <= i < |inserted| => inserted[i].id);
          assert insertedIds == newIds;
          r := Ok(SeedReport(true, insertedIds));
        case Some(e) =>
          r := Err(HandleException(e, None));
      }
    }
  }

  /** The store a batch insert leaves: untouched when the call itself fails. */
  function SeedWrite(rs: seq<Pokemon>, dtos: seq<CreatePokemonDto>, ids: seq<ObjectId>, fault: Option<StoreError>): BatchOutcome
    requires |ids| == |dtos|
  {
    if fault.Some? then BatchOutcome(rs, fault) else InsertMany(rs, dtos, ids)
  }

  /** What `fillDbPokemosWithSeed` returns or throws for a batch outcome. */
  function SeedResult(outcome: BatchOutcome, ids: seq<ObjectId>): Result<SeedReport, Failure> {
    match outcome.error
    case None => Ok(SeedReport(true, ids))
    case Some(e) => Err(HandleException(e, None))
  }

  /** What `fillDbPokemosWithSeed` does. Every failure is translated by
      `HandleException`, which always throws, so the source's `{success: false}`
      return is never reached. The call succeeds exactly when the store call goes
      through, no number is NaN and the batch keeps every key unique, and then
      appends the batch and reports its ids. A NaN stores nothing and is a server
      error; a duplicate stops the ordered insert with the documents before it
      stored and is a client error naming that input and key. */
  lemma FillDbOutcome(rs: seq<Pokemon>, dtos: seq<CreatePokemonDto>, ids: seq<ObjectId>, fault: Option<StoreError>)
    requires Unique(rs) && |ids| == |dtos|
    ensures var outcome := SeedWrite(rs, dtos, ids, fault);
      var r := SeedResult(outcome, ids);
      && Unique(outcome.stored)
      && (r.Ok? <==> fault.None? && AllFinite(dtos) && Unique(rs + Documents(dtos, ids)))
      && (r.Ok? ==> r.value == SeedReport(true, ids) && outcome.stored == rs + Documents(dtos, ids))
      && (fault.Some? ==> r == Err(HandleException(fault.value, None)) && outcome.stored == rs)
      && (fault.None? && !AllFinite(dtos) ==> r == Err(InternalServerError(CheckServerLogs)) && outcome.stored == rs)
      && (fault.None? && AllFinite(dtos) && r.Err? ==>
            exists k :: 0 <= k < |dtos|
              && outcome.stored == rs + Documents(dtos, ids)[..k]
              && Conflict(outcome.stored, NewDocument(ids[k], dtos[k])).Some?
              && r == Err(BadRequest(ExistsInDbWrite(
                            WriteError(k, Conflict(outcome.stored, NewDocument(ids[k], dtos[k])).value)))))
  {
    InsertManySpec(rs, dtos, ids);
  }

  /** A window of the sorted documents is sorted and holds only stored documents. */
  lemma SortedWindow(s: seq<Pokemon>, offset: nat, n: nat)
    requires offset + n <= |s|
    ensures var w := SortByNo(s)[offset..offset + n];
      && SortedByNo(w)
      && (forall k :: 0 <= k < n ==> w[k] in s)
      && (forall k :: 0 <= k < n ==> w[k] == SortByNo(s)[offset + k])
  {
    var t := SortByNo(s);
    var w := t[offset..offset + n];
    assert SortedByNo(w) by {
      SortedSlice(t, offset, offset + n);
    }
    assert forall k :: 0 <= k < n ==> w[k] == t[offset + k];
    assert forall k :: 0 <= k < n ==> w[k] in s by {
      SortByNoMembers(s);
    }
  }

  /** Sorting neither loses nor invents documents. */
  lemma SortByNoMembers(s: seq<Pokemon>)
    ensures |SortByNo(s)| == |s|
    ensures forall k :: 0 <= k < |s| ==> SortByNo(s)[k] in s
  {
    var t := SortByNo(s);
    forall k | 0 <= k < |s| ensures t[k] in s {
      assert t[k] in multiset(t);
    }
  }

  /** How many documents a page holds: what is left after the offset, capped by
      the limit unless the limit is 0. */
  function PageSize(count: nat, limit: int, offset: nat): (n: nat)
    ensures n == 0 || offset + n <= count
    ensures limit != 0 ==> n <= Abs(limit)
    ensures offset <= count && n < count - offset ==> n == Abs(limit)
    ensures limit == 0 ==> n == if offset <= count then count - offset else 0
    ensures offset >= count ==> n == 0
  {
    var available := if offset <= count then count - offset else 0;
    if limit == 0 || Abs(limit) >= available then available else Abs(limit)
  }

  function Abs(n: int): nat {
    if n < 0 then -n else n
  }
}
