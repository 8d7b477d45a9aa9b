/** The seed routine: each catalogue entry becomes a creation request whose number
    is read from its URL and whose name is lower-cased, and the whole list goes to
    the service's batch insert in one call. */
module Seed {
  import opened Outcomes
  import opened Js
  import opened Dtos
  import opened Mongo
  import opened Pokemons

  /** One entry of the remote catalogue's `results`. */
  datatype CatalogEntry = CatalogEntry(name: string, url: string)

  /** `+segments[segments.length - 2]` for `segments = url.split('/')`. With fewer
      than two segments the index is out of range, the element is `undefined`, and
      `+undefined` is NaN. */
  function SegmentNumber(url: string): Number {
    var segments := Split(url, '/');
    if |segments| >= 2 then ToNumber(segments[|segments| - 2]) else NaN
  }

  /** The request one entry becomes: only a name and a number. */
  function EntryToDto(entry: CatalogEntry): CreatePokemonDto {
    CreatePokemonDto(ToLower(entry.name), SegmentNumber(entry.url))
  }

  /** The list the seed routine builds: one request per entry, in catalogue order. */
  function SeedBatch(catalog: seq<CatalogEntry>): (dtos: seq<CreatePokemonDto>)
    ensures |dtos| == |catalog|
    ensures forall i :: 0 <= i < |catalog| ==> dtos[i] == EntryToDto(catalog[i])
  {
    if catalog == [] then []
    else [EntryToDto(catalog[0])] + SeedBatch(catalog[1..])
  }

  /** Building the batch one entry at a time, as the loop over the catalogue does. */
  lemma {:induction false} SeedBatchSnoc(catalog: seq<CatalogEntry>, entry: CatalogEntry)
    ensures SeedBatch(catalog + [entry]) == SeedBatch(catalog) + [EntryToDto(entry)]
  {
    if catalog == [] {
      assert catalog + [entry] == [entry];
    } else {
      assert (catalog + [entry])[1..] == catalog[1..] + [entry];
      SeedBatchSnoc(catalog[1..], entry);
    }
  }

  /** A catalogue URL ending in `/<n>/` yields the number `n`. */
  lemma CatalogUrlNumber(prefix: string, n: nat)
    ensures SegmentNumber(prefix + "/" + NatToString(n) + "/") == Finite(n)
  {
    var digits := NatToString(n);
    forall k | 0 <= k < |digits|
      ensures digits[k] != '/'
    {
      assert IsDigit(digits[k]);
    }
    var url := prefix + "/" + digits + "/";
    assert url == prefix + ['/'] + (digits + ['/'] + "");
    SplitConcat(prefix, digits + ['/'] + "", '/');
    SplitConcat(digits, "", '/');
    SplitWithoutSeparator(digits, '/');
    assert Split("", '/') == [""];
    var segments := Split(url, '/');
    assert segments == Split(prefix, '/') + [digits] + [""];
    assert segments[|segments| - 2] == digits;
    ToNumberOfIntToString(n);
  }

  /** The request built from a well-formed catalogue entry. */
  lemma EntryToDtoOfCatalogEntry(name: string, prefix: string, n: nat)
    ensures EntryToDto(CatalogEntry(name, prefix + "/" + NatToString(n) + "/")) == CreatePokemonDto(ToLower(name), Finite(n))
  {
    CatalogUrlNumber(prefix, n);
  }

  /** A URL without a slash has only one segment, so its number is NaN. */
  lemma SlashlessUrlIsNaN(url: string)
    requires '/' !in url
    ensures SegmentNumber(url) == NaN
  {
    SplitWithoutSeparator(url, '/');
  }

  /** Into an empty collection, the batch goes in exactly when every URL gives a
      number and the entries differ pairwise in id, number and lower-cased name. */
  lemma {:induction false} SeedInsertSucceeds(catalog: seq<CatalogEntry>, ids: seq<ObjectId>)
    requires |ids| == |catalog|
    requires forall i :: 0 <= i < |catalog| ==> SegmentNumber(catalog[i].url).Finite?
    requires forall i, j :: 0 <= i < |catalog| && 0 <= j < |catalog| && i != j ==>
      && ids[i] != ids[j]
      && SegmentNumber(catalog[i].url) != SegmentNumber(catalog[j].url)
      && ToLower(catalog[i].name) != ToLower(catalog[j].name)
    ensures AllFinite(SeedBatch(catalog))
    ensures InsertMany([], SeedBatch(catalog), ids) == BatchOutcome(Documents(SeedBatch(catalog), ids), None)
  {
    var batch := SeedBatch(catalog);
    var docs := Documents(batch, ids);
    assert Unique(docs);
    assert [] + docs == docs;
    InsertManySpec([], batch, ids);
  }

  /** Two entries whose names agree once lower-cased stop the batch with an error. */
  lemma {:induction false} SeedDuplicateNameFails(catalog: seq<CatalogEntry>, ids: seq<ObjectId>, i: int, j: int)
    requires |ids| == |catalog|
    requires 0 <= i < |catalog| && 0 <= j < |catalog| && i != j
    requires ToLower(catalog[i].name) == ToLower(catalog[j].name)
    ensures InsertMany([], SeedBatch(catalog), ids).error.Some?
  {
    InsertManyDuplicateName([], SeedBatch(catalog), ids, i, j);
  }

  /** When seeding succeeds, starting from the emptied collection: exactly when
      the call goes through, every URL gives a number and the documents keep every
      key unique, and then the collection is the batch in catalogue order and the
      report lists the new ids. Whatever happens, the keys stay unique. */
  lemma PopulateDbSucceeds(catalog: seq<CatalogEntry>, newIds: seq<ObjectId>, fault: Option<StoreError>)
    requires |newIds| == |catalog|
    ensures var batch := SeedBatch(catalog);
      var outcome := SeedWrite([], batch, newIds, fault);
      var r := SeedResult(outcome, newIds);
      && Unique(outcome.stored)
      && (r.Ok? <==> fault.None? && AllFinite(batch) && Unique(Documents(batch, newIds)))
      && (r.Ok? ==> r.value == SeedReport(true, newIds) && outcome.stored == Documents(batch, newIds))
  {
    var batch := SeedBatch(catalog);
    FillDbOutcome([], batch, newIds, fault);
    if AllFinite(batch) {
      var docs := Documents(batch, newIds);
      assert [] + docs == docs;
      assert forall k :: 0 <= k <= |docs| ==> [] + docs[..k] == docs[..k];
    }
  }

  /** How seeding fails: a failing call stores nothing and throws what
      `HandleException` makes of it; a NaN stores nothing and is a server error; a
      duplicate is a client error with only the documents before it stored. */
  lemma PopulateDbFails(catalog: seq<CatalogEntry>, newIds: seq<ObjectId>, fault: Option<StoreError>)
    requires |newIds| == |catalog|
    ensures var batch := SeedBatch(catalog);
      var outcome := SeedWrite([], batch, newIds, fault);
      var r := SeedResult(outcome, newIds);
      && (fault.Some? ==> r == Err(HandleException(fault.value, None)) && outcome.stored == [])
      && (fault.None? && !AllFinite(batch) ==> r == Err(InternalServerError(CheckServerLogs)) && outcome.stored == [])
      && (fault.None? && AllFinite(batch) && r.Err? ==>
            && r.error.BadRequest?
            && exists k :: 0 <= k < |catalog| && outcome.stored == Documents(batch, newIds)[..k])
  {
    var batch := SeedBatch(catalog);
    FillDbOutcome([], batch, newIds, fault);
    if AllFinite(batch) {
      var docs := Documents(batch, newIds);
      assert [] + docs == docs;
      assert forall k :: 0 <= k <= |docs| ==> [] + docs[..k] == docs[..k];
    }
  }

  /** The seed endpoint's service, over the Pokemon service it fills. */
  class SeedService {
    const pokemonService: PokemonService

    constructor(pokemonService: PokemonService)
      ensures this.pokemonService == pokemonService
    {
      this.pokemonService := pokemonService;
    }

    /** `populateDB`: empty the collection, build one request per catalogue entry,
        and return the batch insert's result unchanged. The catalogue is the fetched
        page's `results`; `newIds` are the ids the store assigns. */
    method PopulateDb(catalog: seq<CatalogEntry>, newIds: seq<ObjectId>, fault: Option<StoreError>)
      returns (r: Result<SeedReport, Failure>)
      requires pokemonService.Valid() && |newIds| == |catalog|
      modifies pokemonService
      ensures pokemonService.Valid()
      ensures pokemonService.records == SeedWrite([], SeedBatch(catalog), newIds, fault).stored
      ensures r == SeedResult(SeedWrite([], SeedBatch(catalog), newIds, fault), newIds)
    {
      pokemonService.DeleteAllPokemons();
      var pokemonsToInsert: seq<CreatePokemonDto> := [];
      for i := 0 to |catalog|
        invariant pokemonsToInsert == SeedBatch(catalog[..i])
        modifies {}
      {
        var no := SegmentNumber(catalog[i].url);
        var createPokemonDto := CreatePokemonDto(ToLower(catalog[i].name), no);
        assert catalog[..i + 1] == catalog[..i] + [catalog[i]];
        SeedBatchSnoc(catalog[..i], catalog[i]);
        pokemonsToInsert := pokemonsToInsert + [createPokemonDto];
      }
      assert catalog[..|catalog|] == catalog;
      assert pokemonsToInsert == SeedBatch(catalog) && pokemonService.records == [];
      r := pokemonService.FillDbPokemonsWithSeed(pokemonsToInsert, newIds, fault);
    }
  }
}
