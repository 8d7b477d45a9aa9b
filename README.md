# nest-pokedex service core in Dafny

A model of the Pokédex back end's two services, with proofs about it.

`PokemonService` creates, lists, looks up, updates and deletes Pokémon documents in a MongoDB collection. It also inserts a seed batch and translates store errors into HTTP exceptions.

`SeedService.populateDB` does three things:
- empties the collection;
- turns every entry of the remote catalogue into a creation request, taking the name lower-cased and the number from the URL's second-to-last segment;
- hands the whole list to the batch insert.

The collection is modelled as an in-memory sequence of documents `{id, no, name}` (module `Mongo`). It has unique indexes on all three fields. A write that would break one is rejected with the duplicate-key code 11000.

Modules:

- `Outcomes`: `Option` and `Result`.
- `Js`: the JavaScript built-ins the code relies on:
  - `trim`, `toLowerCase`, `split` and `join`;
  - the unary `+` on strings (`ToNumber`, which gives a `Number` that is an integer or NaN);
  - `String(n)`.
- `Dtos`: the creation, patch and pagination requests.
- `Mongo`: the collection and the driver calls the service makes:
  - `findOne`, `create` and `updateOne`;
  - `findByIdAndDelete`, modelled as `Without`;
  - `insertMany` and `sort`;
  - the driver's error values.
- `Pokemons`:
  - `handleException`;
  - the three lookup strategies of `findOne` and their ordered resolution;
  - the patch-name normalisation and the shallow merge `update` returns;
  - the class `PokemonService`, whose `records` field is the collection every method reads and rewrites.
- `Seed`:
  - the catalogue-entry transform and the batch the loop builds;
  - the class `SeedService`, whose `PopulateDb` runs the same loop as the source and passes its list to `FillDbPokemonsWithSeed`.

The following are parameters of the model:
- the ids the store assigns (`newId`, `newIds`);
- a failure of a store call (`fault`);
- `defaultLimit`;
- the fetched catalogue.

Two consequences of the code worth knowing:

- `create` lower-cases the name but does not trim it, so a name stored with surrounding white space is never found by name (`PaddedNameNeverMatched`).
- The `{success: false}` return after `handleException` in the batch insert is unreachable, because `handleException` always throws (`FillDbOutcome`).

## Model

| member | source | states |
|---|---|---|
| Js.Trim | src/pokemon/pokemon.service.ts:62 | the result is an infix of the string, with no white space left at either end and only white space cut from either end |
| Js.TrimUnchanged | src/pokemon/pokemon.service.ts:76 | a string with no white space at either end is its own trim |
| Js.LowerChar | src/pokemon/pokemon.service.ts:29 | an upper-case ASCII letter becomes its lower-case letter (code point plus 32), every other character is kept, and the result is never upper case |
| Js.ToLower | src/pokemon/pokemon.service.ts:29 | the length is kept and each character is lowered in place |
| Js.ToLowerIdempotent | src/pokemon/pokemon.service.ts:76 | lowering twice is lowering once |
| Js.ToLowerUnchanged | src/seed/seed.service.ts:26 | a string without upper-case letters is left as it is |
| Js.Split | src/seed/seed.service.ts:23 | `split` always gives at least one piece, and no piece holds the separator |
| Js.JoinSplit | src/seed/seed.service.ts:23 | joining the pieces of a split with the separator gives back the string |
| Js.SplitJoin | src/seed/seed.service.ts:23 | splitting a join of separator-free pieces gives back the pieces |
| Js.SplitWithoutSeparator | src/seed/seed.service.ts:23 | a string without the separator splits into itself alone |
| Js.SplitConcat | src/seed/seed.service.ts:23 | splitting around one separator splits the two sides independently |
| Js.NatToString | src/pokemon/pokemon.service.ts:51 | the printed natural number is a non-empty run of digits without a leading zero (unless it is 0) whose decimal value is the number |
| Js.ToNumber | src/pokemon/pokemon.service.ts:51 | the unary `+`: a blank string is 0, a run of decimal digits is its value, a number's trimmed form ends in a digit and a negative one starts with `-`; `ToNumberOfIntToString` and `ToNumberOfWord` state that it reads back printed integers and rejects words |
| Js.ToNumberOfIntToString | src/pokemon/pokemon.service.ts:51 | `+String(n)` is `n` for every integer |
| Js.ToNumberOfWord | src/pokemon/pokemon.service.ts:51 | a term whose trimmed form starts with a letter is NaN under `+`, so `isNaN(+term)` holds for a name |
| Mongo.CastObjectId | src/pokemon/pokemon.service.ts:56-57 | a valid ObjectId string denotes the id that is its lower-cased form |
| Mongo.FindFirst | src/pokemon/pokemon.service.ts:52 | a document found is stored and satisfies the filter; nothing is found exactly when no stored document satisfies it |
| Mongo.FindFirstUnique | src/pokemon/pokemon.service.ts:57 | under the unique indexes, the document that satisfies a filter is the one found |
| Mongo.Conflict | src/pokemon/pokemon.service.ts:32 | no conflict exactly when no stored document shares the id, the number or the name; a conflict names a key the new document has and some stored document has |
| Mongo.AppendUnique | src/pokemon/pokemon.service.ts:32 | appending keeps the indexes unique exactly when the document conflicts with nothing stored |
| Mongo.Insert | src/pokemon/pokemon.service.ts:32 | `create` succeeds exactly when the number is not NaN and the appended collection is unique, and then appends exactly the new document; otherwise it fails with a non-Mongo error for NaN or a duplicate-key server error naming the key |
| Mongo.InsertDuplicate | src/pokemon/pokemon.service.ts:32 | a request repeating a stored number or name is rejected with code 11000 and the conflicting key |
| Mongo.Without | src/pokemon/pokemon.service.ts:93 | `findByIdAndDelete` on the collection: never lengthens it; `WithoutMembers`, `WithoutOnly` and `WithoutAbsent` state exactly what survives |
| Mongo.WithoutMembers | src/pokemon/pokemon.service.ts:93 | what survives a removal by id is exactly the stored documents with another id |
| Mongo.WithoutAbsent | src/pokemon/pokemon.service.ts:93-95 | removing an id no document has changes nothing |
| Mongo.WithoutOnly | src/pokemon/pokemon.service.ts:93 | when only one document has the id, removal cuts out exactly that one, the order of the rest kept |
| Mongo.WithoutOne | src/pokemon/pokemon.service.ts:93 | under unique ids, removing a document's id removes exactly that document |
| Mongo.UniqueRemoveAt | src/pokemon/pokemon.service.ts:93 | dropping a document keeps the indexes unique |
| Mongo.WithoutUnique | src/pokemon/pokemon.service.ts:93 | removal by id keeps the indexes unique |
| Mongo.UpdateById | src/pokemon/pokemon.service.ts:80 | `updateOne`: a NaN number fails with the ODM's cast error, an id no document has matches nothing and changes nothing, and a write that goes through keeps the length; `UpdateByIdReplaces` and `UpdateByIdFails` state the rest |
| Mongo.UpdateByIdReplaces | src/pokemon/pokemon.service.ts:80 | a successful `updateOne` puts the patched document in the target's place, leaves every other document as it was, keeps the length and keeps the indexes unique |
| Mongo.UpdateByIdFails | src/pokemon/pokemon.service.ts:80-84 | an `updateOne` fails only with the cast error of a NaN number or a duplicate-key server error carrying `keyValue` |
| Mongo.UniquePrefix | src/pokemon/pokemon.service.ts:131 | a prefix of a unique collection is unique |
| Mongo.DocumentsCons | src/pokemon/pokemon.service.ts:131 | the documents of a batch are the head's document followed by the tail's, input by input |
| Mongo.InsertInOrder | src/pokemon/pokemon.service.ts:131 | the ordered insert never touches what was stored before and adds at most one document per input; `InsertInOrderSpec` states what it adds and where it stops |
| Mongo.InsertInOrderSpec | src/pokemon/pokemon.service.ts:131 | the ordered insert keeps the store unique; it goes through exactly when every key stays unique and then appends the whole batch in order; otherwise it stopped at one input with the inputs before it written and a single write error naming that input's position and the key it duplicates |
| Mongo.InsertInOrderStepStopped | src/pokemon/pokemon.service.ts:131 | a stop in the rest of the batch is a stop of the whole batch one position further on |
| Mongo.InsertManySpec | src/pokemon/pokemon.service.ts:131 | `insertMany` keeps the store unique; it succeeds exactly when no number is NaN and the stored documents plus the batch are unique, and then appends the batch in order; a NaN fails it with a non-Mongo error before anything is written; a duplicate fails it with a bulk-write error (code 11000, no `keyValue`, one write error) whose index is the failing input, with exactly the inputs before it written |
| Mongo.InsertMany | src/pokemon/pokemon.service.ts:131 | `insertMany`: a NaN number anywhere fails the batch before any write, otherwise the ordered insert; `InsertManySpec` states its outcome |
| Mongo.InsertManyDuplicateName | src/pokemon/pokemon.service.ts:131 | a batch holding two requests with the same name never goes in whole |
| Mongo.ConsSorted | src/pokemon/pokemon.service.ts:44 | a document whose number is at most every number of a sorted sequence can be put in front of it |
| Mongo.InsertByNo | src/pokemon/pokemon.service.ts:44 | inserting into a sorted sequence keeps it sorted and adds exactly the document |
| Mongo.InsertByNoHead | src/pokemon/pokemon.service.ts:44 | the head of a sorted sequence stays in front of a sorted insertion into its tail |
| Mongo.SortedSlice | src/pokemon/pokemon.service.ts:42-44 | a slice of a sorted sequence is sorted |
| Mongo.SortByNo | src/pokemon/pokemon.service.ts:44 | `sort({no: 1})` gives the same documents, as a multiset, in ascending order of number |
| Pokemons.HandleException | src/pokemon/pokemon.service.ts:106-126 | the result is a client error exactly when the error is a MongoError with code 11000 that names a key (in `keyValue`, or in the first of its write errors); the message is then the caller's, or by default the `keyValue`, falling back to the first write error; a bulk-write 11000 error with no `keyValue` and no write errors throws a TypeError; every other result is exactly the "check server logs" server error |
| Pokemons.HandleExceptionServerFault | src/pokemon/pokemon.service.ts:111-125 | an error that is not a MongoError, or a MongoError with another code, becomes the generic server error |
| Pokemons.NumericLookup | src/pokemon/pokemon.service.ts:51-52 | the number lookup applies exactly when `+term` is not NaN, and then queries that number |
| Pokemons.IdLookup | src/pokemon/pokemon.service.ts:56-57 | the id lookup applies exactly when the term is a valid ObjectId, and then queries its lower-cased form |
| Pokemons.NameLookup | src/pokemon/pokemon.service.ts:61-62 | the name lookup always applies, on the trimmed, lower-cased term; `LookupMatches` and `FirstHitOfLookupOrder` state how the three combine |
| Pokemons.FirstHit | src/pokemon/pokemon.service.ts:49-63 | nothing is found exactly when every applicable query finds nothing; what is found is what some applicable query finds |
| Pokemons.FirstHitCons | src/pokemon/pokemon.service.ts:56-61 | a later query runs only when every earlier query missed or did not apply |
| Pokemons.FirstHitOfLookupOrder | src/pokemon/pokemon.service.ts:51-63 | the strategy list is the three guarded lookups: by number when `+term` is not NaN, by id only when that missed and the term is an ObjectId, and by name only when both missed |
| Pokemons.LookupMatches | src/pokemon/pokemon.service.ts:51-63 | a document answers to a term exactly when one of the three applicable queries accepts it |
| Pokemons.Resolve | src/pokemon/pokemon.service.ts:48-70 | `findOne`'s result: a returned document is stored, and the only failure is NotFound naming the term; `ResolveNotFound`, `ResolveNumberFirst`, `ResolveIdSecond` and `ResolveNameLast` state which document is returned |
| Pokemons.ResolveSound | src/pokemon/pokemon.service.ts:69 | a document `findOne` returns is stored and answers to the term |
| Pokemons.ResolveNotFound | src/pokemon/pokemon.service.ts:65-67 | `findOne` throws NotFound, naming the term, exactly when no stored document answers to the term |
| Pokemons.ResolveNumberFirst | src/pokemon/pokemon.service.ts:51-53 | a numeric term equal to a stored number returns that document, whatever the id and name lookups would find |
| Pokemons.ResolveIdSecond | src/pokemon/pokemon.service.ts:56-58 | when no number matches, a valid ObjectId term returns the document with that id |
| Pokemons.ResolveNameLast | src/pokemon/pokemon.service.ts:61-63 | when neither the number nor the id matches, the document whose name is the trimmed, lower-cased term is returned |
| Pokemons.ResolveByPrintedNumber | src/pokemon/pokemon.service.ts:51-53 | every stored document is found by its printed number |
| Pokemons.PaddedNameNeverMatched | src/pokemon/pokemon.service.ts:62 | a name stored with leading white space (create does not trim) never equals a trimmed lookup term |
| Pokemons.NormalizeName | src/pokemon/pokemon.service.ts:75-77 | only a non-empty patch name is changed, and it becomes the old name trimmed and lower-cased, so free of upper-case letters and of white space at both ends; an absent or empty name and the number are kept |
| Pokemons.Merge | src/pokemon/pokemon.service.ts:86 | the spread keeps the document's id, and an empty patch gives the document as it is; `ApplyIsMerge` and `UpdateViewIsStored` state that it is what the store holds after the write |
| Pokemons.UpdateViewIsStored | src/pokemon/pokemon.service.ts:80-86 | after a successful write, the merged view `update` returns is exactly the document the store now holds in the target's place |
| Pokemons.ApplyIsMerge | src/pokemon/pokemon.service.ts:86 | the store's `$set` and the object spread agree on every field, patch fields winning |
| Pokemons.SeedWrite | src/pokemon/pokemon.service.ts:131 | the batch write: the call's own failure, or `insertMany`; `FillDbOutcome` states its outcome |
| Pokemons.SeedResult | src/pokemon/pokemon.service.ts:132-143 | what the batch insert returns or throws for an outcome; `FillDbOutcome` states it |
| Pokemons.FillDbOutcome | src/pokemon/pokemon.service.ts:129-145 | the batch call succeeds exactly when the store call goes through, no number is NaN and every key stays unique; it then appends the batch and reports `success: true` with one id per input; a failed call throws what `handleException` makes of the error and stores nothing; a NaN is a server error that stores nothing; a duplicate is a client error naming the failing input and key, with the inputs before it stored; the store stays unique; `{success: false}` is never returned |
| Pokemons.SortedWindow | src/pokemon/pokemon.service.ts:41-45 | a page of the sorted collection is sorted, holds only stored documents, and is the sorted collection from the offset on |
| Pokemons.SortByNoMembers | src/pokemon/pokemon.service.ts:44 | sorting neither loses nor invents documents |
| Pokemons.PageSize | src/pokemon/pokemon.service.ts:42-43 | a page holds what is left after the offset, or nothing past the end; a limit of 0 takes all of it, any other limit takes at most its absolute value, and a page shorter than what is left holds exactly that many; a non-empty page lies within the collection after the offset |
| Pokemons.PokemonService.constructor | src/pokemon/pokemon.service.ts:17-26 | the service starts on the given unique collection with the configured default limit |
| Pokemons.PokemonService.Create | src/pokemon/pokemon.service.ts:28-36 | on success the collection gains exactly the request's document with its name lower-cased (not trimmed) and its number unchanged; it succeeds exactly when the store call goes through, the number is not NaN and no key is duplicated; a duplicate is a client error naming the key, a NaN or a failed call the error `handleException` gives; on failure nothing changes; the indexes stay unique |
| Pokemons.PokemonService.FindAll | src/pokemon/pokemon.service.ts:38-46 | the page is sorted ascending by number, skips `offset` (default 0) and holds what is left up to `limit` (default `defaultLimit`; 0 means no limit), element by element equal to the sorted collection from the offset on, and holds only stored documents |
| Pokemons.PokemonService.FindOne | src/pokemon/pokemon.service.ts:48-70 | the three guarded lookups, run step by step, give exactly `Resolve`: the first strategy that finds a document wins, and NotFound when all miss |
| Pokemons.PokemonService.Update | src/pokemon/pokemon.service.ts:72-87 | an unresolved term throws `findOne`'s NotFound and writes nothing; otherwise, with the patch name normalised: a write that goes through stores the patched collection and returns the merged view; a failed write changes nothing, and it is translated with the "another pokemon exists" message when it carries `keyValue`, while any other write error is swallowed and the merged view is returned; the indexes stay unique |
| Pokemons.PokemonService.Remove | src/pokemon/pokemon.service.ts:89-99 | a string that is not an ObjectId fails the cast and changes nothing; on success the returned document had the id and was stored, and exactly the documents with that id are removed; otherwise NotFound naming the id, with nothing changed and no document having that id; the indexes stay unique |
| Pokemons.PokemonService.DeleteAllPokemons | src/pokemon/pokemon.service.ts:102-104 | the collection is empty afterwards, whatever it held |
| Pokemons.PokemonService.FillDbPokemonsWithSeed | src/pokemon/pokemon.service.ts:129-145 | the new collection is what the batch write (`SeedWrite`: the call's fault, or `insertMany`) leaves, and the result is what that outcome yields (`SeedResult`: `{success: true, insertedIds}` or the error `handleException` gives); `FillDbOutcome` states what those are; the indexes stay unique |
| Seed.SegmentNumber | src/seed/seed.service.ts:23-24 | the number of an entry's URL; `CatalogUrlNumber` and `SlashlessUrlIsNaN` state what it gives |
| Seed.EntryToDto | src/seed/seed.service.ts:25-28 | the request an entry becomes; `EntryToDtoOfCatalogEntry` states it for a well-formed entry |
| Seed.SeedBatch | src/seed/seed.service.ts:20-31 | one request per catalogue entry, in catalogue order, each built from its entry alone |
| Seed.SeedBatchSnoc | src/seed/seed.service.ts:22-31 | pushing an entry's request extends the batch of the entries before it |
| Seed.CatalogUrlNumber | src/seed/seed.service.ts:23-24 | a URL ending in `/<n>/` gives the number `n` |
| Seed.EntryToDtoOfCatalogEntry | src/seed/seed.service.ts:25-28 | a well-formed entry becomes exactly `{name: lower-cased name, no: n}` and nothing else |
| Seed.SlashlessUrlIsNaN | src/seed/seed.service.ts:23-24 | a URL without a slash has no second-to-last segment, so its number is NaN |
| Seed.SeedInsertSucceeds | src/seed/seed.service.ts:20-33 | into the emptied collection, a catalogue whose URLs all give numbers and whose ids, numbers and lower-cased names are pairwise distinct goes in whole and in order |
| Seed.SeedDuplicateNameFails | src/seed/seed.service.ts:26-33 | two entries whose names agree once lower-cased make the batch fail |
| Seed.PopulateDbSucceeds | src/seed/seed.service.ts:15-36 | seeding succeeds exactly when the store call goes through, every URL gives a number and the documents keep every key unique; it then leaves exactly the batch in catalogue order and reports its ids; the keys stay unique whatever happens |
| Seed.PopulateDbFails | src/seed/seed.service.ts:15-36 | a failed call stores nothing and throws what `handleException` makes of it; a NaN stores nothing and is a server error; a duplicate is a client error that leaves only a prefix of the batch stored |
| Seed.SeedService.constructor | src/seed/seed.service.ts:10-13 | the seed service works on the Pokemon service it is given |
| Seed.SeedService.PopulateDb | src/seed/seed.service.ts:15-36 | the loop builds exactly `SeedBatch` of the catalogue; the emptied collection then receives it in one call to the batch insert, whose result is returned unchanged; the indexes stay unique |

## Left out

- JavaScript coercions are modelled as far as the stored data needs them:
  - `+term` reads only optionally signed decimal integers after trimming, with the empty string as 0. Fractions, exponents, hexadecimal and `Infinity` are read as NaN, so such terms fall through to the id and name lookups.
  - `trim` removes only ASCII white space, and `toLowerCase` lowers only ASCII letters.
- `isValidObjectId` is modelled as the 24-hexadecimal-digit test. The ODM also accepts any 12-character string as an id. The model never treats such a string as an id: `findOne` skips the id lookup for it, and `remove` fails with the cast error where the ODM would cast it and then find the document of that id or throw NotFound.
- JavaScript numbers are doubles; `Number` is an unbounded integer. Rounding above 2^53 (`+"9007199254740993"` is 9007199254740992) and the distinct `-0` are not modelled.
- The empty term is modelled as the number 0. The ODM casts `""` as a number filter to `null`, which matches no document. A route parameter is never empty.
- `findOne` and `findAll` read without faults: a failure of a read call is not modelled. Failures of `create`, `updateOne` and `insertMany` are the `fault` parameter. A failing `findByIdAndDelete` in `remove` or `deleteMany` in `deleteAllPokemons`, which the source lets through untranslated, is not modelled: `PokemonService.Remove` and `PokemonService.DeleteAllPokemons` take no `fault`.
- `populateDB` does not await `deleteAllPokemons`, so the deletion can race with the insert. The model runs them in sequence.
- The HTTP fetch of the catalogue (`AxiosAdapter`) is network I/O. The fetched `results` are the `catalog` parameter, and a failed fetch is not modelled.
- The ids the store generates are the `newId`/`newIds` parameters, in the store's lower-case form. They are not assumed fresh: an id that clashes with a stored one, or with another in the batch, is a duplicate-key error on the id.
- The `ConfigService` lookup is the constructor's `defaultLimit` parameter. A missing configuration value (`limit(undefined)`) is not modelled.
- `console.log` calls are left out.
- Message texts are symbolic (`Message`): the `JSON.stringify` renderings and exact wording are left out.
- `create` and `update` overwrite the request's `name` in place. The model computes the normalised request as a new value.
- Documents are modelled with `id`, `no` and `name` only. The `__v` version field that `select('-__v')` hides, and the other fields of `toJSON`, are left out.
- The entity schema, with its unique indexes, is not part of this model. Uniqueness of id, number and name is the collection's invariant, and duplicates are detected in the order id, number, name.
- The seed loop computes each number with `SegmentNumber`, which is the split-and-index step of src/seed/seed.service.ts:23-24; its body is not spelled out again inside the loop.
