/** The document collection behind the service, as an in-memory sequence of
    documents in insertion order. Each document has a store-assigned id, a
    catalogue number and a name; the collection keeps all three unique and
    rejects a write that would break that with a duplicate-key error. */
module Mongo {
  import opened Outcomes
  import opened Js
  import opened Dtos

  /** The server's error code for a unique-index violation. */
  const DuplicateKeyCode: int := 11000

  predicate IsHexDigit(c: char) {
    '0' <= c <= '9' || 'a' <= c <= 'f' || 'A' <= c <= 'F'
  }

  /** The syntactic test for an ObjectId: 24 hexadecimal digits, either case. */
  predicate IsValidObjectId(s: string) {
    |s| == 24 && forall i :: 0 <= i < |s| ==> IsHexDigit(s[i])
  }

  /** An ObjectId in the form the store writes it: 24 lower-case hexadecimal digits. */
  predicate IsCanonicalObjectId(s: string) {
    |s| == 24 && forall i :: 0 <= i < |s| ==> '0' <= s[i] <= '9' || 'a' <= s[i] <= 'f'
  }

  type ObjectId = s: string | IsCanonicalObjectId(s) witness "000000000000000000000000"

  /** The id a valid ObjectId string denotes (hexadecimal digits are case-insensitive). */
  function CastObjectId(s: string): (id: ObjectId)
    requires IsValidObjectId(s)
    ensures id == ToLower(s)
  {
    var t := ToLower(s);
    assert forall i :: 0 <= i < |t| ==> t[i] == LowerChar(s[i]);
    t
  }

  /** A stored document. */
  datatype Pokemon = Pokemon(id: ObjectId, no: int, name: string)

  /** The unique indexes: no two documents share an id, a number or a name. */
  predicate Unique(rs: seq<Pokemon>) {
    forall i, j :: 0 <= i < |rs| && 0 <= j < |rs| && i != j ==>
      rs[i].id != rs[j].id && rs[i].no != rs[j].no && rs[i].name != rs[j].name
  }

  /** A query on one field. */
  datatype Filter = ByNo(no: int) | ById(id: ObjectId) | ByName(name: string)

  predicate Satisfies(p: Pokemon, f: Filter) {
    match f
    case ByNo(n) => p.no == n
    case ById(id) => p.id == id
    case ByName(name) => p.name == name
  }

  /** `findOne(filter)`: the first document that satisfies the filter, if any. */
  function FindFirst(rs: seq<Pokemon>, f: Filter): (r: Option<Pokemon>)
    ensures r.Some? ==> r.value in rs && Satisfies(r.value, f)
    ensures r.None? <==> forall i :: 0 <= i < |rs| ==> !Satisfies(rs[i], f)
  {
    if rs == [] then None
    else if Satisfies(rs[0], f) then Some(rs[0])
    else FindFirst(rs[1..], f)
  }

  /** Under the unique indexes, a document that satisfies a filter is the one found. */
  lemma FindFirstUnique(rs: seq<Pokemon>, f: Filter, i: int)
    requires Unique(rs) && 0 <= i < |rs| && Satisfies(rs[i], f)
    ensures FindFirst(rs, f) == Some(rs[i])
  {
    var q := FindFirst(rs, f).value;
    var j :| 0 <= j < |rs| && rs[j] == q;
    assert i != j ==> rs[i].id != rs[j].id && rs[i].no != rs[j].no && rs[i].name != rs[j].name;
  }

  /** The field whose unique index a write would violate, as the error's `keyValue`. */
  datatype DupKey = DupId(id: ObjectId) | DupNo(no: int) | DupName(name: string)

  predicate HasKey(p: Pokemon, k: DupKey) {
    match k
    case DupId(id) => p.id == id
    case DupNo(n) => p.no == n
    case DupName(name) => p.name == name
  }

  /** The index entry `p` would duplicate in `rs`, checking the id, then the number,
      then the name. */
  function Conflict(rs: seq<Pokemon>, p: Pokemon): (k: Option<DupKey>)
    ensures k.None? <==>
      forall i :: 0 <= i < |rs| ==> rs[i].id != p.id && rs[i].no != p.no && rs[i].name != p.name
    ensures k.Some? ==> HasKey(p, k.value) && exists i :: 0 <= i < |rs| && HasKey(rs[i], k.value)
  {
    if FindFirst(rs, ById(p.id)).Some? then Some(DupId(p.id))
    else if FindFirst(rs, ByNo(p.no)).Some? then Some(DupNo(p.no))
    else if FindFirst(rs, ByName(p.name)).Some? then Some(DupName(p.name))
    else None
  }

  /** Appending a document keeps the indexes unique exactly when it conflicts with nothing. */
  lemma AppendUnique(rs: seq<Pokemon>, p: Pokemon)
    requires Unique(rs)
    ensures Unique(rs + [p]) <==> Conflict(rs, p).None?
  {
    var t := rs + [p];
    if Conflict(rs, p).None? {
      forall i, j | 0 <= i < |t| && 0 <= j < |t| && i != j
        ensures t[i].id != t[j].id && t[i].no != t[j].no && t[i].name != t[j].name
      {
        if i < |rs| && j < |rs| {
          assert t[i] == rs[i] && t[j] == rs[j];
        }
      }
    } else {
      var k := Conflict(rs, p).value;
      var i :| 0 <= i < |rs| && HasKey(rs[i], k);
      assert t[i] == rs[i] && t[|rs|] == p;
    }
  }

  /** A write error of a batch insert: which input failed and on which key. */
  datatype WriteError = WriteError(index: nat, key: DupKey)

  /** What a store call can throw. `ServerError` and `BulkWriteError` are the
      driver's MongoError classes; a duplicate-key `ServerError` carries the
      offending `keyValue`, while a batch insert reports its duplicates in
      `writeErrors`. `OtherError` is anything that is not a MongoError, such as
      the ODM's refusal to store NaN as a number. */
  datatype StoreError =
    | ServerError(code: int, keyValue: Option<DupKey>)
    | BulkWriteError(code: int, keyValue: Option<DupKey>, writeErrors: seq<WriteError>)
    | OtherError

  /** The document a creation request becomes under the id the store assigns. */
  function NewDocument(id: ObjectId, dto: CreatePokemonDto): Pokemon
    requires dto.no.Finite?
  {
    Pokemon(id, dto.no.value, dto.name)
  }

  /** `create(dto)`: append the new document, or fail. */
  function Insert(rs: seq<Pokemon>, id: ObjectId, dto: CreatePokemonDto): (r: Result<seq<Pokemon>, StoreError>)
    requires Unique(rs)
    ensures r.Ok? <==> dto.no.Finite? && Unique(rs + [NewDocument(id, dto)])
    ensures r.Ok? ==> r.value == rs + [NewDocument(id, dto)] && Unique(r.value)
    ensures r.Err? ==>
      if dto.no.NaN? then r.error == OtherError
      else r.error.ServerError? && r.error.code == DuplicateKeyCode && r.error.keyValue.Some?
  {
    if dto.no.NaN? then Err(OtherError)
    else
      var p := NewDocument(id, dto);
      AppendUnique(rs, p);
      match Conflict(rs, p)
      case Some(k) => Err(ServerError(DuplicateKeyCode, Some(k)))
      case None => Ok(rs + [p])
  }

  /** A duplicate number or name is rejected with the duplicate-key code. */
  lemma InsertDuplicate(rs: seq<Pokemon>, id: ObjectId, dto: CreatePokemonDto, i: int)
    requires Unique(rs) && dto.no.Finite? && 0 <= i < |rs|
    requires rs[i].no == dto.no.value || rs[i].name == dto.name
    ensures Insert(rs, id, dto).Err?
    ensures Insert(rs, id, dto).error == ServerError(DuplicateKeyCode, Conflict(rs, NewDocument(id, dto)))
  {
    assert Conflict(rs, NewDocument(id, dto)).Some?;
  }

  /** `rs` with every document of the given id removed, order kept. */
  function Without(rs: seq<Pokemon>, id: ObjectId): (r: seq<Pokemon>)
    ensures |r| <= |rs|
  {
    if rs == [] then []
    else if rs[0].id == id then Without(rs[1..], id)
    else [rs[0]] + Without(rs[1..], id)
  }

  /** What survives a removal: exactly the documents with another id. */
  lemma {:induction false} WithoutMembers(rs: seq<Pokemon>, id: ObjectId)
    ensures forall p :: p in Without(rs, id) <==> p in rs && p.id != id
  {
    if rs != [] {
      WithoutMembers(rs[1..], id);
      assert rs == [rs[0]] + rs[1..];
    }
  }

  /** Removing an id nobody has changes nothing. */
  lemma {:induction false} WithoutAbsent(rs: seq<Pokemon>, id: ObjectId)
    requires forall k :: 0 <= k < |rs| ==> rs[k].id != id
    ensures Without(rs, id) == rs
  {
    if rs != [] {
      WithoutAbsent(rs[1..], id);
      assert rs == [rs[0]] + rs[1..];
    }
  }

  /** When only `rs[i]` has the id, removing the id removes exactly that document. */
  lemma {:induction false} WithoutOnly(rs: seq<Pokemon>, id: ObjectId, i: int)
    requires 0 <= i < |rs| && rs[i].id == id
    requires forall k :: 0 <= k < |rs| && k != i ==> rs[k].id != id
    ensures Without(rs, id) == rs[..i] + rs[i + 1..]
  {
    var tail := rs[1..];
    if i == 0 {
      assert Without(rs, id) == tail by {
        WithoutAbsent(tail, id);
      }
      assert rs[..i] + rs[i + 1..] == tail;
    } else {
      var rest := tail[..i - 1] + tail[i..];
      assert Without(rs, id) == [rs[0]] + rest by {
        assert rs[0].id != id;
        WithoutOnly(tail, id, i - 1);
      }
      assert rs[..i] + rs[i + 1..] == [rs[0]] + rest by {
        assert rs[..i] == [rs[0]] + tail[..i - 1];
        assert rs[i + 1..] == tail[i..];
      }
    }
  }

  /** Under unique ids, removing the id of `rs[i]` removes exactly that document. */
  lemma WithoutOne(rs: seq<Pokemon>, i: int)
    requires Unique(rs) && 0 <= i < |rs|
    ensures Without(rs, rs[i].id) == rs[..i] + rs[i + 1..]
  {
    WithoutOnly(rs, rs[i].id, i);
  }

  /** Dropping the document at one index keeps the indexes unique. */
  lemma UniqueRemoveAt(rs: seq<Pokemon>, i: int)
    requires Unique(rs) && 0 <= i < |rs|
    ensures Unique(rs[..i] + rs[i + 1..])
  {
    var t := rs[..i] + rs[i + 1..];
    forall a, b | 0 <= a < |t| && 0 <= b < |t| && a != b
      ensures t[a].id != t[b].id && t[a].no != t[b].no && t[a].name != t[b].name
    {
      var a' := if a < i then a else a + 1;
      var b' := if b < i then b else b + 1;
      assert t[a] == rs[a'] && t[b] == rs[b'];
    }
  }

  /** Removing one document keeps the indexes unique. */
  lemma WithoutUnique(rs: seq<Pokemon>, i: int)
    requires Unique(rs) && 0 <= i < |rs|
    ensures Unique(Without(rs, rs[i].id))
  {
    WithoutOne(rs, i);
    UniqueRemoveAt(rs, i);
  }

  /** A document with the fields of a patch set; the patch's number is not NaN. */
  function Apply(p: Pokemon, patch: UpdatePokemonDto): (q: Pokemon)
    requires patch.no != Some(NaN)
    ensures q.id == p.id
  {
    Pokemon(p.id,
            if patch.no.Some? then patch.no.value.value else p.no,
            patch.name.GetOr(p.name))
  }

  /** `rs` with the document of id `q.id` replaced by `q`. */
  function Replace(rs: seq<Pokemon>, q: Pokemon): seq<Pokemon> {
    seq(|rs|, i requires 0 <= i < |rs| => if rs[i].id == q.id then q else rs[i])
  }

  /** `updateOne({_id: id}, {$set: patch})`: a number that is NaN fails the ODM's
      cast; an id nobody has matches nothing and changes nothing; otherwise the
      patched document replaces the old one unless it duplicates another's key. */
  function UpdateById(rs: seq<Pokemon>, id: ObjectId, patch: UpdatePokemonDto): (r: Result<seq<Pokemon>, StoreError>)
    ensures patch.no == Some(NaN) ==> r == Err(OtherError)
    ensures patch.no != Some(NaN) && (forall k :: 0 <= k < |rs| ==> rs[k].id != id) ==> r == Ok(rs)
    ensures r.Ok? ==> |r.value| == |rs|
  {
    if patch.no == Some(NaN) then Err(OtherError)
    else
      match FindFirst(rs, ById(id))
      case None => Ok(rs)
      case Some(p) =>
        var q := Apply(p, patch);
        match Conflict(Without(rs, id), q)
        case Some(k) => Err(ServerError(DuplicateKeyCode, Some(k)))
        case None => Ok(Replace(rs, q))
  }

  /** A successful update of document `rs[i]` leaves every other document as it
      was, puts the patched document in its place and keeps the indexes unique. */
  lemma UpdateByIdReplaces(rs: seq<Pokemon>, i: int, patch: UpdatePokemonDto)
    requires Unique(rs) && 0 <= i < |rs|
    requires UpdateById(rs, rs[i].id, patch).Ok?
    ensures patch.no != Some(NaN)
    ensures var after := UpdateById(rs, rs[i].id, patch).value;
      && Unique(after) && |after| == |rs|
      && after[i] == Apply(rs[i], patch)
      && forall k :: 0 <= k < |rs| && k != i ==> after[k] == rs[k]
  {
    var id := rs[i].id;
    FindFirstUnique(rs, ById(id), i);
    var q := Apply(rs[i], patch);
    var others := Without(rs, id);
    WithoutMembers(rs, id);
    assert Conflict(others, q).None?;
    var t := Replace(rs, q);
    assert UpdateById(rs, id, patch) == Ok(t);
    forall k | 0 <= k < |rs| && k != i ensures t[k] == rs[k] {
      assert rs[k].id != id;
    }
    forall a, b | 0 <= a < |t| && 0 <= b < |t| && a != b
      ensures t[a].id != t[b].id && t[a].no != t[b].no && t[a].name != t[b].name
    {
      if a == i {
        assert rs[b].id != id;
        assert rs[b] in others;
      } else if b == i {
        assert rs[a].id != id;
        assert rs[a] in others;
      }
    }
  }

  /** A failed update is the cast error of a NaN number, or a duplicate-key error naming the key. */
  lemma UpdateByIdFails(rs: seq<Pokemon>, id: ObjectId, patch: UpdatePokemonDto)
    requires UpdateById(rs, id, patch).Err?
    ensures var e := UpdateById(rs, id, patch).error;
      if patch.no == Some(NaN) then e == OtherError
      else e.ServerError? && e.code == DuplicateKeyCode && e.keyValue.Some?
  {
  }

  predicate AllFinite(dtos: seq<CreatePokemonDto>) {
    forall i :: 0 <= i < |dtos| ==> dtos[i].no.Finite?
  }

  /** The documents a batch becomes under the ids the store assigns. */
  function Documents(dtos: seq<CreatePokemonDto>, ids: seq<ObjectId>): seq<Pokemon>
    requires |ids| == |dtos| && AllFinite(dtos)
  {
    seq(|dtos|, i requires 0 <= i < |dtos| => NewDocument(ids[i], dtos[i]))
  }

  /** What a batch insert leaves behind: the collection it wrote to, and the error
      it threw, if any. */
  datatype BatchOutcome = BatchOutcome(stored: seq<Pokemon>, error: Option<StoreError>)

  /** `insertMany(dtos)`: every input is cast first, so a NaN number anywhere fails
      the whole batch with a non-Mongo error before anything is written; otherwise
      the documents go in order, and the first that duplicates a key stops the batch
      with a bulk-write error whose only write error names its index and key. The
      documents before it stay written. */
  function InsertMany(rs: seq<Pokemon>, dtos: seq<CreatePokemonDto>, ids: seq<ObjectId>): BatchOutcome
    requires |ids| == |dtos|
  {
    if !AllFinite(dtos) then BatchOutcome(rs, Some(OtherError)) else InsertInOrder(rs, dtos, ids, 0)
  }

  function InsertInOrder(rs: seq<Pokemon>, dtos: seq<CreatePokemonDto>, ids: seq<ObjectId>, index: nat): (r: BatchOutcome)
    requires |ids| == |dtos| && AllFinite(dtos)
    ensures |rs| <= |r.stored| <= |rs| + |dtos|
    ensures r.stored[..|rs|] == rs
    decreases |dtos|
  {
    if dtos == [] then BatchOutcome(rs, None)
    else
      var p := NewDocument(ids[0], dtos[0]);
      match Conflict(rs, p)
      case Some(k) => BatchOutcome(rs, Some(BulkWriteError(DuplicateKeyCode, None, [WriteError(index, k)])))
      case None => InsertInOrder(rs + [p], dtos[1..], ids[1..], index + 1)
  }

  lemma UniquePrefix(a: seq<Pokemon>, b: seq<Pokemon>)
    requires Unique(a + b)
    ensures Unique(a)
  {
    forall i, j | 0 <= i < |a| && 0 <= j < |a| && i != j
      ensures a[i].id != a[j].id && a[i].no != a[j].no && a[i].name != a[j].name
    {
      assert (a + b)[i] == a[i] && (a + b)[j] == a[j];
    }
  }

  /** The documents of a batch a prefix at a time: the first is the head's, the rest the tail's. */
  lemma DocumentsCons(dtos: seq<CreatePokemonDto>, ids: seq<ObjectId>, k: nat)
    requires |ids| == |dtos| && AllFinite(dtos) && dtos != [] && k < |dtos|
    ensures Documents(dtos, ids)[..k + 1] == [NewDocument(ids[0], dtos[0])] + Documents(dtos[1..], ids[1..])[..k]
    ensures Documents(dtos, ids)[k] == NewDocument(ids[k], dtos[k])
  {
    var all := Documents(dtos, ids);
    var rest := Documents(dtos[1..], ids[1..]);
    assert all == [NewDocument(ids[0], dtos[0])] + rest;
  }

  /** `r` stopped at input `index + k`: the `k` documents before it are written, and
      its only write error names that input and the key it duplicates. */
  predicate StoppedAt(rs: seq<Pokemon>, dtos: seq<CreatePokemonDto>, ids: seq<ObjectId>, index: nat, r: BatchOutcome)
    requires |ids| == |dtos| && AllFinite(dtos)
  {
    && r.error.Some? && r.error.value.BulkWriteError? && r.error.value.code == DuplicateKeyCode
    && r.error.value.keyValue.None? && |r.error.value.writeErrors| == 1
    && var k := r.error.value.writeErrors[0].index - index;
       && 0 <= k < |dtos|
       && r.stored == rs + Documents(dtos, ids)[..k]
       && Conflict(r.stored, NewDocument(ids[k], dtos[k])) == Some(r.error.value.writeErrors[0].key)
  }

  /** The ordered insert, from input `index` on: it goes through exactly when every
      key stays unique, then holds the whole batch, and otherwise stopped at one
      input; either way the store stays unique. */
  lemma InsertInOrderSpec(rs: seq<Pokemon>, dtos: seq<CreatePokemonDto>, ids: seq<ObjectId>, index: nat)
    requires |ids| == |dtos| && AllFinite(dtos) && Unique(rs)
    ensures var r := InsertInOrder(rs, dtos, ids, index);
      && Unique(r.stored)
      && (r.error.None? <==> Unique(rs + Documents(dtos, ids)))
      && (r.error.None? ==> r.stored == rs + Documents(dtos, ids))
      && (r.error.Some? ==> StoppedAt(rs, dtos, ids, index, r))
  {
    InsertInOrderUnique(rs, dtos, ids, index);
    InsertInOrderDone(rs, dtos, ids, index);
    InsertInOrderStops(rs, dtos, ids, index);
  }

  lemma {:induction false} InsertInOrderUnique(rs: seq<Pokemon>, dtos: seq<CreatePokemonDto>, ids: seq<ObjectId>, index: nat)
    requires |ids| == |dtos| && AllFinite(dtos) && Unique(rs)
    decreases |dtos|
    ensures Unique(InsertInOrder(rs, dtos, ids, index).stored)
  {
    if dtos != [] {
      var p := NewDocument(ids[0], dtos[0]);
      AppendUnique(rs, p);
      if Conflict(rs, p).None? {
        InsertInOrderUnique(rs + [p], dtos[1..], ids[1..], index + 1);
      }
    }
  }

  lemma {:induction false} InsertInOrderDone(rs: seq<Pokemon>, dtos: seq<CreatePokemonDto>, ids: seq<ObjectId>, index: nat)
    requires |ids| == |dtos| && AllFinite(dtos) && Unique(rs)
    decreases |dtos|
    ensures var r := InsertInOrder(rs, dtos, ids, index);
      && (r.error.None? <==> Unique(rs + Documents(dtos, ids)))
      && (r.error.None? ==> r.stored == rs + Documents(dtos, ids))
  {
    if dtos == [] {
      assert rs + Documents(dtos, ids) == rs;
    } else {
      var p := NewDocument(ids[0], dtos[0]);
      var rest := Documents(dtos[1..], ids[1..]);
      assert Documents(dtos, ids) == [p] + rest;
      assert rs + Documents(dtos, ids) == (rs + [p]) + rest;
      AppendUnique(rs, p);
      if Conflict(rs, p).None? {
        InsertInOrderDone(rs + [p], dtos[1..], ids[1..], index + 1);
      } else if Unique(rs + Documents(dtos, ids)) {
        UniquePrefix(rs + [p], rest);
      }
    }
  }

  lemma {:induction false} InsertInOrderStops(rs: seq<Pokemon>, dtos: seq<CreatePokemonDto>, ids: seq<ObjectId>, index: nat)
    requires |ids| == |dtos| && AllFinite(dtos)
    decreases |dtos|
    ensures var r := InsertInOrder(rs, dtos, ids, index);
      r.error.Some? ==> StoppedAt(rs, dtos, ids, index, r)
  {
    if dtos != [] {
      var p := NewDocument(ids[0], dtos[0]);
      if Conflict(rs, p).None? {
        InsertInOrderStops(rs + [p], dtos[1..], ids[1..], index + 1);
        var r := InsertInOrder(rs + [p], dtos[1..], ids[1..], index + 1);
        if r.error.Some? {
          InsertInOrderStepStopped(rs, dtos, ids, index, r);
        }
      } else {
        assert rs + Documents(dtos, ids)[..0] == rs;
        assert Documents(dtos, ids)[0] == p;
      }
    }
  }

  /** A stop in the tail is a stop of the whole batch, one input further on. */
  lemma InsertInOrderStepStopped(rs: seq<Pokemon>, dtos: seq<CreatePokemonDto>, ids: seq<ObjectId>, index: nat, r: BatchOutcome)
    requires |ids| == |dtos| && AllFinite(dtos) && dtos != []
    requires StoppedAt(rs + [NewDocument(ids[0], dtos[0])], dtos[1..], ids[1..], index + 1, r)
    ensures StoppedAt(rs, dtos, ids, index, r)
  {
    var p := NewDocument(ids[0], dtos[0]);
    var rest := Documents(dtos[1..], ids[1..]);
    var k := r.error.value.writeErrors[0].index - (index + 1);
    assert r.stored == (rs + [p]) + rest[..k];
    assert rs + Documents(dtos, ids)[..k + 1] == (rs + [p]) + rest[..k] by {
      DocumentsCons(dtos, ids, k + 1);
    }
    assert NewDocument(ids[k + 1], dtos[k + 1]) == NewDocument(ids[1..][k], dtos[1..][k]);
  }

  /** The batch insert goes through exactly when no number is NaN and the batch,
      together with what is stored, keeps every key unique; it then appends the batch
      in order. A NaN fails it before anything is written; a duplicate stops it at
      the failing input, with the inputs before it written. */
  lemma InsertManySpec(rs: seq<Pokemon>, dtos: seq<CreatePokemonDto>, ids: seq<ObjectId>)
    requires |ids| == |dtos| && Unique(rs)
    ensures var r := InsertMany(rs, dtos, ids);
      && Unique(r.stored)
      && (r.error.None? <==> AllFinite(dtos) && Unique(rs + Documents(dtos, ids)))
      && (r.error.None? ==> r.stored == rs + Documents(dtos, ids))
      && (r.error.Some? && !AllFinite(dtos) ==> r.error.value == OtherError && r.stored == rs)
      && (r.error.Some? && AllFinite(dtos) ==>
            && r.error.value.BulkWriteError? && r.error.value.code == DuplicateKeyCode
            && r.error.value.keyValue.None? && |r.error.value.writeErrors| == 1
            && var k := r.error.value.writeErrors[0].index;
               && k < |dtos|
               && r.stored == rs + Documents(dtos, ids)[..k]
               && Conflict(r.stored, NewDocument(ids[k], dtos[k])) == Some(r.error.value.writeErrors[0].key))
  {
    if AllFinite(dtos) {
      InsertInOrderSpec(rs, dtos, ids, 0);
    }
  }

  /** A batch holding two requests with the same name cannot go in whole. */
  lemma InsertManyDuplicateName(rs: seq<Pokemon>, dtos: seq<CreatePokemonDto>, ids: seq<ObjectId>, i: int, j: int)
    requires Unique(rs) && |ids| == |dtos|
    requires 0 <= i < |dtos| && 0 <= j < |dtos| && i != j && dtos[i].name == dtos[j].name
    ensures InsertMany(rs, dtos, ids).error.Some?
  {
    if AllFinite(dtos) {
      var all := rs + Documents(dtos, ids);
      assert all[|rs| + i].name == all[|rs| + j].name;
      InsertManySpec(rs, dtos, ids);
    }
  }

  predicate SortedByNo(s: seq<Pokemon>) {
    forall i, j :: 0 <= i < j < |s| ==> s[i].no <= s[j].no
  }

  /** Putting `p` in front of a sorted sequence whose numbers are all at least its own. */
  lemma ConsSorted(p: Pokemon, t: seq<Pokemon>)
    requires SortedByNo(t)
    requires forall k :: 0 <= k < |t| ==> p.no <= t[k].no
    ensures SortedByNo([p] + t)
  {
    var r := [p] + t;
    forall i, j | 0 <= i < j < |r| ensures r[i].no <= r[j].no {
      assert r[j] == t[j - 1];
      if i > 0 {
        assert r[i] == t[i - 1];
      }
    }
  }

  function InsertByNo(p: Pokemon, s: seq<Pokemon>): (r: seq<Pokemon>)
    requires SortedByNo(s)
    ensures SortedByNo(r)
    ensures multiset(r) == multiset(s) + multiset{p}
    ensures |r| == |s| + 1
  {
    if s == [] || p.no <= s[0].no then
      ConsSorted(p, s);
      [p] + s
    else
      var t := InsertByNo(p, s[1..]);
      assert s == [s[0]] + s[1..];
      InsertByNoHead(p, s, t);
      [s[0]] + t
  }

  lemma InsertByNoHead(p: Pokemon, s: seq<Pokemon>, t: seq<Pokemon>)
    requires SortedByNo(s) && s != [] && s[0].no < p.no
    requires SortedByNo(t) && multiset(t) == multiset(s[1..]) + multiset{p}
    ensures SortedByNo([s[0]] + t)
  {
    forall k | 0 <= k < |t| ensures s[0].no <= t[k].no {
      assert t[k] in multiset(t);
      if t[k] != p {
        assert t[k] in multiset(s[1..]);
        var m :| 0 <= m < |s[1..]| && s[1..][m] == t[k];
        assert s[m + 1] == t[k];
      }
    }
    ConsSorted(s[0], t);
  }

  /** A slice of a sorted sequence is sorted. */
  lemma SortedSlice(s: seq<Pokemon>, lo: int, hi: int)
    requires SortedByNo(s) && 0 <= lo <= hi <= |s|
    ensures SortedByNo(s[lo..hi])
  {
    var t := s[lo..hi];
    forall i, j | 0 <= i < j < |t| ensures t[i].no <= t[j].no {
      assert t[i] == s[lo + i] && t[j] == s[lo + j];
    }
  }

  /** `sort({no: 1})`: the documents in ascending order of number. */
  function SortByNo(s: seq<Pokemon>): (r: seq<Pokemon>)
    ensures SortedByNo(r)
    ensures multiset(r) == multiset(s)
    ensures |r| == |s|
  {
    if s == [] then []
    else
      assert s == [s[0]] + s[1..];
      InsertByNo(s[0], SortByNo(s[1..]))
  }
}
