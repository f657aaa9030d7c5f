/**
 * The storage discipline of the MongoDB client, over an in-memory state: a
 * map from collection name to the documents of that collection in natural
 * (insertion) order, and the append-only sequence of records written to
 * `audit_logs`.
 *
 * What the driver and the server decide is a parameter: which collection
 * names the driver refuses, which documents the driver cannot encode, and
 * which documents the server rejects for reasons other than a duplicate key.
 * The unique indexes are the ones `_setup_indexes` creates.
 */
module Store {
  import opened Base
  import opened Strings
  import opened Json

  // ---------------------------------------------------------------------------
  // State

  /** A record of `audit_logs`; timestamps are `datetime.utcnow()` in microseconds. */
  datatype AuditEntry =
    | DataOperation(timestamp: int, operation: string, collection: string,
                    totalRecords: nat, insertedRecords: nat, updatedRecords: nat)
    | AccessEvent(timestamp: int, action: string, userId: string, details: string)

  datatype State = State(collections: map<string, seq<Doc>>, audit: seq<AuditEntry>)

  /** What the driver and the server decide, left uninterpreted. */
  datatype Backend = Backend(
    invalidName: string -> bool,    // the driver raises InvalidName for this collection name
    unencodable: Doc -> bool,       // the driver raises InvalidDocument encoding it (a NUL in a key, too large)
    malformed: Doc -> bool)         // the server rejects this document (not a duplicate key)

  /** `database[name]`: a collection that was never written is empty. */
  function Docs(s: State, name: string): seq<Doc> {
    if name in s.collections then s.collections[name] else []
  }

  function WithDocs(s: State, name: string, docs: seq<Doc>): (r: State)
    ensures Docs(r, name) == docs && r.audit == s.audit
    ensures forall c :: c != name ==> Docs(r, c) == Docs(s, c)
  {
    State(s.collections[name := docs], s.audit)
  }

  /** `_log_data_operation`: one record appended to `audit_logs`. */
  function LogDataOperation(s: State, now: int, name: string, operation: string,
                            total: nat, inserted: nat, updated: nat): (r: State)
    ensures r.collections == s.collections
    ensures r.audit == s.audit + [DataOperation(now, operation, name, total, inserted, updated)]
  {
    State(s.collections, s.audit + [DataOperation(now, operation, name, total, inserted, updated)])
  }

  /** `_log_audit_event`: one record appended to `audit_logs`. */
  function LogAuditEvent(s: State, now: int, action: string, userId: string, details: string): (r: State)
    ensures r.collections == s.collections
    ensures r.audit == s.audit + [AccessEvent(now, action, userId, details)]
  {
    State(s.collections, s.audit + [AccessEvent(now, action, userId, details)])
  }

  // ---------------------------------------------------------------------------
  // Queries

  const IdKey: string := "_id"

  /** `{field: v}` against a document: equality, an array holding `v`, or, for `None`, a missing field. */
  predicate MatchesValue(field: Option<Value>, v: Value) {
    if v == Null then
      field.None? || field == Some(Null) || (field.Some? && field.value.Arr? && Null in field.value.items)
    else
      field == Some(v) || (field.Some? && field.value.Arr? && v in field.value.items)
  }

  /**
   * A filter document: every one of its fields must match. A filter key is
   * a top-level field name; a dotted key is not followed into embedded
   * documents.
   */
  predicate Matches(d: Doc, query: Doc) {
    forall i :: 0 <= i < |query| ==> MatchesValue(Get(d, query[i].key), query[i].val)
  }

  /** `collection.find(query)` in natural order. */
  function Select(docs: seq<Doc>, query: Doc): (r: seq<Doc>)
    ensures |r| <= |docs|
    ensures forall d :: d in r <==> d in docs && Matches(d, query)
  {
    if docs == [] then []
    else if Matches(docs[0], query) then [docs[0]] + Select(docs[1..], query)
    else Select(docs[1..], query)
  }

  /** `{"address.city": "Paris"}` names a top-level field, so it misses the embedded city. */
  lemma DottedKeyIsLiteral()
    ensures var d := [Field("address", Obj([Field("city", Str("Paris"))]))];
      Select([d], [Field("address.city", Str("Paris"))]) == []
  {
    var d := [Field("address", Obj([Field("city", Str("Paris"))]))];
    var q := [Field("address.city", Str("Paris"))];
    assert Get(d, "address.city").None?;
    assert !Matches(d, q) by { assert !MatchesValue(Get(d, q[0].key), q[0].val); }
  }

  function Abs(x: int): nat {
    if x < 0 then -x else x
  }

  /**
   * `get_collection_data` without sorting: the matching documents in natural
   * order. `cursor.limit(n)` is applied only when `limit` is truthy, and the
   * server reads a negative limit as its magnitude: the first `|n|` matches,
   * or all of them when there are fewer. The state is not changed.
   */
  function GetCollectionData(b: Backend, s: State, name: string, query: Option<Doc>, limit: Option<int>)
    : (r: Result<seq<Doc>>)
    ensures r.Err? <==> b.invalidName(name)
    ensures r.Ok? ==> forall d :: d in r.value ==> d in Docs(s, name) && Matches(d, query.GetOr([]))
    ensures r.Ok? && (limit.None? || limit.value == 0) ==> r.value == Select(Docs(s, name), query.GetOr([]))
    ensures r.Ok? && limit.Some? && limit.value != 0 ==>
      var found := Select(Docs(s, name), query.GetOr([]));
      && (|found| <= Abs(limit.value) ==> r.value == found)
      && (|found| > Abs(limit.value) ==> r.value == found[..Abs(limit.value)])
    ensures r.Ok? ==> (r.value == [] <==> Select(Docs(s, name), query.GetOr([])) == [])
  {
    if b.invalidName(name) then Err("InvalidName")
    else
      var found := Select(Docs(s, name), query.GetOr([]));
      if limit.None? || limit.value == 0 || |found| <= Abs(limit.value) then Ok(found)
      else Ok(found[..Abs(limit.value)])
  }

  /** Every document matches the empty filter. */
  lemma {:induction false} SelectAll(docs: seq<Doc>)
    ensures Select(docs, []) == docs
  {
    if docs != [] {
      SelectAll(docs[1..]);
      assert [docs[0]] + docs[1..] == docs;
    }
  }

  /** A smaller truthy limit reads a prefix of what a larger one reads. */
  lemma LimitPrefix(b: Backend, s: State, name: string, query: Option<Doc>, m: nat, n: nat)
    requires 0 < m <= n && !b.invalidName(name)
    ensures var small := GetCollectionData(b, s, name, query, Some(m)).value;
      var large := GetCollectionData(b, s, name, query, Some(n)).value;
      |small| <= |large| && small == large[..|small|]
  {
  }

  // ---------------------------------------------------------------------------
  // Unique indexes and single inserts

  /** The unique index `_setup_indexes` creates on a collection, besides the one on `_id`. */
  function UniqueKey(name: string): Option<string> {
    if name == "canvas_students" then Some("student_id")
    else if name == "moodle_users" then Some("user_id")
    else if name == "canvas_courses" || name == "moodle_courses" then Some("course_id")
    else if name == "canvas_assignments" then Some("assignment_id")
    else None
  }

  /** A unique index stores a missing field as `null`. */
  function IndexValue(d: Doc, key: string): Value {
    GetOr(d, key, Null)
  }

  /**
   * `d` and the stored `e` collide on a unique index. A stored document
   * whose `_id` the driver generated has none in the model, and a generated
   * `_id` never equals a given one.
   */
  predicate Collide(name: string, e: Doc, d: Doc) {
    || (IdKey in Keys(d) && Get(e, IdKey) == Get(d, IdKey))
    || (UniqueKey(name).Some? && IndexValue(e, UniqueKey(name).value) == IndexValue(d, UniqueKey(name).value))
  }

  predicate Clashes(name: string, docs: seq<Doc>, d: Doc) {
    exists i :: 0 <= i < |docs| && Collide(name, docs[i], d)
  }

  datatype Insertion = Added | Duplicate | Rejected

  /** A single write of `d` raises for a reason other than a duplicate key, in the driver or on the server. */
  predicate Refused(b: Backend, d: Doc) {
    b.unencodable(d) || b.malformed(d)
  }

  /** `insert_one(d)`: added, refused with `DuplicateKeyError`, or refused for another reason. */
  function TryInsert(b: Backend, name: string, docs: seq<Doc>, d: Doc): (r: Insertion)
    ensures r == Added <==> !Refused(b, d) && !Clashes(name, docs, d)
    ensures r == Duplicate <==> !Refused(b, d) && Clashes(name, docs, d)
  {
    if Refused(b, d) then Rejected else if Clashes(name, docs, d) then Duplicate else Added
  }

  // ---------------------------------------------------------------------------
  // Bulk insert with per-document fallback

  function CountTrue(bs: seq<bool>): (r: nat)
    ensures r <= |bs|
  {
    if bs == [] then 0 else (if bs[0] then 1 else 0) + CountTrue(bs[1..])
  }

  /** The documents of `data` at the positions `keep` marks, in order. */
  function Kept(data: seq<Doc>, keep: seq<bool>): (r: seq<Doc>)
    requires |keep| == |data|
    ensures |r| == CountTrue(keep)
  {
    if data == [] then [] else (if keep[0] then [data[0]] else []) + Kept(data[1..], keep[1..])
  }

  /** Outcome of `insert_many(data, ordered=False)`: the collection after it and which documents it added. */
  datatype Bulk = Bulk(docs: seq<Doc>, added: seq<bool>)

  /**
   * The server's side of `insert_many(data, ordered=False)`: every document
   * is tried in order against the collection as it grows; a refused document
   * does not stop the others.
   */
  function BulkInsert(b: Backend, name: string, docs: seq<Doc>, data: seq<Doc>): (r: Bulk)
    ensures |r.added| == |data|
    decreases |data|
  {
    if data == [] then Bulk(docs, [])
    else
      var ok := TryInsert(b, name, docs, data[0]) == Added;
      var rest := BulkInsert(b, name, if ok then docs + [data[0]] else docs, data[1..]);
      Bulk(rest.docs, [ok] + rest.added)
  }

  lemma KeptCons(data: seq<Doc>, ok: bool, rest: seq<bool>)
    requires |data| > 0 && |rest| == |data| - 1
    ensures Kept(data, [ok] + rest) == (if ok then [data[0]] else []) + Kept(data[1..], rest)
  {
    assert ([ok] + rest)[1..] == rest;
  }

  /** The bulk call appends exactly the documents it reports as added, in order. */
  lemma {:induction false} BulkAppendsAdded(b: Backend, name: string, docs: seq<Doc>, data: seq<Doc>)
    ensures BulkInsert(b, name, docs, data).docs == docs + Kept(data, BulkInsert(b, name, docs, data).added)
    decreases |data|
  {
    if data != [] {
      var ok := TryInsert(b, name, docs, data[0]) == Added;
      var next := if ok then docs + [data[0]] else docs;
      var rest := BulkInsert(b, name, next, data[1..]);
      assert BulkInsert(b, name, docs, data) == Bulk(rest.docs, [ok] + rest.added);
      BulkAppendsAdded(b, name, next, data[1..]);
      BulkStep(docs, data, ok, next, rest);
    }
  }

  /** One step of `BulkAppendsAdded`: prepending the first outcome to the rest. */
  lemma BulkStep(docs: seq<Doc>, data: seq<Doc>, ok: bool, next: seq<Doc>, rest: Bulk)
    requires |data| > 0 && |rest.added| == |data| - 1
    requires next == if ok then docs + [data[0]] else docs
    requires rest.docs == next + Kept(data[1..], rest.added)
    ensures rest.docs == docs + Kept(data, [ok] + rest.added)
  {
    KeptCons(data, ok, rest.added);
    var tail := Kept(data[1..], rest.added);
    if ok {
      assert next + tail == docs + ([data[0]] + tail);
    } else {
      assert [] + tail == tail;
    }
  }

  predicate AllTrue(bs: seq<bool>) {
    forall i :: 0 <= i < |bs| ==> bs[i]
  }

  /** The driver can encode every document of `data`. */
  predicate Encodable(b: Backend, data: seq<Doc>) {
    forall i :: 0 <= i < |data| ==> !b.unencodable(data[i])
  }

  function NoneAdded(n: nat): (r: seq<bool>)
    ensures |r| == n && CountTrue(r) == 0
    ensures forall i :: 0 <= i < n ==> !r[i]
  {
    if n == 0 then [] else [false] + NoneAdded(n - 1)
  }

  /**
   * `insert_many(data, ordered=False)`: the driver encodes the documents
   * before it sends them, so one it cannot encode raises `InvalidDocument`
   * with nothing stored; otherwise the server tries each document.
   */
  function InsertMany(b: Backend, name: string, docs: seq<Doc>, data: seq<Doc>): (r: Bulk)
    ensures |r.added| == |data|
    ensures r.docs == docs + Kept(data, r.added)
    ensures !Encodable(b, data) ==> r.docs == docs && CountTrue(r.added) == 0
    ensures !Encodable(b, data) ==> forall i :: 0 <= i < |data| ==> !r.added[i]
    ensures Encodable(b, data) ==> r == BulkInsert(b, name, docs, data)
  {
    if Encodable(b, data) then
      BulkAppendsAdded(b, name, docs, data);
      BulkInsert(b, name, docs, data)
    else
      var none := NoneAdded(|data|);
      assert |Kept(data, none)| == 0;
      assert docs + Kept(data, none) == docs;
      Bulk(docs, none)
  }

  lemma {:induction false} KeptAll(data: seq<Doc>, keep: seq<bool>)
    requires |keep| == |data| && AllTrue(keep)
    ensures Kept(data, keep) == data && CountTrue(keep) == |data|
  {
    if data != [] {
      KeptAll(data[1..], keep[1..]);
    }
  }

  /**
   * The collection and the counters after a pass over `data`; `silent` counts
   * the documents the pass stored that no counter reports.
   */
  datatype Pass = Pass(docs: seq<Doc>, inserted: nat, updated: nat, failed: nat, silent: nat)

  /**
   * The per-document loop after a failed bulk insert. A document the bulk
   * call added carries the `_id` the driver gave it, so inserting it again
   * raises `DuplicateKeyError` and it is skipped; the others are retried.
   */
  function Fallback(b: Backend, name: string, docs: seq<Doc>, data: seq<Doc>, added: seq<bool>): (r: Pass)
    requires |added| == |data|
    ensures r.updated == 0 && r.silent == 0
    ensures r.inserted + r.failed <= |data| - CountTrue(added)
    ensures |r.docs| == |docs| + r.inserted
    ensures r.docs[..|docs|] == docs
    decreases |data|
  {
    if data == [] then Pass(docs, 0, 0, 0, 0)
    else if added[0] then Fallback(b, name, docs, data[1..], added[1..])
    else match TryInsert(b, name, docs, data[0])
      case Added =>
        var p := Fallback(b, name, docs + [data[0]], data[1..], added[1..]);
        assert p.docs[..|docs|] == (docs + [data[0]])[..|docs|] by {
          assert p.docs[..|docs|] == p.docs[..|docs| + 1][..|docs|];
        }
        Pass(p.docs, p.inserted + 1, 0, p.failed, 0)
      case Duplicate => Fallback(b, name, docs, data[1..], added[1..])
      case Rejected =>
        var p := Fallback(b, name, docs, data[1..], added[1..]);
        Pass(p.docs, p.inserted, 0, p.failed + 1, 0)
  }

  /**
   * The non-upsert branch of `store_data`, as the source counts: when the bulk
   * call fails, the documents it did store are skipped by the fallback and
   * counted nowhere. When it failed in the driver, it stored nothing, and the
   * fallback counts every document it stores.
   */
  function InsertAll(b: Backend, name: string, docs: seq<Doc>, data: seq<Doc>): (r: Pass)
    ensures r.updated == 0
    ensures r.inserted + r.failed + r.silent <= |data|
    ensures |r.docs| == |docs| + r.inserted + r.silent
    ensures r.docs[..|docs|] == docs
    ensures AllTrue(InsertMany(b, name, docs, data).added) ==>
      r == Pass(docs + data, |data|, 0, 0, 0)
    ensures !AllTrue(InsertMany(b, name, docs, data).added) ==>
      r.silent == CountTrue(InsertMany(b, name, docs, data).added)
    ensures !Encodable(b, data) ==> r.silent == 0 && |r.docs| == |docs| + r.inserted
  {
    var bulk := InsertMany(b, name, docs, data);
    if AllTrue(bulk.added) then
      KeptAll(data, bulk.added);
      Pass(bulk.docs, |data|, 0, 0, 0)
    else
      var p := Fallback(b, name, bulk.docs, data, bulk.added);
      assert p.docs[..|docs|] == p.docs[..|bulk.docs|][..|docs|];
      Pass(p.docs, p.inserted, 0, p.failed, CountTrue(bulk.added))
  }

  // ---------------------------------------------------------------------------
  // Upsert

  /** The documents the filter `{key: v}` selects. */
  function Selects(key: string, v: Value): Doc -> bool {
    e => MatchesValue(Get(e, key), v)
  }

  /** The first stored document `{key: v}` selects, the one `replace_one` replaces. */
  function FirstMatch(docs: seq<Doc>, key: string, v: Value): (r: Option<nat>)
    ensures r.Some? ==> r.value < |docs| && MatchesValue(Get(docs[r.value], key), v)
    ensures r.Some? ==> forall i :: 0 <= i < r.value ==> !MatchesValue(Get(docs[i], key), v)
    ensures r.None? ==> forall i :: 0 <= i < |docs| ==> !MatchesValue(Get(docs[i], key), v)
  {
    FirstWhere(docs, Selects(key, v), 0)
  }

  /** The first position at or after `n` whose element satisfies `p`. */
  function FirstWhere<T>(xs: seq<T>, p: T -> bool, n: nat): (r: Option<nat>)
    requires n <= |xs|
    ensures r.Some? ==> n <= r.value < |xs| && p(xs[r.value])
    ensures r.Some? ==> forall i :: n <= i < r.value ==> !p(xs[i])
    ensures r.None? ==> forall i :: n <= i < |xs| ==> !p(xs[i])
    decreases |xs| - n
  {
    if n == |xs| then None
    else if p(xs[n]) then Some(n)
    else FirstWhere(xs, p, n + 1)
  }

  /** The stored form of replacing `e` by `d`: the `_id` of `e` survives the replacement. */
  function Replacement(e: Doc, d: Doc): Doc {
    if IdKey in Keys(e) && IdKey !in Keys(d) then [Field(IdKey, Get(e, IdKey).value)] + d else d
  }

  /** `d` collides with a stored document other than the one at `skip`. */
  predicate ClashesExcept(name: string, docs: seq<Doc>, skip: nat, d: Doc) {
    exists i :: 0 <= i < |docs| && i != skip && Collide(name, docs[i], d)
  }

  /**
   * The outcome of one upsert step. `counted` is false for an insert that
   * `if result.upserted_id:` does not count, because the stored `_id` is falsy.
   */
  datatype Upsert = UpInserted(docs: seq<Doc>, counted: bool) | UpUpdated(docs: seq<Doc>) | UpUnchanged | UpFailed

  /**
   * `upserted_id` is the `_id` of the inserted document: the server generates
   * a truthy ObjectId when `d` has none, otherwise it is `d`'s own `_id`.
   */
  predicate CountedUpsert(d: Doc) {
    IdKey !in Keys(d) || Truthy(Get(d, IdKey).value)
  }

  /**
   * One iteration of the upsert loop: `insert_one` when the key is missing,
   * otherwise `replace_one({key: d[key]}, d, upsert=True)`, which replaces the
   * first match, inserts when nothing matches, leaves an identical document
   * alone (`modified_count == 0`) and raises on a changed `_id`, on a
   * duplicate key or on a rejected document. An `insert_one` is always
   * counted; an upserted insert only when its `_id` is truthy.
   */
  function UpsertOne(b: Backend, name: string, docs: seq<Doc>, key: string, d: Doc): (r: Upsert)
    ensures r.UpInserted? ==> r.docs == docs + [d]
    ensures r.UpInserted? ==> (r.counted <==> key !in Keys(d) || CountedUpsert(d))
    ensures r.UpUpdated? ==> |r.docs| == |docs|
    ensures key !in Keys(d) ==> (r.UpInserted? || r.UpFailed?)
    ensures key !in Keys(d) ==> (r.UpInserted? <==> TryInsert(b, name, docs, d) == Added)
    ensures r.UpUpdated? || r.UpUnchanged? ==> key in Keys(d)
    ensures r.UpInserted? && key in Keys(d) ==> FirstMatch(docs, key, Get(d, key).value).None?
    ensures r.UpUnchanged? ==> FirstMatch(docs, key, Get(d, key).value).Some?
    ensures r.UpUnchanged? ==>
      var i := FirstMatch(docs, key, Get(d, key).value).value;
      Replacement(docs[i], d) == docs[i]
    ensures r.UpUpdated? ==> FirstMatch(docs, key, Get(d, key).value).Some?
    ensures r.UpUpdated? ==>
      var i := FirstMatch(docs, key, Get(d, key).value).value;
      r.docs == docs[i := Replacement(docs[i], d)] && Replacement(docs[i], d) != docs[i]
  {
    if key !in Keys(d) then
      if TryInsert(b, name, docs, d) == Added then UpInserted(docs + [d], true) else UpFailed
    else match FirstMatch(docs, key, Get(d, key).value)
      case None =>
        if TryInsert(b, name, docs, d) == Added then UpInserted(docs + [d], CountedUpsert(d)) else UpFailed
      case Some(i) =>
        var e := docs[i];
        var stored := Replacement(e, d);
        if Refused(b, d) || (IdKey in Keys(d) && Get(d, IdKey) != Get(e, IdKey))
           || ClashesExcept(name, docs, i, stored) then UpFailed
        else if stored == e then UpUnchanged
        else UpUpdated(docs[i := stored])
  }

  lemma ReplacementAgrees(e: Doc, d: Doc)
    ensures forall k :: k in Keys(d) ==> Get(Replacement(e, d), k) == Get(d, k)
  {
  }

  lemma FirstMatchAppend(docs: seq<Doc>, key: string, v: Value, d: Doc)
    requires FirstMatch(docs, key, v).None? && MatchesValue(Get(d, key), v)
    ensures FirstMatch(docs + [d], key, v) == Some(|docs|)
  {
    FirstWhereAt(docs + [d], Selects(key, v), |docs|);
  }

  /** Storing at the first match a document that still matches keeps it the first match. */
  lemma FirstMatchUpdate(docs: seq<Doc>, key: string, v: Value, i: nat, st: Doc)
    requires FirstMatch(docs, key, v) == Some(i) && MatchesValue(Get(st, key), v)
    ensures FirstMatch(docs[i := st], key, v) == Some(i)
  {
    var after := docs[i := st];
    assert after[i] == st;
    assert forall j :: 0 <= j < i ==> after[j] == docs[j];
    FirstMatchAt(after, key, v, i);
  }

  lemma FirstMatchAt(docs: seq<Doc>, key: string, v: Value, i: nat)
    requires i < |docs| && MatchesValue(Get(docs[i], key), v)
    requires forall j :: 0 <= j < i ==> !MatchesValue(Get(docs[j], key), v)
    ensures FirstMatch(docs, key, v) == Some(i)
  {
    FirstWhereAt(docs, Selects(key, v), i);
  }

  /** The first position whose element satisfies `p` is the one before which none does. */
  lemma FirstWhereAt<T>(xs: seq<T>, p: T -> bool, i: nat)
    requires i < |xs| && p(xs[i])
    requires forall j :: 0 <= j < i ==> !p(xs[j])
    ensures FirstWhere(xs, p, 0) == Some(i)
  {
  }

  /** The collection after an upsert that did not fail. */
  function After(docs: seq<Doc>, r: Upsert): seq<Doc> {
    if r.UpUnchanged? || r.UpFailed? then docs else r.docs
  }

  /** The query on `key` first finds a document that agrees with `d` on every field of `d`. */
  predicate ReadsBack(after: seq<Doc>, key: string, d: Doc)
    requires key in Keys(d)
  {
    var found := FirstMatch(after, key, Get(d, key).value);
    && found.Some?
    && forall k :: k in Keys(d) ==> Get(after[found.value], k) == Get(d, k)
  }

  /** Reading back an upsert: unless it failed, the query on the upsert key finds `d`'s fields. */
  lemma UpsertReadsBack(b: Backend, name: string, docs: seq<Doc>, key: string, d: Doc)
    requires key in Keys(d) && !UpsertOne(b, name, docs, key, d).UpFailed?
    ensures ReadsBack(After(docs, UpsertOne(b, name, docs, key, d)), key, d)
  {
    var r := UpsertOne(b, name, docs, key, d);
    if r.UpInserted? {
      assert After(docs, r) == docs + [d];
      ReadBackAppended(docs, key, d);
    } else {
      var i := FirstMatch(docs, key, Get(d, key).value).value;
      ReadBackReplaced(docs, key, d, i);
      if r.UpUnchanged? {
        assert After(docs, r) == docs == docs[i := Replacement(docs[i], d)];
      } else {
        assert After(docs, r) == docs[i := Replacement(docs[i], d)];
      }
    }
  }

  lemma ReadBackAppended(docs: seq<Doc>, key: string, d: Doc)
    requires key in Keys(d) && FirstMatch(docs, key, Get(d, key).value).None?
    ensures ReadsBack(docs + [d], key, d)
  {
    FirstMatchAppend(docs, key, Get(d, key).value, d);
    assert (docs + [d])[|docs|] == d;
  }

  lemma ReadBackReplaced(docs: seq<Doc>, key: string, d: Doc, i: nat)
    requires key in Keys(d) && FirstMatch(docs, key, Get(d, key).value) == Some(i)
    ensures ReadsBack(docs[i := Replacement(docs[i], d)], key, d)
  {
    var st := Replacement(docs[i], d);
    var after := docs[i := st];
    assert after[i] == st;
    assert forall k :: k in Keys(d) ==> Get(st, k) == Get(d, k) by { ReplacementAgrees(docs[i], d); }
    FirstMatchUpdate(docs, key, Get(d, key).value, i, st);
  }

  /** The upsert loop of `store_data`. */
  function UpsertAll(b: Backend, name: string, docs: seq<Doc>, key: string, data: seq<Doc>): (r: Pass)
    ensures r.inserted + r.updated + r.failed + r.silent <= |data|
    ensures |r.docs| == |docs| + r.inserted + r.silent
    decreases |data|
  {
    if data == [] then Pass(docs, 0, 0, 0, 0)
    else match UpsertOne(b, name, docs, key, data[0])
      case UpInserted(next, counted) =>
        var p := UpsertAll(b, name, next, key, data[1..]);
        if counted then Pass(p.docs, p.inserted + 1, p.updated, p.failed, p.silent)
        else Pass(p.docs, p.inserted, p.updated, p.failed, p.silent + 1)
      case UpUpdated(next) =>
        var p := UpsertAll(b, name, next, key, data[1..]);
        Pass(p.docs, p.inserted, p.updated + 1, p.failed, p.silent)
      case UpUnchanged => UpsertAll(b, name, docs, key, data[1..])
      case UpFailed =>
        var p := UpsertAll(b, name, docs, key, data[1..]);
        Pass(p.docs, p.inserted, p.updated, p.failed + 1, p.silent)
  }

  /** The outcome of every upsert step, each taken on the collection the earlier steps left. */
  function UpsertSteps(b: Backend, name: string, docs: seq<Doc>, key: string, data: seq<Doc>): (r: seq<Upsert>)
    ensures |r| == |data|
    decreases |data|
  {
    if data == [] then []
    else
      var u := UpsertOne(b, name, docs, key, data[0]);
      [u] + UpsertSteps(b, name, After(docs, u), key, data[1..])
  }

  /** The counter of `store_data` an upsert step moves, if any. */
  datatype Tallied = CountsInserted | CountsUpdated | CountsFailed | Uncounted

  function TalliedAs(u: Upsert): Tallied {
    match u
    case UpInserted(_, counted) => if counted then CountsInserted else Uncounted
    case UpUpdated(_) => CountsUpdated
    case UpUnchanged => Uncounted
    case UpFailed => CountsFailed
  }

  /** The number of steps that move counter `t`. */
  function StepsTallied(us: seq<Upsert>, t: Tallied): (r: nat)
    ensures r <= |us|
  {
    if us == [] then 0 else (if TalliedAs(us[0]) == t then 1 else 0) + StepsTallied(us[1..], t)
  }

  /** The number of uncounted inserts among the steps. */
  function SilentInserts(us: seq<Upsert>): (r: nat)
    ensures r <= |us|
  {
    if us == [] then 0 else (if us[0].UpInserted? && !us[0].counted then 1 else 0) + SilentInserts(us[1..])
  }

  /**
   * The counters of the upsert loop are the steps: `inserted` counts the
   * counted inserts, `updated` the replacements that changed a document,
   * `failed` the steps that raised, and the uncounted inserts are the rest of
   * the growth.
   */
  lemma {:induction false} UpsertAllCountsSteps(b: Backend, name: string, docs: seq<Doc>, key: string, data: seq<Doc>)
    ensures var r := UpsertAll(b, name, docs, key, data);
      var us := UpsertSteps(b, name, docs, key, data);
      && r.inserted == StepsTallied(us, CountsInserted)
      && r.updated == StepsTallied(us, CountsUpdated)
      && r.failed == StepsTallied(us, CountsFailed)
      && r.silent == SilentInserts(us)
    decreases |data|
  {
    if data != [] {
      var u := UpsertOne(b, name, docs, key, data[0]);
      UpsertAllCountsSteps(b, name, After(docs, u), key, data[1..]);
      var us := UpsertSteps(b, name, docs, key, data);
      assert us[0] == u && us[1..] == UpsertSteps(b, name, After(docs, u), key, data[1..]);
    }
  }

  /** A key value the filter `{key: v}` matches by equality alone. */
  predicate PlainKey(v: Value) {
    !v.Null? && !v.Arr?
  }

  /** Every document carries the upsert key, with a plain value. */
  predicate KeyedPlain(key: string, ds: seq<Doc>) {
    forall j :: 0 <= j < |ds| ==> key in Keys(ds[j]) && PlainKey(Get(ds[j], key).value)
  }

  /** No two documents share their upsert key value. */
  predicate DistinctKeyValues(key: string, ds: seq<Doc>) {
    forall i, j :: 0 <= i < j < |ds| ==> Get(ds[i], key) != Get(ds[j], key)
  }

  /**
   * Upserting `d` into `docs` would change nothing: the query on `key` finds
   * a document that replacing by `d` leaves as it is, and the replacement
   * would not raise.
   */
  predicate Settled(b: Backend, name: string, docs: seq<Doc>, key: string, d: Doc) {
    && key in Keys(d)
    && var m := FirstMatch(docs, key, Get(d, key).value);
    && m.Some?
    && Replacement(docs[m.value], d) == docs[m.value]
    && !Refused(b, d)
    && !(IdKey in Keys(d) && Get(d, IdKey) != Get(docs[m.value], IdKey))
    && !ClashesExcept(name, docs, m.value, docs[m.value])
  }

  predicate AllSettled(b: Backend, name: string, docs: seq<Doc>, key: string, ds: seq<Doc>) {
    forall j :: 0 <= j < |ds| ==> Settled(b, name, docs, key, ds[j])
  }

  lemma SettledUnchanged(b: Backend, name: string, docs: seq<Doc>, key: string, d: Doc)
    requires Settled(b, name, docs, key, d)
    ensures UpsertOne(b, name, docs, key, d) == UpUnchanged
  {
  }

  /** Upserting documents that are all settled reports nothing and changes nothing. */
  lemma {:induction false} UpsertAllSettled(b: Backend, name: string, docs: seq<Doc>, key: string, data: seq<Doc>)
    requires AllSettled(b, name, docs, key, data)
    ensures UpsertAll(b, name, docs, key, data) == Pass(docs, 0, 0, 0, 0)
    decreases |data|
  {
    if data != [] {
      assert Settled(b, name, docs, key, data[0]);
      SettledUnchanged(b, name, docs, key, data[0]);
      assert AllSettled(b, name, docs, key, data[1..]) by {
        forall j | 0 <= j < |data[1..]|
          ensures Settled(b, name, docs, key, data[1..][j])
        {
          assert data[1..][j] == data[j + 1];
        }
      }
      UpsertAllSettled(b, name, docs, key, data[1..]);
    }
  }

  /** The `_id` half of `Collide` is symmetric because both sides look the key up. */
  lemma CollideSymmetric(name: string, e: Doc, d: Doc)
    ensures Collide(name, e, d) <==> Collide(name, d, e)
  {
  }

  /** The stored form keeps the fields of `d` and the `_id` of `e`. */
  lemma ReplacementSettles(e: Doc, d: Doc)
    requires !(IdKey in Keys(d) && Get(d, IdKey) != Get(e, IdKey))
    ensures Replacement(Replacement(e, d), d) == Replacement(e, d)
    ensures Get(Replacement(e, d), IdKey) == (if IdKey in Keys(d) then Get(d, IdKey) else Get(e, IdKey))
  {
    if IdKey in Keys(e) && IdKey !in Keys(d) {
      var st := Replacement(e, d);
      assert st[0] == Field(IdKey, Get(e, IdKey).value);
      assert Get(st, IdKey) == Get(e, IdKey);
    }
  }

  /** A step that did not fail leaves its own document settled. */
  lemma StepSettles(b: Backend, name: string, docs: seq<Doc>, key: string, d: Doc)
    requires key in Keys(d)
    requires !UpsertOne(b, name, docs, key, d).UpFailed?
    ensures Settled(b, name, After(docs, UpsertOne(b, name, docs, key, d)), key, d)
  {
    var u := UpsertOne(b, name, docs, key, d);
    if u.UpInserted? {
      assert TryInsert(b, name, docs, d) == Added;
      SettlesAppended(b, name, docs, key, d);
    } else {
      var i := FirstMatch(docs, key, Get(d, key).value).value;
      ReplacementSettles(docs[i], d);
      if u.UpUpdated? {
        SettlesReplaced(b, name, docs, key, d, i);
      }
    }
  }

  /** An inserted document is settled in the collection that now ends with it. */
  lemma SettlesAppended(b: Backend, name: string, docs: seq<Doc>, key: string, d: Doc)
    requires key in Keys(d) && FirstMatch(docs, key, Get(d, key).value).None?
    requires !Refused(b, d) && !Clashes(name, docs, d)
    ensures Settled(b, name, docs + [d], key, d)
  {
    var after := docs + [d];
    FirstMatchAppend(docs, key, Get(d, key).value, d);
    assert after[|docs|] == d;
    assert !ClashesExcept(name, after, |docs|, d) by {
      forall i | 0 <= i < |after| && i != |docs|
        ensures !Collide(name, after[i], d)
      {
        assert after[i] == docs[i];
      }
    }
  }

  /** A replacement that went through is settled where it was stored. */
  lemma SettlesReplaced(b: Backend, name: string, docs: seq<Doc>, key: string, d: Doc, i: nat)
    requires key in Keys(d) && FirstMatch(docs, key, Get(d, key).value) == Some(i)
    requires !Refused(b, d) && !(IdKey in Keys(d) && Get(d, IdKey) != Get(docs[i], IdKey))
    requires !ClashesExcept(name, docs, i, Replacement(docs[i], d))
    ensures Settled(b, name, docs[i := Replacement(docs[i], d)], key, d)
  {
    var v := Get(d, key).value;
    var st := Replacement(docs[i], d);
    var after := docs[i := st];
    assert Get(st, key) == Get(d, key) by { ReplacementAgrees(docs[i], d); }
    FirstMatchUpdate(docs, key, v, i, st);
    assert after[i] == st;
    ReplacementSettles(docs[i], d);
    ClashesExceptUpdate(name, docs, i, st);
  }

  /** Storing `st` at `i` leaves the other documents it could collide with as they were. */
  lemma ClashesExceptUpdate(name: string, docs: seq<Doc>, i: nat, st: Doc)
    requires i < |docs| && !ClashesExcept(name, docs, i, st)
    ensures !ClashesExcept(name, docs[i := st], i, st)
  {
    var after := docs[i := st];
    forall j | 0 <= j < |after| && j != i
      ensures !Collide(name, after[j], st)
    {
      assert after[j] == docs[j];
    }
  }

  /** The position and key value of a settled document. */
  lemma SettledAt(b: Backend, name: string, docs: seq<Doc>, key: string, d: Doc)
    requires Settled(b, name, docs, key, d)
    ensures var i := FirstMatch(docs, key, Get(d, key).value).value;
      Get(docs[i], key) == Get(d, key)
  {
    var i := FirstMatch(docs, key, Get(d, key).value).value;
    assert Get(Replacement(docs[i], d), key) == Get(d, key) by { ReplacementAgrees(docs[i], d); }
  }

  /**
   * A step on `d` keeps settled every document settled before it whose key
   * value is plain and differs from `d`'s: an insert goes after it, and an
   * update replaces another document, which `d`'s step has already checked
   * for collisions.
   */
  lemma StepKeepsSettled(b: Backend, name: string, docs: seq<Doc>, key: string, d: Doc, q: Doc)
    requires key in Keys(d) && PlainKey(Get(d, key).value)
    requires Settled(b, name, docs, key, q) && PlainKey(Get(q, key).value)
    requires Get(q, key) != Get(d, key)
    requires !UpsertOne(b, name, docs, key, d).UpFailed?
    ensures Settled(b, name, After(docs, UpsertOne(b, name, docs, key, d)), key, q)
  {
    var u := UpsertOne(b, name, docs, key, d);
    var iq := FirstMatch(docs, key, Get(q, key).value).value;
    if u.UpInserted? {
      assert TryInsert(b, name, docs, d) == Added;
      assert !Collide(name, docs[iq], d);
      SettledKeptAppended(b, name, docs, key, q, d);
    } else if u.UpUpdated? {
      var i := FirstMatch(docs, key, Get(d, key).value).value;
      var st := Replacement(docs[i], d);
      SettledAt(b, name, docs, key, q);
      assert i != iq;
      assert !ClashesExcept(name, docs, i, st);
      assert !Collide(name, docs[iq], st);
      assert Get(st, key) == Get(d, key) by { ReplacementAgrees(docs[i], d); }
      SettledKeptReplaced(b, name, docs, key, q, i, st);
    }
  }

  /** A document appended after a settled one, and not colliding with it, leaves it settled. */
  lemma SettledKeptAppended(b: Backend, name: string, docs: seq<Doc>, key: string, q: Doc, d: Doc)
    requires Settled(b, name, docs, key, q)
    requires !Collide(name, docs[FirstMatch(docs, key, Get(q, key).value).value], d)
    ensures Settled(b, name, docs + [d], key, q)
  {
    var vq := Get(q, key).value;
    var after := docs + [d];
    var iq := FirstMatch(docs, key, vq).value;
    FirstMatchAt(after, key, vq, iq);
    assert after[iq] == docs[iq];
    assert !ClashesExcept(name, after, iq, docs[iq]) by {
      forall j | 0 <= j < |after| && j != iq
        ensures !Collide(name, after[j], docs[iq])
      {
        if j < |docs| {
          assert after[j] == docs[j];
        } else {
          assert after[j] == d;
          CollideSymmetric(name, docs[iq], d);
        }
      }
    }
  }

  /**
   * Replacing another document by one that neither matches the settled
   * document's key value nor collides with it leaves it settled.
   */
  lemma SettledKeptReplaced(b: Backend, name: string, docs: seq<Doc>, key: string, q: Doc, i: nat, st: Doc)
    requires Settled(b, name, docs, key, q) && i < |docs|
    requires i != FirstMatch(docs, key, Get(q, key).value).value
    requires !MatchesValue(Get(st, key), Get(q, key).value)
    requires !Collide(name, docs[FirstMatch(docs, key, Get(q, key).value).value], st)
    ensures Settled(b, name, docs[i := st], key, q)
  {
    var vq := Get(q, key).value;
    var after := docs[i := st];
    var iq := FirstMatch(docs, key, vq).value;
    FirstMatchAt(after, key, vq, iq);
    assert after[iq] == docs[iq];
    assert !ClashesExcept(name, after, iq, docs[iq]) by {
      forall j | 0 <= j < |after| && j != iq
        ensures !Collide(name, after[j], docs[iq])
      {
        if j == i {
          CollideSymmetric(name, docs[iq], st);
        } else {
          assert after[j] == docs[j];
        }
      }
    }
  }

  /** A first step that did not fail hands the rest of the loop its collection and its failures. */
  lemma UpsertAllStep(b: Backend, name: string, docs: seq<Doc>, key: string, data: seq<Doc>)
    requires data != []
    ensures var u := UpsertOne(b, name, docs, key, data[0]);
      var rest := UpsertAll(b, name, After(docs, u), key, data[1..]);
      && UpsertAll(b, name, docs, key, data).docs == rest.docs
      && UpsertAll(b, name, docs, key, data).failed == rest.failed + (if u.UpFailed? then 1 else 0)
  {
  }

  /** The requirements of `UpsertIdempotent` hold for every prefix. */
  lemma KeyedPrefix(key: string, ds: seq<Doc>, n: nat)
    requires n <= |ds| && KeyedPlain(key, ds) && DistinctKeyValues(key, ds)
    ensures KeyedPlain(key, ds[..n]) && DistinctKeyValues(key, ds[..n])
  {
    assert forall j :: 0 <= j < n ==> ds[..n][j] == ds[j];
  }

  /** One step of the loop: the earlier documents stay settled and the new one settles. */
  lemma StepKeepsAllSettled(b: Backend, name: string, docs: seq<Doc>, key: string, prior: seq<Doc>, d: Doc)
    requires KeyedPlain(key, prior + [d]) && DistinctKeyValues(key, prior + [d])
    requires AllSettled(b, name, docs, key, prior)
    requires !UpsertOne(b, name, docs, key, d).UpFailed?
    ensures AllSettled(b, name, After(docs, UpsertOne(b, name, docs, key, d)), key, prior + [d])
  {
    var all := prior + [d];
    var after := After(docs, UpsertOne(b, name, docs, key, d));
    assert all[|prior|] == d;
    StepSettles(b, name, docs, key, d);
    forall j | 0 <= j < |all|
      ensures Settled(b, name, after, key, all[j])
    {
      if j < |prior| {
        assert all[j] == prior[j];
        StepKeepsSettled(b, name, docs, key, d, prior[j]);
      }
    }
  }

  /**
   * Induction for `UpsertIdempotent`: the documents upserted so far stay
   * settled while the loop runs over the rest.
   */
  lemma {:induction false} UpsertSettles(b: Backend, name: string, docs: seq<Doc>, key: string,
                                         prior: seq<Doc>, data: seq<Doc>)
    requires KeyedPlain(key, prior + data) && DistinctKeyValues(key, prior + data)
    requires AllSettled(b, name, docs, key, prior)
    requires UpsertAll(b, name, docs, key, data).failed == 0
    ensures AllSettled(b, name, UpsertAll(b, name, docs, key, data).docs, key, prior + data)
    decreases |data|
  {
    if data == [] {
      assert prior + data == prior;
    } else {
      SettlesStep(b, name, docs, key, prior, data);
      UpsertSettles(b, name, After(docs, UpsertOne(b, name, docs, key, data[0])), key, prior + [data[0]], data[1..]);
    }
  }

  /** The step of `UpsertSettles`: the requirements carry over to the rest of the loop. */
  lemma SettlesStep(b: Backend, name: string, docs: seq<Doc>, key: string, prior: seq<Doc>, data: seq<Doc>)
    requires data != []
    requires KeyedPlain(key, prior + data) && DistinctKeyValues(key, prior + data)
    requires AllSettled(b, name, docs, key, prior)
    requires UpsertAll(b, name, docs, key, data).failed == 0
    ensures var after := After(docs, UpsertOne(b, name, docs, key, data[0]));
      var next := prior + [data[0]];
      && next + data[1..] == prior + data
      && AllSettled(b, name, after, key, next)
      && UpsertAll(b, name, after, key, data[1..]).failed == 0
      && UpsertAll(b, name, docs, key, data).docs == UpsertAll(b, name, after, key, data[1..]).docs
  {
    var all := prior + data;
    var d := data[0];
    UpsertAllStep(b, name, docs, key, data);
    MoveFirst(prior, data);
    KeyedPrefix(key, all, |prior| + 1);
    StepKeepsAllSettled(b, name, docs, key, prior, d);
  }

  /** Moving the first element of `data` to the end of `prior`. */
  lemma MoveFirst<T>(prior: seq<T>, data: seq<T>)
    requires data != []
    ensures (prior + data)[..|prior| + 1] == prior + [data[0]]
    ensures prior + [data[0]] + data[1..] == prior + data
  {
    assert [data[0]] + data[1..] == data;
    assert prior + [data[0]] + data[1..] == prior + ([data[0]] + data[1..]);
  }

  /**
   * Running the same upsert twice: when every document carries the key with
   * a plain value, no two share it, and the first run raised nowhere, the
   * second run finds every document already stored as it is, reports
   * nothing and changes nothing.
   */
  lemma UpsertIdempotent(b: Backend, name: string, docs: seq<Doc>, key: string, data: seq<Doc>)
    requires KeyedPlain(key, data) && DistinctKeyValues(key, data)
    requires UpsertAll(b, name, docs, key, data).failed == 0
    ensures var once := UpsertAll(b, name, docs, key, data);
      UpsertAll(b, name, once.docs, key, data) == Pass(once.docs, 0, 0, 0, 0)
  {
    assert [] + data == data;
    UpsertSettles(b, name, docs, key, [], data);
    UpsertAllSettled(b, name, UpsertAll(b, name, docs, key, data).docs, key, data);
  }

  // ---------------------------------------------------------------------------
  // `store_data`

  datatype Counts = Counts(inserted: nat, updated: nat, failed: nat)

  datatype StoreOutcome = StoreOutcome(state: State, counts: Counts)

  /** `if upsert_key:` — an empty key is falsy and selects the bulk insert. */
  predicate UpsertMode(upsertKey: Option<string>) {
    upsertKey.Some? && upsertKey.value != []
  }

  /**
   * `store_data`: nothing at all for empty `data`; otherwise one pass over
   * `data` in the chosen mode, the new collection, and exactly one `store`
   * record in `audit_logs` carrying the total, inserted and updated counts
   * but not the failed count.
   */
  function StoreData(b: Backend, s: State, name: string, data: seq<Doc>, upsertKey: Option<string>, now: int)
    : (r: Result<StoreOutcome>)
    ensures data == [] ==> r == Ok(StoreOutcome(s, Counts(0, 0, 0)))
    ensures data != [] ==> (r.Err? <==> b.invalidName(name))
    ensures data != [] && r.Ok? ==>
      r.value.state.audit == s.audit + [DataOperation(now, "store", name, |data|,
                                                      r.value.counts.inserted, r.value.counts.updated)]
    ensures r.Ok? ==> forall c :: c != name ==> Docs(r.value.state, c) == Docs(s, c)
    ensures r.Ok? ==> r.value.counts.inserted + r.value.counts.updated + r.value.counts.failed <= |data|
    ensures r.Ok? ==> |Docs(r.value.state, name)| >= |Docs(s, name)| + r.value.counts.inserted
    ensures r.Ok? ==>
      |Docs(r.value.state, name)| + r.value.counts.updated + r.value.counts.failed <= |Docs(s, name)| + |data|
    ensures r.Ok? && !UpsertMode(upsertKey) ==>
      && r.value.counts.updated == 0
      && Docs(r.value.state, name)[..|Docs(s, name)|] == Docs(s, name)
  {
    if data == [] then Ok(StoreOutcome(s, Counts(0, 0, 0)))
    else if b.invalidName(name) then Err("InvalidName")
    else
      var p := if UpsertMode(upsertKey) then UpsertAll(b, name, Docs(s, name), upsertKey.value, data)
               else InsertAll(b, name, Docs(s, name), data);
      Ok(Stored(s, name, data, now, p))
  }

  /** The collection after a pass, the `store` record of `_log_data_operation`, and the counts returned. */
  function Stored(s: State, name: string, data: seq<Doc>, now: int, p: Pass): (r: StoreOutcome)
    ensures Docs(r.state, name) == p.docs
    ensures forall c :: c != name ==> Docs(r.state, c) == Docs(s, c)
    ensures r.state.audit == s.audit + [DataOperation(now, "store", name, |data|, p.inserted, p.updated)]
    ensures r.counts == Counts(p.inserted, p.updated, p.failed)
  {
    StoreOutcome(LogDataOperation(WithDocs(s, name, p.docs), now, name, "store", |data|, p.inserted, p.updated),
                 Counts(p.inserted, p.updated, p.failed))
  }

  /** The counters of a pass with every stored document reported as inserted. */
  function Recounted(p: Pass): (r: Pass)
    ensures r.docs == p.docs && r.updated == p.updated && r.failed == p.failed
    ensures r.inserted == p.inserted + p.silent && r.silent == 0
  {
    Pass(p.docs, p.inserted + p.silent, p.updated, p.failed, 0)
  }

  /**
   * `store_data` with `inserted` counting every document the call stored:
   * those a failed bulk call stored before the fallback, and upserted
   * documents whose `_id` is falsy. The collection, the audit shape, the
   * updates and the failures are those of `StoreData`, and in either mode the
   * collection grows by exactly the reported `inserted`.
   */
  function StoreDataCounted(b: Backend, s: State, name: string, data: seq<Doc>, upsertKey: Option<string>, now: int)
    : (r: Result<StoreOutcome>)
    ensures r.Err? <==> StoreData(b, s, name, data, upsertKey, now).Err?
    ensures r.Ok? ==> Docs(r.value.state, name) == Docs(StoreData(b, s, name, data, upsertKey, now).value.state, name)
    ensures r.Ok? ==> r.value.counts.failed == StoreData(b, s, name, data, upsertKey, now).value.counts.failed
    ensures r.Ok? ==> r.value.counts.updated == StoreData(b, s, name, data, upsertKey, now).value.counts.updated
    ensures r.Ok? ==> r.value.counts.inserted >= StoreData(b, s, name, data, upsertKey, now).value.counts.inserted
    ensures r.Ok? ==> |Docs(r.value.state, name)| == |Docs(s, name)| + r.value.counts.inserted
    ensures r.Ok? ==> forall c :: c != name ==> Docs(r.value.state, c) == Docs(s, c)
    ensures data != [] && r.Ok? ==>
      r.value.state.audit == s.audit + [DataOperation(now, "store", name, |data|,
                                                      r.value.counts.inserted, r.value.counts.updated)]
  {
    if data == [] then Ok(StoreOutcome(s, Counts(0, 0, 0)))
    else if b.invalidName(name) then Err("InvalidName")
    else
      var p := if UpsertMode(upsertKey) then UpsertAll(b, name, Docs(s, name), upsertKey.value, data)
               else InsertAll(b, name, Docs(s, name), data);
      Ok(Stored(s, name, data, now, Recounted(p)))
  }

  /** A bulk insert the server accepts whole stores `data` after the collection and counts all of it. */
  lemma BulkSuccess(b: Backend, s: State, name: string, data: seq<Doc>, upsertKey: Option<string>, now: int)
    requires data != [] && !b.invalidName(name) && !UpsertMode(upsertKey)
    requires AllTrue(InsertMany(b, name, Docs(s, name), data).added)
    ensures StoreData(b, s, name, data, upsertKey, now).Ok?
    ensures StoreData(b, s, name, data, upsertKey, now).value.counts == Counts(|data|, 0, 0)
    ensures Docs(StoreData(b, s, name, data, upsertKey, now).value.state, name) == Docs(s, name) + data
  {
  }

  /**
   * Reading a collection back: after a bulk insert the server accepts whole,
   * `get_collection_data` with no filter and no limit returns the documents
   * that were there followed by `data`.
   */
  lemma StoredReadsBack(b: Backend, s: State, name: string, data: seq<Doc>, upsertKey: Option<string>, now: int)
    requires data != [] && !b.invalidName(name) && !UpsertMode(upsertKey)
    requires AllTrue(InsertMany(b, name, Docs(s, name), data).added)
    ensures GetCollectionData(b, StoreData(b, s, name, data, upsertKey, now).value.state, name, None, None)
      == Ok(Docs(s, name) + data)
  {
    BulkSuccess(b, s, name, data, upsertKey, now);
    SelectAll(Docs(s, name) + data);
  }

  /**
   * A failed bulk insert under-reports: two documents with the same
   * `student_id` in `canvas_students` leave the first stored, yet `store_data`
   * reports nothing inserted.
   */
  lemma BulkFallbackUndercounts(b: Backend, s: State, d: Doc, now: int)
    requires !b.invalidName("canvas_students") && !Refused(b, d)
    requires Docs(s, "canvas_students") == []
    ensures var r := StoreData(b, s, "canvas_students", [d, d], None, now);
      && r.Ok?
      && Docs(r.value.state, "canvas_students") == [d]
      && r.value.counts == Counts(0, 0, 0)
    ensures StoreDataCounted(b, s, "canvas_students", [d, d], None, now).value.counts == Counts(1, 0, 0)
  {
    var name := "canvas_students";
    assert UniqueKey(name) == Some("student_id");
    assert !Clashes(name, [], d);
    assert Collide(name, [d][0], d);
    assert Clashes(name, [d], d);
    assert [d, d][1..] == [d];
    assert [d][1..] == [];
    assert TryInsert(b, name, [], d) == Added;
    assert TryInsert(b, name, [d], d) == Duplicate;
    var tail := BulkInsert(b, name, [d], [d]);
    assert BulkInsert(b, name, [d], []) == Bulk([d], []);
    assert tail == Bulk([d], [false]);
    assert [] + [d] == [d];
    var bulk := InsertMany(b, name, [], [d, d]);
    assert Encodable(b, [d, d]);
    assert bulk == BulkInsert(b, name, [], [d, d]);
    assert bulk == Bulk([d], [true, false]);
    assert !bulk.added[1];
    assert !AllTrue(bulk.added);
    assert [true, false][1..] == [false];
    assert [false][1..] == [];
    assert Fallback(b, name, [d], [d], [false]) == Pass([d], 0, 0, 0, 0);
    var p := Fallback(b, name, [d], [d, d], [true, false]);
    assert p == Pass([d], 0, 0, 0, 0);
    assert CountTrue([true, false]) == 1;
  }

  /**
   * An upsert whose document carries a falsy `_id` stores it without counting
   * it: `{"_id": 0, "k": 1}` upserted on `k` into an empty collection leaves
   * the document stored and reports nothing inserted.
   */
  lemma FalsyIdUpsertUncounted(b: Backend, s: State, now: int)
    requires !b.invalidName("x") && !Refused(b, [Field(IdKey, Num(0.0)), Field("k", Num(1.0))])
    requires Docs(s, "x") == []
    ensures var d := [Field(IdKey, Num(0.0)), Field("k", Num(1.0))];
      var r := StoreData(b, s, "x", [d], Some("k"), now);
      && r.Ok?
      && Docs(r.value.state, "x") == [d]
      && r.value.counts == Counts(0, 0, 0)
    ensures StoreDataCounted(b, s, "x", [[Field(IdKey, Num(0.0)), Field("k", Num(1.0))]], Some("k"), now)
      .value.counts == Counts(1, 0, 0)
  {
    var d: Doc := [Field(IdKey, Num(0.0)), Field("k", Num(1.0))];
    var data: seq<Doc> := [d];
    assert d[1..] == [Field("k", Num(1.0))];
    assert Get(d, IdKey) == Some(Num(0.0));
    assert Get(d, "k") == Some(Num(1.0));
    assert !CountedUpsert(d);
    assert UniqueKey("x").None?;
    assert !Clashes("x", [], d);
    assert UpsertOne(b, "x", [], "k", d) == UpInserted([d], false);
    assert data[1..] == [];
    assert UpsertMode(Some("k"));
    assert UpsertAll(b, "x", [d], "k", []) == Pass([d], 0, 0, 0, 0);
    assert UpsertAll(b, "x", [], "k", data) == Pass([d], 0, 0, 0, 1);
  }

  /** The documents of `data` a single write refuses. */
  function RefusedCount(b: Backend, data: seq<Doc>): (r: nat)
    ensures r <= |data|
  {
    if data == [] then 0 else (if Refused(b, data[0]) then 1 else 0) + RefusedCount(b, data[1..])
  }

  lemma {:induction false} RefusedCountPositive(b: Backend, data: seq<Doc>, i: nat)
    requires i < |data| && Refused(b, data[i])
    ensures RefusedCount(b, data) > 0
    decreases i
  {
    if i > 0 {
      assert data[1..][i - 1] == data[i];
      RefusedCountPositive(b, data[1..], i - 1);
    }
  }

  /** Retrying every document fails exactly the ones a single write refuses, whatever is stored. */
  lemma {:induction false} RetryFailsRefused(b: Backend, name: string, docs: seq<Doc>, data: seq<Doc>)
    ensures Fallback(b, name, docs, data, NoneAdded(|data|)).failed == RefusedCount(b, data)
    decreases |data|
  {
    if data != [] {
      var none := NoneAdded(|data|);
      assert none[1..] == NoneAdded(|data| - 1);
      var next := if TryInsert(b, name, docs, data[0]) == Added then docs + [data[0]] else docs;
      RetryFailsRefused(b, name, next, data[1..]);
    }
  }

  /**
   * A document the driver cannot encode fails the bulk call before anything
   * is stored, so the fallback retries every document: the pass counts
   * every document it stores, and it fails exactly the documents a single
   * write refuses.
   */
  lemma UnencodableRetriesAll(b: Backend, name: string, docs: seq<Doc>, data: seq<Doc>)
    requires !Encodable(b, data)
    ensures var r := InsertAll(b, name, docs, data);
      && r.silent == 0
      && r.failed == RefusedCount(b, data)
      && r.failed > 0
  {
    var i :| 0 <= i < |data| && b.unencodable(data[i]);
    var bulk := InsertMany(b, name, docs, data);
    assert bulk.added == NoneAdded(|data|);
    assert !AllTrue(bulk.added) by { assert !bulk.added[i]; }
    RetryFailsRefused(b, name, docs, data);
    RefusedCountPositive(b, data, i);
  }

  /**
   * So `store_data` with such a document counts exactly what it stored:
   * its result is that of `StoreDataCounted`.
   */
  lemma UnencodableCountsExactly(b: Backend, s: State, name: string, data: seq<Doc>, upsertKey: Option<string>, now: int)
    requires !UpsertMode(upsertKey) && !b.invalidName(name) && !Encodable(b, data)
    ensures var r := StoreData(b, s, name, data, upsertKey, now);
      && r.Ok?
      && r == StoreDataCounted(b, s, name, data, upsertKey, now)
      && |Docs(r.value.state, name)| == |Docs(s, name)| + r.value.counts.inserted
      && r.value.counts.failed == RefusedCount(b, data)
      && r.value.counts.failed > 0
  {
    var p := InsertAll(b, name, Docs(s, name), data);
    UnencodableRetriesAll(b, name, Docs(s, name), data);
    assert Recounted(p) == p;
  }

  /**
   * `store_data("logs", [g, x])` on an empty collection, where the driver
   * cannot encode `x`: nothing is stored in bulk, then `g` is inserted and
   * counted and `x` fails.
   */
  lemma UnencodableFallsBack(b: Backend, s: State, g: Doc, x: Doc, now: int)
    requires !b.invalidName("logs") && !Refused(b, g) && b.unencodable(x)
    requires Docs(s, "logs") == []
    ensures var r := StoreData(b, s, "logs", [g, x], None, now);
      && r.Ok?
      && Docs(r.value.state, "logs") == [g]
      && r.value.counts == Counts(1, 0, 1)
  {
    var name := "logs";
    var data := [g, x];
    assert UniqueKey(name).None?;
    assert !Clashes(name, [], g);
    assert !Encodable(b, data) by { assert b.unencodable(data[1]); }
    var none := NoneAdded(2);
    assert none == [false, false];
    assert InsertMany(b, name, [], data).added == none;
    assert data[1..] == [x] && [x][1..] == [];
    assert none[1..] == [false] && [false][1..] == [];
    assert TryInsert(b, name, [], g) == Added;
    assert TryInsert(b, name, [g], x) == Rejected;
    assert Fallback(b, name, [g], [], []) == Pass([g], 0, 0, 0, 0);
    assert Fallback(b, name, [g], [x], [false]) == Pass([g], 0, 0, 1, 0);
    assert [] + [g] == [g];
    assert Fallback(b, name, [], data, none) == Pass([g], 1, 0, 1, 0);
  }

  // ---------------------------------------------------------------------------
  // `get_student_data`

  const StudentCollections: seq<string> := [
    "canvas_students", "canvas_enrollments", "canvas_submissions",
    "moodle_users", "moodle_enrollments",
    "attendance_records", "library_checkouts"]

  const StudentAccessAction: string := "student_data_access"

  /** `{field: student_id}` */
  function IdQuery(field: string, id: string): Doc {
    [Field(field, Str(id))]
  }

  predicate HasId(d: Doc, field: string, id: string) {
    MatchesValue(Get(d, field), Str(id))
  }

  lemma SelectIdQuery(docs: seq<Doc>, field: string, id: string)
    ensures forall d :: d in Select(docs, IdQuery(field, id)) <==> d in docs && HasId(d, field, id)
  {
    forall d
      ensures Matches(d, IdQuery(field, id)) <==> HasId(d, field, id)
    {
      assert IdQuery(field, id)[0] == Field(field, Str(id));
    }
  }

  /**
   * The documents of one collection that belong to the student: those with
   * the id in `student_id` when there are any, otherwise those with it in
   * `user_id`. A collection whose name the driver refuses contributes nothing.
   */
  function StudentDocs(b: Backend, s: State, name: string, id: string): (r: seq<Doc>)
    ensures b.invalidName(name) ==> r == []
    ensures forall d :: d in r ==> d in Docs(s, name) && (HasId(d, "student_id", id) || HasId(d, "user_id", id))
    ensures r == [] <==> (b.invalidName(name) ||
      forall d :: d in Docs(s, name) ==> !HasId(d, "student_id", id) && !HasId(d, "user_id", id))
    ensures (exists d :: d in Docs(s, name) && HasId(d, "student_id", id)) && !b.invalidName(name) ==>
      forall d :: d in Docs(s, name) ==> (d in r <==> HasId(d, "student_id", id))
  {
    if b.invalidName(name) then []
    else
      var docs := Docs(s, name);
      SelectIdQuery(docs, "student_id", id);
      SelectIdQuery(docs, "user_id", id);
      var byStudent := Select(docs, IdQuery("student_id", id));
      var byUser := Select(docs, IdQuery("user_id", id));
      assert byStudent != [] ==> byStudent[0] in byStudent;
      assert byUser != [] ==> byUser[0] in byUser;
      if byStudent != [] then byStudent else byUser
  }

  /** The loop over the requested collections, kept as a map from collection name to documents. */
  function Gather(b: Backend, s: State, names: seq<string>, id: string): (r: map<string, seq<Doc>>)
    ensures forall c :: c in r <==> c in names && StudentDocs(b, s, c, id) != []
    ensures forall c :: c in r ==> r[c] == StudentDocs(b, s, c, id)
  {
    if names == [] then map[]
    else
      var last := names[|names| - 1];
      var m := Gather(b, s, names[..|names| - 1], id);
      assert forall c :: c in names <==> c in names[..|names| - 1] || c == last;
      var found := StudentDocs(b, s, last, id);
      if found != [] then m[last := found] else m
  }

  datatype StudentView = StudentView(state: State, data: map<string, seq<Doc>>)

  /**
   * `get_student_data`: the student's documents from each requested
   * collection (the seven defaults when none are given) that has any, and
   * exactly one access record naming the student and how many collections
   * answered. No data collection changes.
   */
  function GetStudentData(b: Backend, s: State, id: string, requested: Option<seq<string>>, now: int)
    : (r: StudentView)
    ensures r.state.collections == s.collections
    ensures r.state.audit == s.audit +
      [AccessEvent(now, StudentAccessAction, id, AccessDetails(|r.data|))]
    ensures forall c :: c in r.data <==> c in requested.GetOr(StudentCollections) && StudentDocs(b, s, c, id) != []
    ensures forall c :: c in r.data ==> r.data[c] == StudentDocs(b, s, c, id)
  {
    var data := Gather(b, s, requested.GetOr(StudentCollections), id);
    StudentView(LogAuditEvent(s, now, StudentAccessAction, id, AccessDetails(|data|)), data)
  }

  const AccessPrefix: string := "Accessed data from "
  const AccessSuffix: string := " collections"

  /** The `details` text of a student access record for `n` collections. */
  function AccessDetails(n: nat): string {
    AccessPrefix + NatToString(n) + AccessSuffix
  }

  /** The collection count an auditor reads off an access record's `details`, if it has that shape. */
  function AccessedCount(details: string): Option<nat> {
    if |details| < |AccessPrefix| + |AccessSuffix| then None
    else if details[..|AccessPrefix|] != AccessPrefix || details[|details| - |AccessSuffix|..] != AccessSuffix then None
    else
      var mid := details[|AccessPrefix|..|details| - |AccessSuffix|];
      if forall i :: 0 <= i < |mid| ==> IsDigit(mid[i]) then Some(DecimalValue(mid)) else None
  }

  lemma AccessDetailsReadBack(n: nat)
    ensures AccessedCount(AccessDetails(n)) == Some(n)
  {
    var t := AccessDetails(n);
    var digits := NatToString(n);
    assert t[..|AccessPrefix|] == AccessPrefix;
    assert t[|t| - |AccessSuffix|..] == AccessSuffix;
    assert t[|AccessPrefix|..|t| - |AccessSuffix|] == digits;
    NatToStringRoundTrip(n);
  }

  /**
   * Reading back a student access: the record `get_student_data` appends last
   * names the action and the student, and its `details` give the number of
   * collections returned.
   */
  lemma StudentAccessReadsBack(b: Backend, s: State, id: string, requested: Option<seq<string>>, now: int)
    ensures var r := GetStudentData(b, s, id, requested, now);
      var e := r.state.audit[|r.state.audit| - 1];
      && e.AccessEvent?
      && e.action == StudentAccessAction && e.userId == id && e.timestamp == now
      && AccessedCount(e.details) == Some(|r.data|)
  {
    AccessDetailsReadBack(|GetStudentData(b, s, id, requested, now).data|);
  }

  // ---------------------------------------------------------------------------
  // `cleanup_old_data`

  const CleanupCollections: seq<string> := [
    "canvas_students", "canvas_courses", "canvas_enrollments",
    "canvas_assignments", "canvas_submissions",
    "moodle_users", "moodle_courses", "moodle_enrollments",
    "attendance_records", "library_checkouts"]

  /** Seven years, the FERPA retention period the source chooses. */
  const DefaultRetentionDays: int := 2555

  const MicrosPerDay: int := 86400000000
  /** `timedelta(days=n)` raises `OverflowError` beyond this magnitude. */
  const MaxDeltaDays: int := 999999999
  /** `datetime.min` and `datetime.max` in microseconds since 1970-01-01. */
  const MinMicros: int := -62135596800000000
  const MaxMicros: int := 253402300799999999

  /** `datetime.utcnow()` in microseconds since 1970-01-01, and `isoformat()`, left uninterpreted. */
  datatype Clock = Clock(now: int, iso: int -> string)

  /** `utcnow() - timedelta(days=days)`, with both of its overflow errors. */
  function Cutoff(now: int, days: int): (r: Result<int>)
    ensures r.Ok? <==> -MaxDeltaDays <= days <= MaxDeltaDays && MinMicros <= now - days * MicrosPerDay <= MaxMicros
    ensures r.Ok? ==> r.value == now - days * MicrosPerDay
  {
    if days < -MaxDeltaDays || days > MaxDeltaDays then Err("OverflowError")
    else
      var c := now - days * MicrosPerDay;
      if c < MinMicros || c > MaxMicros then Err("OverflowError") else Ok(c)
  }

  /**
   * `{'collected_at': {'$lt': cutoff}}` with a string bound: a string value
   * older than the bound, or an array holding one. Values of other types are
   * never compared with a string.
   */
  predicate Stale(d: Doc, cutoff: string) {
    match Get(d, "collected_at")
    case Some(Str(t)) => LexLess(t, cutoff)
    case Some(Arr(items)) => exists i :: 0 <= i < |items| && items[i].Str? && LexLess(items[i].s, cutoff)
    case _ => false
  }

  function StaleCount(docs: seq<Doc>, cutoff: string): (r: nat)
    ensures r <= |docs|
    ensures r == 0 <==> forall d :: d in docs ==> !Stale(d, cutoff)
  {
    if docs == [] then 0
    else (if Stale(docs[0], cutoff) then 1 else 0) + StaleCount(docs[1..], cutoff)
  }

  /** What `delete_many` leaves: the documents that are not stale, in order. */
  function Retained(docs: seq<Doc>, cutoff: string): (r: seq<Doc>)
    ensures forall d :: d in r <==> d in docs && !Stale(d, cutoff)
    ensures |r| + StaleCount(docs, cutoff) == |docs|
  {
    if docs == [] then []
    else if Stale(docs[0], cutoff) then Retained(docs[1..], cutoff)
    else [docs[0]] + Retained(docs[1..], cutoff)
  }

  lemma {:induction false} RetainedUnchanged(docs: seq<Doc>, cutoff: string)
    requires forall d :: d in docs ==> !Stale(d, cutoff)
    ensures Retained(docs, cutoff) == docs
  {
    if docs != [] {
      assert docs[0] in docs;
      assert forall d :: d in docs[1..] ==> d in docs;
      RetainedUnchanged(docs[1..], cutoff);
      assert Retained(docs, cutoff) == [docs[0]] + Retained(docs[1..], cutoff);
    }
  }

  predicate Distinct(names: seq<string>) {
    forall i, j :: 0 <= i < j < |names| ==> names[i] != names[j]
  }

  /** The number of documents in the named collections. */
  function TotalDocs(s: State, names: seq<string>): nat {
    if names == [] then 0 else |Docs(s, names[0])| + TotalDocs(s, names[1..])
  }

  /**
   * The audit records of a cleanup, read off the state before it: one
   * `cleanup` record per collection that held stale documents, in the order
   * of `names`, carrying how many.
   */
  function CleanupLog(s: State, names: seq<string>, cutoff: string, now: int): seq<AuditEntry> {
    if names == [] then []
    else
      var stale := StaleCount(Docs(s, names[0]), cutoff);
      (if stale > 0 then [DataOperation(now, "cleanup", names[0], stale, 0, 0)] else [])
        + CleanupLog(s, names[1..], cutoff, now)
  }

  datatype Swept = Swept(state: State, total: nat)

  /** One iteration of the cleanup loop: `delete_many` on one collection, then its record if it deleted anything. */
  function Step(s: State, name: string, cutoff: string, now: int): (r: State)
    ensures Docs(r, name) == Retained(Docs(s, name), cutoff)
    ensures forall c :: c != name ==> Docs(r, c) == Docs(s, c)
    ensures r.audit == s.audit +
      (if StaleCount(Docs(s, name), cutoff) > 0
       then [DataOperation(now, "cleanup", name, StaleCount(Docs(s, name), cutoff), 0, 0)] else [])
    ensures StaleCount(Docs(s, name), cutoff) == 0 ==> r == s
  {
    var docs := Docs(s, name);
    var deleted := StaleCount(docs, cutoff);
    if deleted > 0 then
      var pruned := WithDocs(s, name, Retained(docs, cutoff));
      LogDataOperation(pruned, now, name, "cleanup", deleted, 0, 0)
    else
      RetainedUnchanged(docs, cutoff);
      s
  }

  /** The loop of `cleanup_old_data` over `names`, with the running total of deletions. */
  function Sweep(s: State, names: seq<string>, cutoff: string, now: int): (r: Swept)
    decreases |names|
  {
    if names == [] then Swept(s, 0)
    else
      var rest := Sweep(Step(s, names[0], cutoff, now), names[1..], cutoff, now);
      Swept(rest.state, StaleCount(Docs(s, names[0]), cutoff) + rest.total)
  }

  lemma {:induction false} TotalDocsFrame(s: State, t: State, names: seq<string>)
    requires forall c :: c in names ==> Docs(s, c) == Docs(t, c)
    ensures TotalDocs(s, names) == TotalDocs(t, names)
  {
    if names != [] {
      TotalDocsFrame(s, t, names[1..]);
    }
  }

  lemma {:induction false} CleanupLogFrame(s: State, t: State, names: seq<string>, cutoff: string, now: int)
    requires forall c :: c in names ==> Docs(s, c) == Docs(t, c)
    ensures CleanupLog(s, names, cutoff, now) == CleanupLog(t, names, cutoff, now)
  {
    if names != [] {
      CleanupLogFrame(s, t, names[1..], cutoff, now);
    }
  }

  /** A sweep touches no collection outside `names`. */
  lemma {:induction false} SweepFrame(s: State, names: seq<string>, cutoff: string, now: int)
    ensures forall c :: c !in names ==> Docs(Sweep(s, names, cutoff, now).state, c) == Docs(s, c)
    decreases |names|
  {
    if names != [] {
      SweepFrame(Step(s, names[0], cutoff, now), names[1..], cutoff, now);
    }
  }

  /** A sweep over distinct names leaves exactly the documents that are not stale in each. */
  lemma {:induction false} SweepRetains(s: State, names: seq<string>, cutoff: string, now: int)
    requires Distinct(names)
    ensures forall c :: c in names ==> Docs(Sweep(s, names, cutoff, now).state, c) == Retained(Docs(s, c), cutoff)
    decreases |names|
  {
    if names != [] {
      var next := Step(s, names[0], cutoff, now);
      var tail := names[1..];
      assert Distinct(tail);
      assert names[0] !in tail;
      SweepFrame(next, tail, cutoff, now);
      SweepRetains(next, tail, cutoff, now);
      assert forall c :: c in names ==> c == names[0] || c in tail;
    }
  }

  /** The reported total is how many documents the named collections lost. */
  lemma {:induction false} SweepTotal(s: State, names: seq<string>, cutoff: string, now: int)
    requires Distinct(names)
    ensures Sweep(s, names, cutoff, now).total + TotalDocs(Sweep(s, names, cutoff, now).state, names)
         == TotalDocs(s, names)
    decreases |names|
  {
    if names != [] {
      var next := Step(s, names[0], cutoff, now);
      var tail := names[1..];
      var rest := Sweep(next, tail, cutoff, now);
      assert Distinct(tail);
      assert names[0] !in tail;
      SweepFrame(next, tail, cutoff, now);
      SweepTotal(next, tail, cutoff, now);
      TotalDocsFrame(next, s, tail);
      assert |Docs(rest.state, names[0])| + StaleCount(Docs(s, names[0]), cutoff) == |Docs(s, names[0])|;
    }
  }

  /** The records a sweep appends are the ones the state before it calls for. */
  lemma {:induction false} SweepLog(s: State, names: seq<string>, cutoff: string, now: int)
    requires Distinct(names)
    ensures Sweep(s, names, cutoff, now).state.audit == s.audit + CleanupLog(s, names, cutoff, now)
    decreases |names|
  {
    if names != [] {
      var next := Step(s, names[0], cutoff, now);
      var tail := names[1..];
      DistinctTail(names);
      SweepLog(next, tail, cutoff, now);
      StepFrame(s, names[0], tail, cutoff, now);
      CleanupLogFrame(next, s, tail, cutoff, now);
      var stale := StaleCount(Docs(s, names[0]), cutoff);
      var entry := if stale > 0 then [DataOperation(now, "cleanup", names[0], stale, 0, 0)] else [];
      assert Sweep(s, names, cutoff, now).state == Sweep(next, tail, cutoff, now).state;
      assert CleanupLog(s, names, cutoff, now) == entry + CleanupLog(s, tail, cutoff, now);
      AppendAssoc(s.audit, entry, CleanupLog(s, tail, cutoff, now));
    }
  }

  lemma DistinctTail(names: seq<string>)
    requires names != [] && Distinct(names)
    ensures Distinct(names[1..]) && names[0] !in names[1..]
  {
    assert forall i :: 0 <= i < |names[1..]| ==> names[1..][i] == names[i + 1];
  }

  /** A step on `name` leaves every collection of `others` alone when `name` is not among them. */
  lemma StepFrame(s: State, name: string, others: seq<string>, cutoff: string, now: int)
    requires name !in others
    ensures forall c :: c in others ==> Docs(Step(s, name, cutoff, now), c) == Docs(s, c)
  {
  }

  lemma AppendAssoc<T>(a: seq<T>, b: seq<T>, c: seq<T>)
    ensures (a + b) + c == a + (b + c)
  {
  }

  /**
   * `cleanup_old_data`: compute the cutoff (failing as `timedelta` and
   * datetime subtraction fail), then sweep the ten data collections.
   */
  function CleanupOldData(s: State, clock: Clock, days: Option<int>): (r: Result<Swept>)
    ensures r.Err? <==> Cutoff(clock.now, days.GetOr(DefaultRetentionDays)).Err?
    ensures r.Ok? ==>
      var cutoff := clock.iso(Cutoff(clock.now, days.GetOr(DefaultRetentionDays)).value);
      && (forall c :: c !in CleanupCollections ==> Docs(r.value.state, c) == Docs(s, c))
      && (forall c :: c in CleanupCollections ==> Docs(r.value.state, c) == Retained(Docs(s, c), cutoff))
      && r.value.total + TotalDocs(r.value.state, CleanupCollections) == TotalDocs(s, CleanupCollections)
      && r.value.state.audit == s.audit + CleanupLog(s, CleanupCollections, cutoff, clock.now)
  {
    match Cutoff(clock.now, days.GetOr(DefaultRetentionDays))
    case Err(e) => Err(e)
    case Ok(c) =>
      CleanupCollectionsDistinct();
      SweepFrame(s, CleanupCollections, clock.iso(c), clock.now);
      SweepRetains(s, CleanupCollections, clock.iso(c), clock.now);
      SweepTotal(s, CleanupCollections, clock.iso(c), clock.now);
      SweepLog(s, CleanupCollections, clock.iso(c), clock.now);
      Ok(Sweep(s, CleanupCollections, clock.iso(c), clock.now))
  }

  /** A call of the client that writes to the store; `get_collection_data` and the analytics only read. */
  datatype Call =
    | StoreCall(name: string, data: seq<Doc>, upsertKey: Option<string>, now: int)
    | StudentCall(id: string, requested: Option<seq<string>>, now: int)
    | CleanupCall(clock: Clock, days: Option<int>)

  /** The state after one call; a call that raises leaves the state as it was. */
  function Apply(b: Backend, s: State, c: Call): State {
    match c
    case StoreCall(name, data, key, now) =>
      var r := StoreData(b, s, name, data, key, now);
      if r.Ok? then r.value.state else s
    case StudentCall(id, requested, now) => GetStudentData(b, s, id, requested, now).state
    case CleanupCall(clock, days) =>
      var r := CleanupOldData(s, clock, days);
      if r.Ok? then r.value.state else s
  }

  function Run(b: Backend, s: State, calls: seq<Call>): State
    decreases |calls|
  {
    if calls == [] then s else Run(b, Apply(b, s, calls[0]), calls[1..])
  }

  /** The number of student accesses among the calls. */
  function StudentCalls(calls: seq<Call>): (r: nat)
    ensures r <= |calls|
  {
    if calls == [] then 0 else (if calls[0].StudentCall? then 1 else 0) + StudentCalls(calls[1..])
  }

  /**
   * `audit_logs` is append-only under the client: every sequence of calls
   * keeps the earlier records in place as a prefix, and each student access
   * adds at least one record.
   */
  lemma {:induction false} AuditAppendOnly(b: Backend, s: State, calls: seq<Call>)
    ensures s.audit <= Run(b, s, calls).audit
    ensures |Run(b, s, calls).audit| >= |s.audit| + StudentCalls(calls)
    decreases |calls|
  {
    if calls != [] {
      var t := Apply(b, s, calls[0]);
      assert s.audit <= t.audit;
      assert calls[0].StudentCall? ==> |t.audit| == |s.audit| + 1;
      AuditAppendOnly(b, t, calls[1..]);
    }
  }

  lemma CleanupCollectionsDistinct()
    ensures Distinct(CleanupCollections)
  {
  }

  /** With no stale document left, a sweep deletes nothing and logs nothing. */
  lemma {:induction false} SweepClean(s: State, names: seq<string>, cutoff: string, now: int)
    requires forall c :: c in names ==> StaleCount(Docs(s, c), cutoff) == 0
    ensures Sweep(s, names, cutoff, now) == Swept(s, 0)
    decreases |names|
  {
    if names != [] {
      SweepClean(s, names[1..], cutoff, now);
    }
  }

  /** Cleaning up twice with the same clock deletes nothing the second time and changes nothing. */
  lemma CleanupIdempotent(s: State, clock: Clock, days: Option<int>)
    requires CleanupOldData(s, clock, days).Ok?
    ensures var once := CleanupOldData(s, clock, days).value;
      CleanupOldData(once.state, clock, days) == Ok(Swept(once.state, 0))
  {
    var once := CleanupOldData(s, clock, days).value;
    var cutoff := clock.iso(Cutoff(clock.now, days.GetOr(DefaultRetentionDays)).value);
    forall c | c in CleanupCollections
      ensures StaleCount(Docs(once.state, c), cutoff) == 0
    {
      assert Docs(once.state, c) == Retained(Docs(s, c), cutoff);
    }
    SweepClean(once.state, CleanupCollections, cutoff, clock.now);
  }

  // ---------------------------------------------------------------------------
  // `get_course_analytics`

  /** Python `dict` key equality: `True == 1` and `False == 0`. */
  function HashKey(v: Value): Value {
    match v
    case Bool(b) => Num(if b then 1.0 else 0.0)
    case _ => v
  }

  /** Lists and dicts cannot be `dict` keys. */
  predicate Hashable(v: Value) {
    !v.Arr? && !v.Obj?
  }

  datatype TypeCount = TypeCount(key: Value, count: nat)

  /** How many of `keys` equal `h` as `dict` keys. */
  function Occurrences(keys: seq<Value>, h: Value): nat {
    if keys == [] then 0
    else Occurrences(keys[..|keys| - 1], h) + (if HashKey(keys[|keys| - 1]) == h then 1 else 0)
  }

  function SumCounts(ts: seq<TypeCount>): nat {
    if ts == [] then 0 else ts[0].count + SumCounts(ts[1..])
  }

  /** The keys of a tally are distinct as `dict` keys. */
  predicate DistinctKeyed(ts: seq<TypeCount>) {
    forall i, j :: 0 <= i < j < |ts| ==> HashKey(ts[i].key) != HashKey(ts[j].key)
  }

  /** `counts[k] = counts.get(k, 0) + 1`: the entry equal to `k` grows, or `k` is appended with 1. */
  function Bump(ts: seq<TypeCount>, k: Value): (r: seq<TypeCount>)
    ensures |r| == |ts| || r == ts + [TypeCount(k, 1)]
    ensures SumCounts(r) == SumCounts(ts) + 1
    ensures forall i :: 0 <= i < |ts| ==> r[i].key == ts[i].key
    ensures DistinctKeyed(ts) ==> forall i :: 0 <= i < |ts| ==>
      r[i].count == ts[i].count + (if HashKey(ts[i].key) == HashKey(k) then 1 else 0)
    ensures |r| == |ts| + 1 <==> forall i :: 0 <= i < |ts| ==> HashKey(ts[i].key) != HashKey(k)
    ensures DistinctKeyed(ts) ==> DistinctKeyed(r)
  {
    var j := FindKey(ts, HashKey(k));
    if j == |ts| then
      SumCountsAppend(ts, TypeCount(k, 1));
      ts + [TypeCount(k, 1)]
    else
      var r := ts[j := TypeCount(ts[j].key, ts[j].count + 1)];
      SumCountsUpdate(ts, j, r[j]);
      assert DistinctKeyed(ts) ==> DistinctKeyed(r) by {
        if DistinctKeyed(ts) { SameKeysDistinct(ts, r); }
      }
      r
  }

  /** `counts.get(k)`: the position of the first entry equal to `h` as a `dict` key, or `|ts|` when none is. */
  function FindKey(ts: seq<TypeCount>, h: Value): (j: nat)
    ensures j <= |ts|
    ensures j < |ts| ==> HashKey(ts[j].key) == h
    ensures forall i :: 0 <= i < j ==> HashKey(ts[i].key) != h
  {
    if ts == [] then 0
    else if HashKey(ts[0].key) == h then 0
    else
      var j := FindKey(ts[1..], h);
      assert forall i :: 0 < i <= j ==> ts[i] == ts[1..][i - 1];
      1 + j
  }

  lemma {:induction false} SumCountsAppend(ts: seq<TypeCount>, t: TypeCount)
    ensures SumCounts(ts + [t]) == SumCounts(ts) + t.count
  {
    if ts != [] {
      assert (ts + [t])[1..] == ts[1..] + [t];
      SumCountsAppend(ts[1..], t);
    }
  }

  lemma {:induction false} SumCountsUpdate(ts: seq<TypeCount>, j: nat, t: TypeCount)
    requires j < |ts|
    ensures SumCounts(ts[j := t]) == SumCounts(ts) - ts[j].count + t.count
  {
    if j > 0 {
      assert ts[j := t][1..] == ts[1..][j - 1 := t];
      SumCountsUpdate(ts[1..], j - 1, t);
    }
  }

  /** Renaming no key keeps the keys distinct. */
  lemma SameKeysDistinct(ts: seq<TypeCount>, r: seq<TypeCount>)
    requires DistinctKeyed(ts) && |r| == |ts|
    requires forall i :: 0 <= i < |ts| ==> r[i].key == ts[i].key
    ensures DistinctKeyed(r)
  {
  }

  /** The `enrollment_types` loop over the enrollments' types. */
  function Tally(keys: seq<Value>): (r: seq<TypeCount>)
    ensures DistinctKeyed(r)
    ensures SumCounts(r) == |keys|
  {
    if keys == [] then [] else Bump(Tally(keys[..|keys| - 1]), keys[|keys| - 1])
  }

  lemma {:induction false} OccurrencesAbsent(keys: seq<Value>, h: Value)
    requires forall i :: 0 <= i < |keys| ==> HashKey(keys[i]) != h
    ensures Occurrences(keys, h) == 0
  {
    if keys != [] {
      OccurrencesAbsent(keys[..|keys| - 1], h);
    }
  }

  /** Every key of the tally is one of the keys tallied, the first of its kind. */
  lemma {:induction false} TallyKeys(keys: seq<Value>)
    ensures forall j :: 0 <= j < |Tally(keys)| ==> Tally(keys)[j].key in keys
  {
    if keys != [] {
      var init := keys[..|keys| - 1];
      TallyKeys(init);
      assert forall v :: v in init ==> v in keys;
    }
  }

  /** Some entry of the tally has the key `v`, as `dict` keys compare. */
  predicate Covered(ts: seq<TypeCount>, v: Value) {
    exists j :: 0 <= j < |ts| && HashKey(ts[j].key) == HashKey(v)
  }

  lemma BumpCovers(ts: seq<TypeCount>, k: Value, v: Value)
    requires Covered(ts, v) || v == k
    ensures Covered(Bump(ts, k), v)
  {
    var r := Bump(ts, k);
    if Covered(ts, v) {
      var j :| 0 <= j < |ts| && HashKey(ts[j].key) == HashKey(v);
      assert r[j].key == ts[j].key;
    } else {
      assert r[|ts|].key == k;
    }
  }

  /** Every key tallied has its entry. */
  lemma {:induction false} TallyCovers(keys: seq<Value>)
    ensures forall v :: v in keys ==> Covered(Tally(keys), v)
  {
    if keys != [] {
      var init := keys[..|keys| - 1];
      var k := keys[|keys| - 1];
      TallyCovers(init);
      assert keys == init + [k];
      assert Tally(keys) == Bump(Tally(init), k);
      BumpCoversAll(Tally(init), init, k);
    }
  }

  lemma BumpCoversAll(ts: seq<TypeCount>, init: seq<Value>, k: Value)
    requires forall v :: v in init ==> Covered(ts, v)
    ensures forall v :: v in init + [k] ==> Covered(Bump(ts, k), v)
  {
    forall v | v in init + [k]
      ensures Covered(Bump(ts, k), v)
    {
      BumpCovers(ts, k, v);
    }
  }

  /** Each entry of the tally counts exactly the keys equal to it. */
  lemma {:induction false} TallyCounts(keys: seq<Value>)
    ensures forall j :: 0 <= j < |Tally(keys)| ==>
      Tally(keys)[j].count == Occurrences(keys, HashKey(Tally(keys)[j].key))
  {
    if keys != [] {
      var init := keys[..|keys| - 1];
      var k := keys[|keys| - 1];
      TallyCounts(init);
      TallyCovers(init);
      var ts := Tally(init);
      var r := Tally(keys);
      assert r == Bump(ts, k);
      forall j | 0 <= j < |r|
        ensures r[j].count == Occurrences(keys, HashKey(r[j].key))
      {
        if j == |ts| {
          assert r[j] == TypeCount(k, 1);
          forall i | 0 <= i < |init|
            ensures HashKey(init[i]) != HashKey(k)
          {
            assert init[i] in init;
            var j' :| 0 <= j' < |ts| && HashKey(ts[j'].key) == HashKey(init[i]);
          }
          OccurrencesAbsent(init, HashKey(k));
        }
      }
    }
  }

  /** Python truthiness of a stored value. */
  predicate Truthy(v: Value) {
    match v
    case Null => false
    case Bool(b) => b
    case Num(n) => n != 0.0
    case Str(t) => t != []
    case Arr(items) => items != []
    case Obj(fields) => fields != []
  }

  /** A truthy score that `sum` cannot add to a number. */
  predicate BadScore(d: Doc) {
    var v := GetOr(d, "score", Num(0.0));
    Truthy(v) && !v.Num? && !v.Bool?
  }

  /** The numeric value `sum` adds for one submission; a falsy score adds nothing. */
  function ScoreOf(d: Doc): real {
    match GetOr(d, "score", Num(0.0))
    case Num(n) => n
    case Bool(b) => if b then 1.0 else 0.0
    case _ => 0.0
  }

  /** `sum(s.get('score', 0) for s in submissions if s.get('score'))`, in exact arithmetic. */
  function ScoreSum(subs: seq<Doc>): (r: Result<real>)
    ensures r.Err? <==> exists i :: 0 <= i < |subs| && BadScore(subs[i])
  {
    if subs == [] then Ok(0.0)
    else if BadScore(subs[0]) then Err("TypeError")
    else match ScoreSum(subs[1..])
      case Err(e) => Err(e)
      case Ok(t) => Ok(ScoreOf(subs[0]) + t)
  }

  datatype CourseAnalytics = CourseAnalytics(
    courseInfo: Option<Doc>,
    enrollmentCount: nat,
    enrollmentTypes: seq<TypeCount>,
    assignmentCount: nat,
    submissionCount: nat,
    averageScore: Option<real>)

  function CourseQuery(courseId: string): Doc {
    [Field("course_id", Str(courseId))]
  }

  /** `find` on the first collection, or on the second when the first has nothing. */
  function FirstOf(s: State, primary: string, fallback: string, query: Doc): (r: seq<Doc>)
    ensures forall d :: d in r ==> (d in Docs(s, primary) || d in Docs(s, fallback)) && Matches(d, query)
    ensures r == [] <==> Select(Docs(s, primary), query) == [] && Select(Docs(s, fallback), query) == []
    ensures Select(Docs(s, primary), query) != [] ==> r == Select(Docs(s, primary), query)
    ensures Select(Docs(s, primary), query) == [] ==> r == Select(Docs(s, fallback), query)
  {
    var found := Select(Docs(s, primary), query);
    if found != [] then found else Select(Docs(s, fallback), query)
  }

  function Enrollments(s: State, courseId: string): seq<Doc> {
    FirstOf(s, "canvas_enrollments", "moodle_enrollments", CourseQuery(courseId))
  }

  function Submissions(s: State, courseId: string): seq<Doc> {
    Select(Docs(s, "canvas_submissions"), CourseQuery(courseId))
  }

  function TypeOf(d: Doc): Value {
    GetOr(d, "type", Str("unknown"))
  }

  function TypesOf(docs: seq<Doc>): (r: seq<Value>)
    ensures |r| == |docs| && forall i :: 0 <= i < |docs| ==> r[i] == TypeOf(docs[i])
  {
    if docs == [] then [] else [TypeOf(docs[0])] + TypesOf(docs[1..])
  }

  predicate UnhashableType(enrollments: seq<Doc>) {
    exists i :: 0 <= i < |enrollments| && !Hashable(TypeOf(enrollments[i]))
  }

  /**
   * `get_course_analytics`: the course from Canvas or else Moodle, its
   * enrollments from Canvas or else Moodle, counted by `type` (missing types
   * as `"unknown"`), its Canvas assignments and submissions, and the mean
   * truthy score over all submissions. An unhashable type or a score `sum`
   * cannot add raises.
   */
  function GetCourseAnalytics(s: State, courseId: string): (r: Result<CourseAnalytics>)
    ensures r.Err? <==> UnhashableType(Enrollments(s, courseId))
                        || exists i :: 0 <= i < |Submissions(s, courseId)| && BadScore(Submissions(s, courseId)[i])
    ensures r.Ok? ==> r.value.enrollmentCount == |Enrollments(s, courseId)|
    ensures r.Ok? ==> r.value.enrollmentTypes == Tally(TypesOf(Enrollments(s, courseId)))
    ensures r.Ok? ==> r.value.submissionCount == |Submissions(s, courseId)|
    ensures r.Ok? ==> r.value.assignmentCount == |Select(Docs(s, "canvas_assignments"), CourseQuery(courseId))|
    ensures r.Ok? ==> (r.value.averageScore.Some? <==> Submissions(s, courseId) != [])
    ensures r.Ok? && Submissions(s, courseId) != [] ==>
      && ScoreSum(Submissions(s, courseId)).Ok?
      && r.value.averageScore.value == ScoreSum(Submissions(s, courseId)).value / (|Submissions(s, courseId)| as real)
    ensures r.Ok? ==>
      (r.value.courseInfo.Some? <==> FirstOf(s, "canvas_courses", "moodle_courses", CourseQuery(courseId)) != [])
    ensures r.Ok? && r.value.courseInfo.Some? ==>
      var info := r.value.courseInfo.value;
      && (info in Docs(s, "canvas_courses") || info in Docs(s, "moodle_courses"))
      && Matches(info, CourseQuery(courseId))
    ensures r.Ok? && Select(Docs(s, "canvas_courses"), CourseQuery(courseId)) != [] ==>
      r.value.courseInfo == Some(Select(Docs(s, "canvas_courses"), CourseQuery(courseId))[0])
    ensures r.Ok? && Select(Docs(s, "canvas_courses"), CourseQuery(courseId)) == [] ==>
      r.value.courseInfo ==
        (if Select(Docs(s, "moodle_courses"), CourseQuery(courseId)) == [] then None
         else Some(Select(Docs(s, "moodle_courses"), CourseQuery(courseId))[0]))
  {
    var query := CourseQuery(courseId);
    var courses := FirstOf(s, "canvas_courses", "moodle_courses", query);
    var enrollments := Enrollments(s, courseId);
    var submissions := Submissions(s, courseId);
    if UnhashableType(enrollments) then Err("TypeError")
    else match ScoreSum(submissions)
      case Err(e) => Err(e)
      case Ok(total) =>
        var info := if courses != [] then Some(courses[0]) else None;
        assert courses != [] ==> courses[0] in courses;
        Ok(CourseAnalytics(
          info,
          |enrollments|,
          Tally(TypesOf(enrollments)),
          |Select(Docs(s, "canvas_assignments"), query)|,
          |submissions|,
          if submissions != [] then Some(total / (|submissions| as real)) else None))
  }

  /**
   * Canvas takes precedence: when Canvas holds both the course and its
   * enrollments, what Moodle holds does not change the analytics.
   */
  lemma CanvasShadowsMoodle(s: State, t: State, courseId: string)
    requires forall c :: c != "moodle_courses" && c != "moodle_enrollments" ==> Docs(s, c) == Docs(t, c)
    requires Select(Docs(s, "canvas_courses"), CourseQuery(courseId)) != []
    requires Select(Docs(s, "canvas_enrollments"), CourseQuery(courseId)) != []
    ensures GetCourseAnalytics(s, courseId) == GetCourseAnalytics(t, courseId)
  {
    assert Docs(s, "canvas_courses") == Docs(t, "canvas_courses");
    assert Docs(s, "canvas_enrollments") == Docs(t, "canvas_enrollments");
    assert Docs(s, "canvas_assignments") == Docs(t, "canvas_assignments");
    assert Docs(s, "canvas_submissions") == Docs(t, "canvas_submissions");
    assert Enrollments(s, courseId) == Enrollments(t, courseId);
  }

  /**
   * The enrollment types partition the enrollments: the counts add up to the
   * enrollment count, no two keys are equal as `dict` keys, each count is the
   * number of enrollments of that type, and every enrollment's type is there.
   */
  lemma EnrollmentTypesPartition(s: State, courseId: string)
    requires GetCourseAnalytics(s, courseId).Ok?
    ensures var a := GetCourseAnalytics(s, courseId).value;
      var types := TypesOf(Enrollments(s, courseId));
      && SumCounts(a.enrollmentTypes) == a.enrollmentCount
      && DistinctKeyed(a.enrollmentTypes)
      && (forall j :: 0 <= j < |a.enrollmentTypes| ==>
            a.enrollmentTypes[j].count == Occurrences(types, HashKey(a.enrollmentTypes[j].key)))
      && (forall v :: v in types ==> Covered(a.enrollmentTypes, v))
  {
    TallyCounts(TypesOf(Enrollments(s, courseId)));
    TallyCovers(TypesOf(Enrollments(s, courseId)));
  }

  /** `top` added up `n` times. */
  function Cap(top: real, n: nat): real {
    if n == 0 then 0.0 else Cap(top, n - 1) + top
  }

  lemma {:induction false} CapIsProduct(top: real, n: nat)
    ensures Cap(top, n) == top * (n as real)
  {
    if n > 0 {
      CapIsProduct(top, n - 1);
    }
  }

  lemma {:induction false} ScoreSumBounded(subs: seq<Doc>, top: real)
    requires forall i :: 0 <= i < |subs| ==> !BadScore(subs[i]) && 0.0 <= ScoreOf(subs[i]) <= top
    ensures ScoreSum(subs).Ok?
    ensures 0.0 <= ScoreSum(subs).value <= Cap(top, |subs|)
  {
    if subs != [] {
      ScoreSumBounded(subs[1..], top);
      assert |subs[1..]| == |subs| - 1;
    }
  }

  lemma MeanBounded(t: real, n: nat, top: real)
    requires n > 0 && 0.0 <= t <= Cap(top, n)
    ensures 0.0 <= t / (n as real) <= top
  {
    CapIsProduct(top, n);
  }

  /** Scores within `[0, top]` make an average within `[0, top]`. */
  lemma AverageScoreBounded(s: State, courseId: string, top: real)
    requires top >= 0.0
    requires GetCourseAnalytics(s, courseId).Ok?
    requires forall i :: 0 <= i < |Submissions(s, courseId)| ==> 0.0 <= ScoreOf(Submissions(s, courseId)[i]) <= top
    ensures var a := GetCourseAnalytics(s, courseId).value;
      a.averageScore.Some? ==> 0.0 <= a.averageScore.value <= top
  {
    var subs := Submissions(s, courseId);
    var a := GetCourseAnalytics(s, courseId).value;
    assert forall i :: 0 <= i < |subs| ==> !BadScore(subs[i]);
    ScoreSumBounded(subs, top);
    if subs != [] {
      var t := ScoreSum(subs).value;
      assert a.averageScore.value == t / (|subs| as real);
      MeanBounded(t, |subs|, top);
    }
  }
}
