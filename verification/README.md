# Student data platform: privacy transformer, MongoDB client, dashboard advice

This project models the privacy core of a student-data ingestion platform.
Records collected from Canvas, Moodle, attendance and library systems pass
through a FERPA privacy transformer before they are stored. The model covers:

- **The privacy transformer.** Environment toggles; the email, phone and SSN
  masks; the free-text scrub of a record; consistent `anon_` pseudonyms; the
  student, attendance and library anonymisers; the FERPA compliance validator;
  the privacy report.
- **The MongoDB client, over an in-memory store.** `store_data` in upsert mode
  and in bulk mode with its per-document fallback; `get_collection_data`;
  `get_student_data`; `get_course_analytics`; `cleanup_old_data`; the two
  audit-log writers.
- **The dashboard's `generate_recommendations`.**

A record is an ordered association list (`Json.Doc`), so Python dict order is
kept. That order shows up in the order of validator issues and in document
equality in the store.

Anything the code calls but that is not part of the model is a parameter:

- regular-expression detectors, the SHA-256 digest, Fernet encryption and
  `str()` of a non-string: `Privacy.Primitives`;
- which collection names the driver refuses, which documents it cannot encode
  as BSON, and which documents the server rejects: `Store.Backend`;
- the current time and its ISO rendering: `Store.Clock`, or a `now` argument;
- the `{:.1f}` rendering of the attendance rate: a function argument of
  `Dashboard.GenerateRecommendations`.

Where the prose description of the system and the code disagree, the model
follows the code:

- A mask replaces the whole string value it fires on, not just the matched
  substring.
- The batch anonymisers re-raise on failure instead of skipping the record.
- `_mask_email` turns a local part of one or two characters into all stars.
  So `ab@x.org` becomes `**@x.org`.
- The anonymised student record keeps its (scrubbed) `student_id` next to
  `anonymous_id`. Only attendance and library records lose `student_id`.
- `store_data` with an empty `upsert_key` takes the bulk path, because `""` is
  falsy.

## Model

| member | source | states |
|---|---|---|
| Privacy.ToggleFromEnv | scripts/utils/privacy_utils.py:39-41 | An unset variable enables the toggle. A set one enables it iff its value is `true` in any mix of upper and lower case (`SpellsTrue`), so `"false"` disables it. |
| Masking.MaskEmail | scripts/utils/privacy_utils.py:252-264 | Same length as the input. Everything from the first `@` on is kept. A local part of more than two characters keeps its first and last character and stars the rest; a shorter one is all stars; a string without `@` comes back unchanged. |
| Masking.MaskEmailIdempotent | scripts/utils/privacy_utils.py:252-264 | Masking an already masked email changes nothing. |
| Masking.IndexOf | scripts/utils/privacy_utils.py:256 | `split('@', 1)` splits at the first `@`: the position holds `@` and no earlier position does. |
| Masking.MaskPhone | scripts/utils/privacy_utils.py:266-275 | Always 12 characters starting `***-***-`. The tail is the last four characters `\d` matches when the value has at least ten of them, non-ASCII decimal digits included, and `****` otherwise. |
| Masking.MaskPhoneRevealsLastFour | scripts/utils/privacy_utils.py:266-275 | The only digits a masked phone shows are the last four digits of the original, and none when it had fewer than ten. The mask adds no digit of its own. |
| Masking.MaskSsn | scripts/utils/privacy_utils.py:277-279 | An 11-character ASCII mask that contains no digit. |
| Masking.MaskSsnReveals | scripts/utils/privacy_utils.py:277-279 | No digit of the SSN reaches the mask, and every SSN masks to the same string. |
| Strings.Digits | scripts/utils/privacy_utils.py:270 | `re.sub(r'\D', '', s)` keeps exactly the characters of `s` that `\d` matches, in order: ASCII digits and non-ASCII characters of Unicode category Nd. Every kept character is one, every one of `s` is kept, and nothing else is. |
| Strings.NatToStringRoundTrip | scripts/utils/mongodb_client.py:297 | The decimal rendering of a count reads back as that count. |
| Privacy.Scrub | scripts/utils/privacy_utils.py:191-209 | `_anonymize_record` keeps keys, their order and non-string values. A string goes to the email mask if the email detector fires, else to the phone mask if the phone detector fires, else to the SSN mask if the SSN detector fires, else stays. |
| Privacy.ScrubGet | scripts/utils/privacy_utils.py:195-207 | Key lookup on the scrubbed record gives the masked value of the same key, and the key set is unchanged. |
| Privacy.AnonymousId | scripts/utils/privacy_utils.py:215-220 | A pseudonym is `anon_` and then the first 16 characters of the hexadecimal digest: 21 characters, all hex after the prefix. |
| Privacy.PseudonymJoinsCollections | scripts/utils/privacy_utils.py:83-86 | A student record and an activity record whose `student_id`s render the same get the same `anonymous_id`. That is the join key across collections. |
| Naming.ProtectedNameInjective | scripts/utils/privacy_utils.py:93-100 | Distinct fields get distinct `_encrypted`/`_hash` names. |
| Naming.PiiNamingIsSound | scripts/utils/privacy_utils.py:52-60 | No protected name is itself a PII field, and no two PII fields share a protected name. |
| Naming.ProtectedNameIsFree | scripts/utils/privacy_utils.py:83-106 | A protected name never collides with a PII field, `student_id`, `anonymous_id`, `anonymized_at` or `privacy_level`. |
| Privacy.ProtectStepGet | scripts/utils/privacy_utils.py:90-102 | One pass of the PII loop on a present field removes it, adds its protected copy holding the encrypted or hashed value, and changes no other key. An absent field changes nothing. |
| Privacy.ProtectPiiGet | scripts/utils/privacy_utils.py:89-102 | After the whole PII loop, every PII field is gone. Each present one has its protected copy of its value. Every key that is neither a PII field nor a protected name keeps its value. |
| Privacy.StudentRecordGet | scripts/utils/privacy_utils.py:79-106 | Key by key, the anonymised student record equals an order-free description of it (`StudentFieldSpec`). |
| Privacy.StudentRecordShape | scripts/utils/privacy_utils.py:79-106 | In the anonymised student record: no PII field; each present PII field's protected copy is the encrypted (sensitive) or hashed form of its scrubbed value; `anonymous_id` is the pseudonym of the original `student_id` when there is one; `anonymized_at` is now; `privacy_level` is `ferpa_compliant`; `student_id` is kept, scrubbed. |
| Privacy.StudentRecordDropsPii | scripts/utils/privacy_utils.py:89-102 | No PII field survives student anonymisation. |
| Privacy.StudentRecordProtectsPii | scripts/utils/privacy_utils.py:91-101 | Every PII field present in the input has its protected copy of the scrubbed value. |
| Privacy.StudentRecordFixedKeys | scripts/utils/privacy_utils.py:83-106 | The pseudonym, the two provenance keys and the scrubbed `student_id` hold the values stated above. |
| Privacy.StudentRecordKeepsDistinct | scripts/utils/privacy_utils.py:79-106 | A record with distinct keys stays one with distinct keys. |
| Privacy.AnonymizeStudentData | scripts/utils/privacy_utils.py:62-123 | Disabled: the input comes back unchanged. Enabled: the result has the same length, and record `i` is the anonymisation of input record `i`. |
| Privacy.DropFields | scripts/utils/privacy_utils.py:144-146 | Deleting the listed fields removes exactly those keys and keeps every other value. |
| Privacy.ActivityRecordShape | scripts/utils/privacy_utils.py:133-149 | An anonymised attendance or library record has no `student_id` and no PII field. It holds no hashed or encrypted copy beyond what the scrub left. `anonymous_id` is the pseudonym when a `student_id` was present. `anonymized_at` is now. `privacy_level` is not added. Every other key keeps its scrubbed value. |
| Privacy.AnonymizeAttendanceData | scripts/utils/privacy_utils.py:125-156 | Disabled: the input unchanged. Enabled: record by record the activity anonymisation, length kept. |
| Privacy.AnonymizeLibraryData | scripts/utils/privacy_utils.py:158-189 | Disabled: the input unchanged. Enabled: record by record the activity anonymisation, length kept. |
| Compliance.ChildPath | scripts/utils/privacy_utils.py:309 | A nested key's path is `path.key`, or just `key` at the top. |
| Compliance.PatternHits | scripts/utils/privacy_utils.py:316-319 | The pattern hits of one string are exactly the detectors that fire on it, at its path. |
| Compliance.ScanFindsNames | scripts/utils/privacy_utils.py:306-327 | The walk reports a field-name hit iff some key anywhere in the value, lower-cased, is a PII field. |
| Compliance.ScanFindsPatterns | scripts/utils/privacy_utils.py:306-327 | A reported detector hit always comes from a string in the value. In the list-aware walk, every detecting string is reported. |
| Compliance.AsWrittenFindsPatterns | scripts/utils/privacy_utils.py:306-327 | The walk as written flags a detector iff the detector fires on some string that is directly the value of a dict key, at any depth, reached through dicts and lists (`ValueStrings`). |
| Compliance.TopLevelNameHit | scripts/utils/privacy_utils.py:312-313 | A top-level PII key appears in the hits under its own name. |
| Compliance.TopLevelPatternIssue | scripts/utils/privacy_utils.py:309-334 | A top-level string value some detector fires on yields the issue `PII found in field: key (kind)`, in either walk. |
| Compliance.FieldPatternHit | scripts/utils/privacy_utils.py:309-319 | A string held by key `f` of a dict walked at `path`, on which a detector fires, is reported with the path `path.f` (just `f` at the top) and that detector's kind, in either walk. |
| Compliance.NestedHit | scripts/utils/privacy_utils.py:309-322 | Anything the walk of a key's value reports is also reported by the walk of the enclosing dict, under the same path. Together with FieldPatternHit this locates a hit at any depth. |
| Compliance.HitIsIssue | scripts/utils/privacy_utils.py:330-334 | Every hit of the walk becomes an issue. |
| Compliance.Validate | scripts/utils/privacy_utils.py:281-351 | Compliant iff there are no hits. There is one `PII found in field:` issue per hit, in walk order, plus the missing-metadata issue exactly when a dict with hits lacks `anonymized_at`. The disabled-mode note, the anonymisation advice and the `privacy_level` advice each appear exactly when their condition holds, in that order: the note first, the anonymisation advice right after it, the `privacy_level` advice last. |
| Compliance.Issues | scripts/utils/privacy_utils.py:330-344 | One `PII found in field:` entry per hit, in order, then the missing-metadata issue exactly when it is due. |
| Compliance.Recommendations | scripts/utils/privacy_utils.py:298-349 | Each of the three texts appears exactly when its condition holds: the disabled-mode note first, the anonymisation advice right after it, the `privacy_level` advice last. |
| Compliance.AsWrittenFlagsOnlyPii | scripts/utils/privacy_utils.py:281-337 | The validator as written flags only data that has a PII key or a detecting string (no false positives). |
| Compliance.ListAwareFlagsExactlyPii | scripts/utils/privacy_utils.py:306-337 | With list elements scanned, the validator flags data iff it has a PII key or a string some detector fires on. |
| Compliance.ListedEmailIsMissed | scripts/utils/privacy_utils.py:324-326 | `{"contacts": [email]}` holds a detected email, yet the validator as written calls it compliant. The list-aware validator reports `contacts[0] (email)`. |
| Compliance.GeneratePrivacyReport | scripts/utils/privacy_utils.py:382-415 | The report mirrors the three toggles, lists the collections and sets `field_encryption` and `pii_detection`. Each enable-advice line appears exactly when its toggle is off. |
| Compliance.ReportRecommendations | scripts/utils/privacy_utils.py:400-413 | There are no recommendations iff all three toggles are on. With all three off, they come in the order FERPA, anonymisation, audit. |
| Compliance.DefaultReportIsClean | scripts/utils/privacy_utils.py:39-41 | With no environment variables set, the report carries no recommendations. |
| Compliance.ReportFromEnv | scripts/utils/privacy_utils.py:39-41 | From the environment to the report: each enable-advice line appears iff its variable is set to something other than `true` up to case. |
| Compliance.FerpaNoteAgreesWithReport | scripts/utils/privacy_utils.py:298-301 | The validator's FERPA-disabled note and the report's FERPA advice follow the same toggle. |
| Store.LogDataOperation | scripts/utils/mongodb_client.py:349-366 | Appends exactly one data-operation record with the given counts and changes no collection. |
| Store.LogAuditEvent | scripts/utils/mongodb_client.py:368-382 | Appends exactly one access record and changes no collection. |
| Store.Select | scripts/utils/mongodb_client.py:234 | `find` returns exactly the stored documents whose top-level fields match the filter. Each filter key is read as a field name. |
| Store.DottedKeyIsLiteral | scripts/utils/mongodb_client.py:234 | A dotted filter key is a literal top-level name: `{"address.city": "Paris"}` selects nothing from `[{"address": {"city": "Paris"}}]`. |
| Store.GetCollectionData | scripts/utils/mongodb_client.py:210-254 | Raises iff the driver refuses the name. With no limit or a zero limit, it returns exactly the matching documents in natural order, matched on top-level fields. With any other limit `n`, it returns all of them when there are at most `abs(n)`, and otherwise the first `abs(n)`. |
| Store.LimitPrefix | scripts/utils/mongodb_client.py:239-240 | A smaller positive limit reads a prefix of what a larger one reads. |
| Store.TryInsert | scripts/utils/mongodb_client.py:71-92 | `insert_one` succeeds iff the driver can encode the document, the server accepts it, and it collides with no stored `_id` or unique-index value. A document that is encoded and accepted but collides raises `DuplicateKeyError`. |
| Store.UpsertOne | scripts/utils/mongodb_client.py:155-174 | A document without the key is inserted or fails. One with the key replaces the first match, is inserted when nothing matches, or leaves an identical match alone. A replacement changes exactly that one position. An insert counts unless it was an upsert whose `_id` is falsy (`if result.upserted_id:`). |
| Store.UpsertReadsBack | scripts/utils/mongodb_client.py:156-162 | After a successful upsert, the query on the key first finds a document agreeing with the stored one on every field. The source behaves so for an upsert key without a dot. |
| Store.UpsertAllCountsSteps | scripts/utils/mongodb_client.py:154-174 | Over the step trace of the loop: `inserted` is the number of counted inserts, `updated` of replacements that changed a document, `failed` of steps that raised. Uncounted inserts account for the rest of the growth. |
| Store.UpsertIdempotent | scripts/utils/mongodb_client.py:154-174 | Upserting the same data again reports nothing and changes nothing, when each document carries the key with a distinct value that is neither null nor a list and the first run raised nowhere. The source behaves so for an upsert key without a dot. |
| Store.StepSettles | scripts/utils/mongodb_client.py:156-162 | After a step that did not raise, upserting the same document again would change nothing. |
| Store.StepKeepsSettled | scripts/utils/mongodb_client.py:156-174 | A step on one document keeps settled any earlier document with another plain key value. |
| Store.BulkAppendsAdded | scripts/utils/mongodb_client.py:178 | An unordered `insert_many` appends, in order, exactly the documents it added. |
| Store.InsertMany | scripts/utils/mongodb_client.py:178 | `insert_many` appends exactly the documents it reports added. When the driver cannot encode some document, it adds none and stores nothing. |
| Store.InsertAll | scripts/utils/mongodb_client.py:176-192 | The bulk path never updates and only appends. When every document is added, all of `data` is appended and counted. Otherwise the documents `insert_many` stored are counted nowhere: the collection grows by the reported inserts plus exactly those. When the driver refused the bulk call, nothing goes uncounted. |
| Store.StoreData | scripts/utils/mongodb_client.py:128-208 | Empty `data` changes nothing. Otherwise it raises iff the name is refused. On success it writes exactly one `store` audit record with total, inserted and updated, and changes no other collection. inserted + updated + failed never exceeds the input. The collection grows by at least the inserted count and by at most the input less updates and failures. The bulk path keeps the old documents as a prefix and updates nothing. |
| Store.BulkSuccess | scripts/utils/mongodb_client.py:178-179 | A bulk insert that adds everything reports `(len(data), 0, 0)` and appends the data. |
| Store.BulkFallbackUndercounts | scripts/utils/mongodb_client.py:176-192 | Two equal new students: one is stored, but the code as written reports 0 inserted. The corrected count reports 1. |
| Store.FalsyIdUpsertUncounted | scripts/utils/mongodb_client.py:164-165 | `{"_id": 0, "k": 1}` upserted on `k` into an empty collection is stored, yet the code as written reports 0 inserted. The corrected count reports 1. |
| Store.StoredReadsBack | scripts/utils/mongodb_client.py:178-179 | Reading back: after a bulk insert that adds everything, `get_collection_data` with no filter and no limit returns the earlier documents followed by `data`. |
| Store.StoreDataCounted | scripts/utils/mongodb_client.py:152-195 | Same outcome, documents, updates, failures and audit shape as `store_data`, with an inserted count at least as large. In both modes the collection grows by exactly the reported inserted count. |
| Store.UnencodableRetriesAll | scripts/utils/mongodb_client.py:176-192 | When the driver cannot encode some document, the fallback retries every document. It stores none uncounted, and it fails exactly the documents a single write refuses, so at least one. |
| Store.UnencodableCountsExactly | scripts/utils/mongodb_client.py:152-195 | With such a document, `store_data` counts exactly what it stored, and its result equals the corrected `StoreDataCounted`. |
| Store.UnencodableFallsBack | scripts/utils/mongodb_client.py:176-192 | `store_data("logs", [g, x])` with `x` unencodable stores `[g]` and reports one inserted, one failed. |
| Store.SelectIdQuery | scripts/utils/mongodb_client.py:284-285 | The query `{field: id}` selects exactly the documents whose field equals the id or lists it. |
| Store.StudentDocs | scripts/utils/mongodb_client.py:279-293 | A refused name gives nothing. Otherwise it returns the documents matching `student_id`, and only when there are none, those matching `user_id`. |
| Store.GetStudentData | scripts/utils/mongodb_client.py:256-303 | The result holds exactly the requested collections (seven by default) that have documents for the student, with those documents. No collection changes. One `student_data_access` record is appended, saying how many collections were read. |
| Store.AccessDetailsReadBack | scripts/utils/mongodb_client.py:296-297 | The `details` text `Accessed data from N collections` reads back as `N`. |
| Store.StudentAccessReadsBack | scripts/utils/mongodb_client.py:296-297 | The last audit record after `get_student_data` names the action, the student and the time, and its details read back as the number of collections returned. |
| Store.Cutoff | scripts/utils/mongodb_client.py:387 | `utcnow() - timedelta(days)` raises iff the day count or the resulting date is out of Python's range. |
| Store.Retained | scripts/utils/mongodb_client.py:401-403 | `delete_many` with `$lt` keeps exactly the documents that are not stale. Retained plus stale make up the collection. |
| Store.Step | scripts/utils/mongodb_client.py:398-416 | One collection: stale documents are removed, nothing else changes, and a `cleanup` record is written only when something was deleted. |
| Store.SweepTotal | scripts/utils/mongodb_client.py:396-406 | The returned total plus what remains equals what there was. |
| Store.SweepLog | scripts/utils/mongodb_client.py:408-412 | The audit log gains one `cleanup` record per collection that had stale documents, in list order, with its count. |
| Store.CleanupOldData | scripts/utils/mongodb_client.py:384-423 | Raises iff the cutoff cannot be computed. Otherwise the ten listed collections keep only their non-stale documents and no other collection changes. The total accounts for every removed document, and the audit log is as above. |
| Store.CleanupIdempotent | scripts/utils/mongodb_client.py:384-419 | A second cleanup with the same clock deletes nothing and logs nothing. |
| Store.AuditAppendOnly | scripts/utils/mongodb_client.py:349-382 | Over any sequence of `store_data`, `get_student_data` and `cleanup_old_data` calls, the earlier audit records stay in place as a prefix. Each student access adds at least one record. |
| Store.Bump | scripts/utils/mongodb_client.py:327-329 | `counts[k] = counts.get(k, 0) + 1`: the entry equal to `k` as a dict key grows by one, or `k` is appended with 1. Keys stay distinct. |
| Store.Tally | scripts/utils/mongodb_client.py:324-329 | The type counts have distinct keys and add up to the number of enrollments. |
| Store.TallyCounts | scripts/utils/mongodb_client.py:326-329 | Each type's count is the number of enrollments of that type. |
| Store.TallyCovers | scripts/utils/mongodb_client.py:326-329 | Every type that occurs has an entry. |
| Store.ScoreSum | scripts/utils/mongodb_client.py:340 | The sum raises iff some truthy score is neither a number nor a bool. |
| Store.FirstOf | scripts/utils/mongodb_client.py:311-313 | The Canvas result when it is non-empty, otherwise the Moodle result: empty iff both are. |
| Store.GetCourseAnalytics | scripts/utils/mongodb_client.py:305-347 | Raises iff an enrollment type is unhashable or a score cannot be summed. Otherwise it gives the enrollment count, the type tally, the assignment and submission counts, and an average score present iff there are submissions, equal to the truthy-score sum over the submission count. The course info is the first Canvas match, or the first Moodle match when Canvas has none, or absent. |
| Store.CanvasShadowsMoodle | scripts/utils/mongodb_client.py:311-321 | When Canvas holds the course and its enrollments, changing the Moodle collections does not change the analytics. |
| Store.EnrollmentTypesPartition | scripts/utils/mongodb_client.py:323-329 | The type tally partitions the enrollments. |
| Store.AverageScoreBounded | scripts/utils/mongodb_client.py:339-341 | When every score lies in `[0, top]`, so does the average. |
| Dashboard.LowScoreCount | dashboards/student_dashboard.py:211 | Raises iff some score is neither a number nor a bool. Otherwise it is the number of enrollments whose score is below 70 (`LowPositions`), and zero iff there is none. A missing score counts as 100. |
| Dashboard.Advice | dashboards/student_dashboard.py:210-238 | Up to three advisories in fixed order. Each is present exactly when its condition holds: a low score, attendance below 80%, fewer than five checkouts. |
| Dashboard.GenerateRecommendations | dashboards/student_dashboard.py:201-248 | Raises iff a score is incomparable. Otherwise one to three entries in the fixed order, each advisory exactly when its condition holds, and the encouragement exactly when none does, then alone. |
| Dashboard.PerformanceAdviceFirst | dashboards/student_dashboard.py:211-217 | When some score is low, the first entry is the performance advisory carrying the number of low courses. |
| Dashboard.GoodStandingIsEncouraged | dashboards/student_dashboard.py:240-246 | No low score, attendance of at least 80% (or none recorded) and at least five checkouts give exactly the encouragement. |
| Dashboard.MissingScoreIsNotLow | dashboards/student_dashboard.py:211 | An enrollment without `current_score` is never low. |

## Left out

- Logging, `_log_privacy_event` and every `logger` call: they have no effect on results.
- The regular expressions of `pii_patterns` are uninterpreted detectors. Their exact languages are not modelled.
- SHA-256, Fernet and base64 are uninterpreted functions. The digest is typed as 64 lower-case hex characters.
- Privacy.StudentRecordShape: the `_encrypted` copy is stated as `encrypt(value)` for a fixed function `encrypt`. A real Fernet token carries a fresh IV and timestamp, so two encryptions of one value differ. The model promises only that the copy is the encryption of the scrubbed value, not which token it is.
- Privacy.PseudonymJoinsCollections: one `Num` stands for both Python `int` and `float`. So `1001` and `1001.0` are the same `student_id` in the model, although `str()` renders them `1001` and `1001.0`, giving different pseudonyms. The lemma holds for ids that are equal as values of the model. It does not separate ids that differ only in numeric type.
- The MD5 fallbacks of `_generate_anonymous_id` and `_hash_field` and the hashing fallback of `_encrypt_field` are not modelled. They run only when `str.encode()` raises, which happens for a string holding a lone surrogate, and then they raise again. A Dafny string holds Unicode scalar values only, so the model covers strings without lone surrogates.
- `_decrypt_field`, `cleanup_expired_data` and `get_collection_stats` are not modelled.
- Connection setup, `_setup_indexes` as an operation, `test_connection` and `close_connection` are not modelled. The unique indexes it creates are fixed in the model.
- The `except` branches of `_anonymize_record`, `_mask_email` and `_mask_phone` are not modelled. Nothing in their `try` blocks raises on a string without lone surrogates. (`_mask_ssn` has no `except` branch.)
- Compliance.Validate: the walk recurses once per nesting level. So a value nested deeper than Python's recursion limit (1000 frames by default, less the caller's) raises `RecursionError`. The `except` at privacy_utils.py:353-359 then returns `compliant: False` with a single `Validation error` issue. The model has no depth limit and gives the ordinary result at every depth.
- `get_collection_data` sorting and the stringification of `_id` are not modelled.
- Store.GetCollectionData: models the order `find` returns without the optional sort.
- Server-generated ObjectIds are not represented, so a document stored without `_id` never collides on `_id`. `insert_many` and `insert_one` give the caller's dict an `_id` in place. When the same dict object appears twice in `data`, the second entry therefore carries the first's `_id`. The model treats the two entries as separate documents, so aliasing is not modelled.
- Query operators other than equality and list membership are not modelled.
- Store.Select: query keys are matched as top-level field names. MongoDB reads a dotted key such as `address.city` as a path into embedded documents, and the model does not follow it. So `Store.GetCollectionData` is exact only for filters without dotted keys. No call site in the code passes one.
- Store.UpsertReadsBack: for a dotted `upsert_key`, the source tests the key as a literal field name, but the `replace_one` filter follows the path. A document stored with the literal dotted key is then not found again. The lemma promises the read-back only for an upsert key without a dot.
- Store.UpsertIdempotent: for the same reason, with a dotted `upsert_key` a second run inserts again. The lemma promises idempotence only for an upsert key without a dot.
- Non-unique and compound indexes are not modelled, because they refuse no document.
- Store.InsertMany: pymongo sends a large `insert_many` in batches, and a document it cannot encode raises only when its own batch is encoded. Earlier batches are then already stored, and the fallback skips them as duplicates. The model treats the call as one batch, which holds up to 100,000 documents and 48 MB.
- Store.TryInsert: a unique index on a field that holds a list is multikey, so two documents sharing one element collide. The model compares whole values and misses such collisions.
- The TTL index on `temp_data` is not modelled.
- `audit_logs` is kept apart from the data collections as its own sequence.
- Every `datetime.utcnow()` within one call is a single `now`.
- Store.AverageScoreBounded: `average_score` is computed in exact reals, not IEEE doubles.
- Dashboard.GenerateRecommendations: the attendance test is compared in integers (`present * 100 < 80 * total`). That agrees with the float comparison except at rounding boundaries of huge counts. The `.1f` text of the rate is a parameter.
- `generate_recommendations` reads `canvas_submissions` but never uses it, so the model does not read it.
- A per-collection exception inside `cleanup_old_data` is not modelled: names are fixed and the model's deletes cannot fail.
- Store.CleanupOldData: the `collected_at` comparison is the server's string ordering, modelled as code-point lexicographic order, for string and list-of-string values only.

## Findings

| source | as written | input that shows it | evidently intended | confidence | as-written member | corrected member |
|---|---|---|---|---|---|---|
| scripts/utils/privacy_utils.py:324-326 | In the validator walk, a list element is only recursed into, so a string directly inside a list is never matched against `pii_patterns` | `{"contacts": ["jane.doe@school.edu"]}` is reported compliant | every string value, including list elements, is scanned | not executed | Compliance.ListedEmailIsMissed | Compliance.ListAwareFlagsExactlyPii |
| scripts/utils/mongodb_client.py:176-192 | After a failed `insert_many(ordered=False)` the fallback re-inserts every document; those `insert_many` already stored raise `DuplicateKeyError` and are skipped uncounted | `store_data("canvas_students", [d, d])` on an empty collection stores one document and reports `inserted: 0` | `inserted` counts the documents that were stored | not executed | Store.BulkFallbackUndercounts | Store.StoreDataCounted |
| scripts/utils/mongodb_client.py:164-165 | An upsert that inserts is counted only when `result.upserted_id` is truthy, and that id is the document's own `_id` when it has one | `store_data("x", [{"_id": 0, "k": 1}], upsert_key="k")` on an empty collection stores the document and reports `inserted: 0` | every upserted document counts as inserted (`upserted_id is not None`) | not executed | Store.FalsyIdUpsertUncounted | Store.StoreDataCounted |
