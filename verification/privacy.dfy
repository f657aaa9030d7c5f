/**
 * The privacy transformer: free-text scrubbing, pseudonyms, and the three
 * batch anonymisers (student, attendance, library records).
 *
 * The regex detectors, the SHA-256 digest, Fernet encryption and Python's
 * `str()` of non-string values are not modelled; they are the function-valued
 * fields of `Primitives`, which every operation receives as a parameter.
 */
module Privacy {
  import opened Base
  import opened Strings
  import opened Json
  import opened Masking
  import opened Naming

  /** A `hexdigest()` of SHA-256: 64 lower-case hexadecimal characters. */
  type HexDigest = s: string | |s| == 64 && forall i :: 0 <= i < |s| ==> IsHexDigit(s[i])
    witness ZeroDigits(64)

  function ZeroDigits(n: nat): (r: string)
    ensures |r| == n && forall i :: 0 <= i < n ==> IsHexDigit(r[i])
  {
    if n == 0 then [] else ZeroDigits(n - 1) + ['0']
  }

  /** The four detectors of `pii_patterns`, in the order the source lists them. */
  datatype PiiKind = EmailPattern | PhonePattern | SsnPattern | StudentIdPattern

  const PatternKinds: seq<PiiKind> := [EmailPattern, PhonePattern, SsnPattern, StudentIdPattern]

  /** The `pii_type` names used when a pattern hit is reported. */
  function KindName(k: PiiKind): string {
    match k
    case EmailPattern => "email"
    case PhonePattern => "phone"
    case SsnPattern => "ssn"
    case StudentIdPattern => "student_id"
  }

  /** The library functions the transformer calls, left uninterpreted. */
  datatype Primitives = Primitives(
    emailLike: string -> bool,      // re.search(pii_patterns['email'], s)
    phoneLike: string -> bool,      // re.search(pii_patterns['phone'], s)
    ssnLike: string -> bool,        // re.search(pii_patterns['ssn'], s)
    idLike: string -> bool,         // re.search(pii_patterns['student_id'], s)
    nd: char -> bool,               // a non-ASCII character of Unicode category Nd, which `\d` matches
    digest: string -> HexDigest,    // hashlib.sha256(s.encode()).hexdigest()
    encrypt: string -> string,      // base64 of the Fernet token of s
    show: Value -> string)          // str(v) for a value that is not a string

  predicate Detects(p: Primitives, k: PiiKind, s: string) {
    match k
    case EmailPattern => p.emailLike(s)
    case PhonePattern => p.phoneLike(s)
    case SsnPattern => p.ssnLike(s)
    case StudentIdPattern => p.idLike(s)
  }

  /** `str(v)`: a string is its own rendering. */
  function Text(p: Primitives, v: Value): string {
    if v.Str? then v.s else p.show(v)
  }

  /** The feature toggles read from the environment at construction time. */
  datatype PrivacyConfig = PrivacyConfig(
    ferpaEnabled: bool,
    auditEnabled: bool,
    anonymizationEnabled: bool)

  /** `t` is "true" in any mix of upper and lower case. */
  predicate SpellsTrue(t: string) {
    && |t| == 4
    && (t[0] == 't' || t[0] == 'T') && (t[1] == 'r' || t[1] == 'R')
    && (t[2] == 'u' || t[2] == 'U') && (t[3] == 'e' || t[3] == 'E')
  }

  /**
   * `os.getenv(name, 'true').lower() == 'true'`: on unless the variable is set
   * to something other than "true" up to case.
   */
  function ToggleFromEnv(setting: Option<string>): (r: bool)
    ensures setting.None? ==> r
    ensures setting.Some? ==> (r <==> SpellsTrue(setting.value))
    ensures setting == Some("false") ==> !r
  {
    Lower(setting.GetOr("true")) == "true"
  }

  function ConfigFromEnv(ferpa: Option<string>, audit: Option<string>, anonymization: Option<string>): PrivacyConfig {
    PrivacyConfig(ToggleFromEnv(ferpa), ToggleFromEnv(audit), ToggleFromEnv(anonymization))
  }

  const FerpaCompliant: string := "ferpa_compliant"

  // ---------------------------------------------------------------------------
  // Free-text scrubbing (`_anonymize_record`)

  /** One string value after the scan: the first detector that fires picks the mask. */
  function MaskText(p: Primitives, s: string): string {
    if p.emailLike(s) then MaskEmail(s)
    else if p.phoneLike(s) then MaskPhone(p.nd, s)
    else if p.ssnLike(s) then MaskSsn(s)
    else s
  }

  function MaskValue(p: Primitives, v: Value): Value {
    if v.Str? then Str(MaskText(p, v.s)) else v
  }

  /**
   * `_anonymize_record`: every string value is replaced by its masked form,
   * with the email mask taking priority over the phone mask and the phone
   * mask over the SSN mask; keys, their order and every other value stay.
   */
  function Scrub(p: Primitives, d: Doc): (r: Doc)
    ensures |r| == |d|
    ensures forall i :: 0 <= i < |d| ==> r[i].key == d[i].key
    ensures forall i :: 0 <= i < |d| && !d[i].val.Str? ==> r[i].val == d[i].val
    ensures forall i :: (0 <= i < |d| && d[i].val.Str? && p.emailLike(d[i].val.s)) ==>
      r[i].val == Str(MaskEmail(d[i].val.s))
    ensures forall i :: (0 <= i < |d| && d[i].val.Str? && !p.emailLike(d[i].val.s)
                         && p.phoneLike(d[i].val.s)) ==>
      r[i].val == Str(MaskPhone(p.nd, d[i].val.s))
    ensures forall i :: (0 <= i < |d| && d[i].val.Str? && !p.emailLike(d[i].val.s)
                         && !p.phoneLike(d[i].val.s) && p.ssnLike(d[i].val.s)) ==>
      r[i].val == Str(MaskSsn(d[i].val.s))
    ensures forall i :: (0 <= i < |d| && d[i].val.Str? && !p.emailLike(d[i].val.s)
                         && !p.phoneLike(d[i].val.s) && !p.ssnLike(d[i].val.s)) ==>
      r[i].val == d[i].val
  {
    if d == [] then [] else [Field(d[0].key, MaskValue(p, d[0].val))] + Scrub(p, d[1..])
  }

  /** Scrubbing keeps the key set and gives each key its masked value. */
  lemma {:induction false} ScrubGet(p: Primitives, d: Doc, k: string)
    ensures Keys(Scrub(p, d)) == Keys(d)
    ensures Get(Scrub(p, d), k) == if k in Keys(d) then Some(MaskValue(p, Get(d, k).value)) else None
  {
    if d != [] {
      ScrubGet(p, d[1..], k);
      assert Scrub(p, d)[1..] == Scrub(p, d[1..]);
    }
  }

  lemma ScrubKeepsDistinct(p: Primitives, d: Doc)
    requires DistinctKeys(d)
    ensures DistinctKeys(Scrub(p, d))
  {
  }

  // ---------------------------------------------------------------------------
  // Pseudonyms (`_generate_anonymous_id`)

  const AnonPrefix: string := "anon_"

  /** `anon_` followed by the first 16 hexadecimal characters of the digest. */
  function AnonymousId(p: Primitives, originalId: string): (r: string)
    ensures |r| == 21 && r[..5] == AnonPrefix
    ensures r[5..] == p.digest(originalId)[..16]
    ensures forall i :: 5 <= i < |r| ==> IsHexDigit(r[i])
  {
    AnonPrefix + p.digest(originalId)[..16]
  }

  /** The pseudonym a record with `student_id` receives. */
  function PseudonymOf(p: Primitives, record: Doc): string
    requires StudentIdKey in Keys(record)
  {
    AnonymousId(p, Text(p, Get(record, StudentIdKey).value))
  }

  // ---------------------------------------------------------------------------
  // Replacing PII fields of a student record

  /** `_encrypt_field(str(v))` for a sensitive field, `_hash_field(str(v))` otherwise. */
  function Protect(p: Primitives, f: string, v: Value): Value {
    if f in SensitiveFields then Str(p.encrypt(Text(p, v))) else Str(p.digest(Text(p, v)))
  }

  /** One iteration of the loop over `pii_fields` of `anonymize_student_data`. */
  function ProtectStep(p: Primitives, d: Doc, f: string): Doc {
    if f in Keys(d) then Del(Put(d, ProtectedName(f), Protect(p, f, Get(d, f).value)), f) else d
  }

  /** The loop over `pii_fields` of `anonymize_student_data`. */
  function ProtectPii(p: Primitives, d: Doc, fields: seq<string>): Doc
    decreases |fields|
  {
    if fields == [] then d else ProtectPii(p, ProtectStep(p, d, fields[0]), fields[1..])
  }

  lemma ProtectStepGet(p: Primitives, d: Doc, f: string)
    requires ProtectedName(f) != f
    ensures f in Keys(d) ==> Keys(ProtectStep(p, d, f)) == Keys(d) + {ProtectedName(f)} - {f}
    ensures f !in Keys(d) ==> ProtectStep(p, d, f) == d
    ensures f in Keys(d) ==> Get(ProtectStep(p, d, f), f) == None
    ensures f in Keys(d) ==>
      Get(ProtectStep(p, d, f), ProtectedName(f)) == Some(Protect(p, f, Get(d, f).value))
    ensures forall j :: j != f && j != ProtectedName(f) ==> Get(ProtectStep(p, d, f), j) == Get(d, j)
  {
  }

  lemma SoundNamingTail(fields: seq<string>)
    requires fields != [] && SoundNaming(fields)
    ensures SoundNaming(fields[1..])
    ensures ProtectedName(fields[0]) != fields[0]
    ensures forall g :: g in fields[1..] ==> g in fields
  {
    assert forall g :: g in fields[1..] ==> g in fields;
  }

  /** A key the loop neither removes nor writes keeps its value. */
  lemma {:induction false} ProtectPiiKeeps(p: Primitives, d: Doc, fields: seq<string>, j: string)
    requires SoundNaming(fields)
    requires j !in fields
    requires forall f :: f in fields && f in Keys(d) ==> j != ProtectedName(f)
    ensures Get(ProtectPii(p, d, fields), j) == Get(d, j)
    decreases |fields|
  {
    if fields != [] {
      var f0, rest := fields[0], fields[1..];
      SoundNamingTail(fields);
      ProtectStepGet(p, d, f0);
      var next := ProtectStep(p, d, f0);
      assert forall g :: g in rest && g in Keys(next) ==> g in Keys(d);
      ProtectPiiKeeps(p, next, rest, j);
    }
  }

  /** Every PII field the loop visits is absent afterwards. */
  lemma {:induction false} ProtectPiiRemoves(p: Primitives, d: Doc, fields: seq<string>, f: string)
    requires SoundNaming(fields)
    requires f in fields
    ensures Get(ProtectPii(p, d, fields), f) == None
    decreases |fields|
  {
    var f0, rest := fields[0], fields[1..];
    SoundNamingTail(fields);
    ProtectStepGet(p, d, f0);
    var next := ProtectStep(p, d, f0);
    if f in rest {
      ProtectPiiRemoves(p, next, rest, f);
    } else {
      assert f == f0;
      ProtectPiiKeeps(p, next, rest, f);
    }
  }

  /** Every PII field present is replaced by its protected counterpart. */
  lemma {:induction false} ProtectPiiProtects(p: Primitives, d: Doc, fields: seq<string>, f: string)
    requires SoundNaming(fields)
    requires f in fields && f in Keys(d)
    ensures Get(ProtectPii(p, d, fields), ProtectedName(f)) == Some(Protect(p, f, Get(d, f).value))
    decreases |fields|
  {
    var f0, rest := fields[0], fields[1..];
    SoundNamingTail(fields);
    ProtectStepGet(p, d, f0);
    var next := ProtectStep(p, d, f0);
    if f == f0 {
      assert f !in Keys(next);
      ProtectPiiKeeps(p, next, rest, ProtectedName(f));
    } else {
      assert f in rest;
      ProtectPiiProtects(p, next, rest, f);
    }
  }

  /** What the loop leaves: no PII key, one protected key per present PII field, the rest as is. */
  lemma ProtectPiiGet(p: Primitives, d: Doc, fields: seq<string>)
    requires SoundNaming(fields)
    ensures forall f :: f in fields ==> Get(ProtectPii(p, d, fields), f) == None
    ensures forall f :: f in fields && f in Keys(d) ==>
      Get(ProtectPii(p, d, fields), ProtectedName(f)) == Some(Protect(p, f, Get(d, f).value))
    ensures forall j :: j !in fields && (forall f :: f in fields && f in Keys(d) ==> j != ProtectedName(f)) ==>
      Get(ProtectPii(p, d, fields), j) == Get(d, j)
  {
    forall f | f in fields
      ensures Get(ProtectPii(p, d, fields), f) == None
    {
      ProtectPiiRemoves(p, d, fields, f);
    }
    forall f | f in fields && f in Keys(d)
      ensures Get(ProtectPii(p, d, fields), ProtectedName(f)) == Some(Protect(p, f, Get(d, f).value))
    {
      ProtectPiiProtects(p, d, fields, f);
    }
    forall j | j !in fields && (forall f :: f in fields && f in Keys(d) ==> j != ProtectedName(f))
      ensures Get(ProtectPii(p, d, fields), j) == Get(d, j)
    {
      ProtectPiiKeeps(p, d, fields, j);
    }
  }

  // ---------------------------------------------------------------------------
  // Student records (`anonymize_student_data`)

  /** The scrubbed record with `anonymous_id` added when the input has `student_id`. */
  function WithPseudonym(p: Primitives, student: Doc): Doc {
    var masked := Scrub(p, student);
    if StudentIdKey in Keys(student) then Put(masked, AnonymousIdKey, Str(PseudonymOf(p, student)))
    else masked
  }

  /** One iteration of the loop of `anonymize_student_data`. */
  function AnonymizeStudentRecord(p: Primitives, now: string, student: Doc): Doc {
    var protected := ProtectPii(p, WithPseudonym(p, student), PiiFields);
    Put(Put(protected, AnonymizedAtKey, Str(now)), PrivacyLevelKey, Str(FerpaCompliant))
  }

  /** The PII field whose protected counterpart is named `j`, if any. */
  function SourceField(j: string): (r: Option<string>)
    ensures r.Some? ==> r.value in PiiFields && ProtectedName(r.value) == j
    ensures r.None? ==> forall f :: f in PiiFields ==> ProtectedName(f) != j
  {
    FindSource(PiiFields, j)
  }

  function FindSource(fields: seq<string>, j: string): (r: Option<string>)
    ensures r.Some? ==> r.value in fields && ProtectedName(r.value) == j
    ensures r.None? ==> forall f :: f in fields ==> ProtectedName(f) != j
  {
    if fields == [] then None
    else if ProtectedName(fields[0]) == j then Some(fields[0])
    else FindSource(fields[1..], j)
  }

  /** The value the scrub gives key `j` of `d`. */
  function MaskedGet(p: Primitives, d: Doc, j: string): Option<Value> {
    if j in Keys(d) then Some(MaskValue(p, Get(d, j).value)) else None
  }

  /**
   * Key by key, the record `anonymize_student_data` produces, stated without
   * reference to the order in which the source writes the keys.
   */
  function StudentFieldSpec(p: Primitives, now: string, student: Doc, j: string): Option<Value> {
    if j == PrivacyLevelKey then Some(Str(FerpaCompliant))
    else if j == AnonymizedAtKey then Some(Str(now))
    else ProtectedFieldSpec(p, student, j)
  }

  /** `StudentFieldSpec` away from the two provenance keys. */
  function ProtectedFieldSpec(p: Primitives, student: Doc, j: string): Option<Value> {
    if j in PiiFields then None
    else if j == AnonymousIdKey && StudentIdKey in Keys(student) then Some(Str(PseudonymOf(p, student)))
    else match SourceField(j)
      case Some(f) =>
        if f in Keys(student) then Some(Protect(p, f, MaskValue(p, Get(student, f).value)))
        else MaskedGet(p, student, j)
      case None => MaskedGet(p, student, j)
  }

  /** The anonymised student record agrees with `StudentFieldSpec` on every key. */
  lemma StudentRecordGet(p: Primitives, now: string, student: Doc, j: string)
    ensures Get(AnonymizeStudentRecord(p, now, student), j) == StudentFieldSpec(p, now, student, j)
  {
    var protected := ProtectPii(p, WithPseudonym(p, student), PiiFields);
    var stamped := Put(protected, AnonymizedAtKey, Str(now));
    var r := Put(stamped, PrivacyLevelKey, Str(FerpaCompliant));
    assert r == AnonymizeStudentRecord(p, now, student);
    if j != PrivacyLevelKey && j != AnonymizedAtKey {
      assert Get(r, j) == Get(protected, j);
      ProtectedGet(p, student, j);
    }
  }

  /** Away from the provenance keys, the loop over `pii_fields` yields `ProtectedFieldSpec`. */
  lemma ProtectedGet(p: Primitives, student: Doc, j: string)
    ensures Get(ProtectPii(p, WithPseudonym(p, student), PiiFields), j) == ProtectedFieldSpec(p, student, j)
  {
    NameFacts();
    var w := WithPseudonym(p, student);
    if j in PiiFields {
      ProtectPiiRemoves(p, w, PiiFields, j);
    } else if j == AnonymousIdKey {
      PseudonymGet(p, student);
    } else if SourceField(j).Some? && SourceField(j).value in Keys(student) {
      ProtectedSourceGet(p, student, SourceField(j).value);
    } else {
      UntouchedGet(p, student, j);
    }
  }

  /** The pseudonym of the scrubbed record and its other keys. */
  lemma WithPseudonymGet(p: Primitives, student: Doc, j: string)
    ensures j != AnonymousIdKey ==> Get(WithPseudonym(p, student), j) == MaskedGet(p, student, j)
    ensures j != AnonymousIdKey ==> (j in Keys(WithPseudonym(p, student)) <==> j in Keys(student))
    ensures StudentIdKey in Keys(student) ==>
      Get(WithPseudonym(p, student), AnonymousIdKey) == Some(Str(PseudonymOf(p, student)))
    ensures StudentIdKey !in Keys(student) ==>
      Get(WithPseudonym(p, student), AnonymousIdKey) == MaskedGet(p, student, AnonymousIdKey)
  {
    ScrubGet(p, student, j);
    ScrubGet(p, student, AnonymousIdKey);
  }

  lemma PseudonymGet(p: Primitives, student: Doc)
    ensures Get(ProtectPii(p, WithPseudonym(p, student), PiiFields), AnonymousIdKey)
      == ProtectedFieldSpec(p, student, AnonymousIdKey)
  {
    NameFacts();
    ProtectPiiKeeps(p, WithPseudonym(p, student), PiiFields, AnonymousIdKey);
    WithPseudonymGet(p, student, AnonymousIdKey);
    if StudentIdKey !in Keys(student) {
      assert SourceField(AnonymousIdKey).None?;
    }
  }

  lemma ProtectedSourceGet(p: Primitives, student: Doc, f: string)
    requires f in PiiFields && f in Keys(student)
    ensures Get(ProtectPii(p, WithPseudonym(p, student), PiiFields), ProtectedName(f))
      == ProtectedFieldSpec(p, student, ProtectedName(f))
  {
    NameFacts();
    var w := WithPseudonym(p, student);
    var j := ProtectedName(f);
    WithPseudonymGet(p, student, f);
    ProtectPiiProtects(p, w, PiiFields, f);
    assert SourceField(j) == Some(f);
    assert j !in PiiFields && j != AnonymousIdKey;
  }

  lemma UntouchedGet(p: Primitives, student: Doc, j: string)
    requires j !in PiiFields && j != AnonymousIdKey
    requires SourceField(j).None? || SourceField(j).value !in Keys(student)
    ensures Get(ProtectPii(p, WithPseudonym(p, student), PiiFields), j) == ProtectedFieldSpec(p, student, j)
  {
    NameFacts();
    var w := WithPseudonym(p, student);
    forall g | g in PiiFields && g in Keys(w)
      ensures j != ProtectedName(g)
    {
      WithPseudonymGet(p, student, g);
    }
    ProtectPiiKeeps(p, w, PiiFields, j);
    WithPseudonymGet(p, student, j);
    assert ProtectedFieldSpec(p, student, j) == MaskedGet(p, student, j);
  }

  /**
   * The record `anonymize_student_data` produces for `student`: every PII
   * field gone, exactly its `_encrypted` or `_hash` counterpart present, a
   * pseudonym when the input had `student_id`, both provenance fields set,
   * and `student_id` kept as the scrub left it.
   */
  lemma StudentRecordShape(p: Primitives, now: string, student: Doc)
    ensures forall f :: f in PiiFields ==> Get(AnonymizeStudentRecord(p, now, student), f) == None
    ensures forall f :: f in PiiFields && f in Keys(student) ==>
      Get(AnonymizeStudentRecord(p, now, student), ProtectedName(f))
        == Some(Protect(p, f, MaskValue(p, Get(student, f).value)))
    ensures StudentIdKey in Keys(student) ==>
      Get(AnonymizeStudentRecord(p, now, student), AnonymousIdKey) == Some(Str(PseudonymOf(p, student)))
    ensures StudentIdKey !in Keys(student) ==>
      Get(AnonymizeStudentRecord(p, now, student), AnonymousIdKey) == MaskedGet(p, student, AnonymousIdKey)
    ensures Get(AnonymizeStudentRecord(p, now, student), AnonymizedAtKey) == Some(Str(now))
    ensures Get(AnonymizeStudentRecord(p, now, student), PrivacyLevelKey) == Some(Str(FerpaCompliant))
    ensures Get(AnonymizeStudentRecord(p, now, student), StudentIdKey) == MaskedGet(p, student, StudentIdKey)
  {
    StudentRecordDropsPii(p, now, student);
    StudentRecordProtectsPii(p, now, student);
    StudentRecordFixedKeys(p, now, student);
  }

  lemma StudentRecordDropsPii(p: Primitives, now: string, student: Doc)
    ensures forall f :: f in PiiFields ==> Get(AnonymizeStudentRecord(p, now, student), f) == None
  {
    forall f | f in PiiFields
      ensures Get(AnonymizeStudentRecord(p, now, student), f) == None
    {
      StudentRecordDropsField(p, now, student, f);
    }
  }

  lemma StudentRecordDropsField(p: Primitives, now: string, student: Doc, f: string)
    requires f in PiiFields
    ensures Get(AnonymizeStudentRecord(p, now, student), f) == None
  {
    PlainKeys();
    assert f != PrivacyLevelKey && f != AnonymizedAtKey;
    StudentRecordGet(p, now, student, f);
    assert StudentFieldSpec(p, now, student, f) == ProtectedFieldSpec(p, student, f);
  }

  lemma StudentRecordProtectsPii(p: Primitives, now: string, student: Doc)
    ensures forall f :: f in PiiFields && f in Keys(student) ==>
      Get(AnonymizeStudentRecord(p, now, student), ProtectedName(f))
        == Some(Protect(p, f, MaskValue(p, Get(student, f).value)))
  {
    forall f | f in PiiFields && f in Keys(student)
      ensures Get(AnonymizeStudentRecord(p, now, student), ProtectedName(f))
        == Some(Protect(p, f, MaskValue(p, Get(student, f).value)))
    {
      StudentRecordProtectsField(p, now, student, f);
    }
  }

  lemma StudentRecordProtectsField(p: Primitives, now: string, student: Doc, f: string)
    requires f in PiiFields && f in Keys(student)
    ensures Get(AnonymizeStudentRecord(p, now, student), ProtectedName(f))
      == Some(Protect(p, f, MaskValue(p, Get(student, f).value)))
  {
    NameFacts();
    var j := ProtectedName(f);
    StudentRecordGet(p, now, student, j);
    assert SourceField(j) == Some(f);
    assert StudentFieldSpec(p, now, student, j) == ProtectedFieldSpec(p, student, j);
  }

  lemma StudentRecordFixedKeys(p: Primitives, now: string, student: Doc)
    ensures StudentIdKey in Keys(student) ==>
      Get(AnonymizeStudentRecord(p, now, student), AnonymousIdKey) == Some(Str(PseudonymOf(p, student)))
    ensures StudentIdKey !in Keys(student) ==>
      Get(AnonymizeStudentRecord(p, now, student), AnonymousIdKey) == MaskedGet(p, student, AnonymousIdKey)
    ensures Get(AnonymizeStudentRecord(p, now, student), AnonymizedAtKey) == Some(Str(now))
    ensures Get(AnonymizeStudentRecord(p, now, student), PrivacyLevelKey) == Some(Str(FerpaCompliant))
    ensures Get(AnonymizeStudentRecord(p, now, student), StudentIdKey) == MaskedGet(p, student, StudentIdKey)
  {
    StudentRecordPseudonym(p, now, student);
    StudentRecordGet(p, now, student, AnonymizedAtKey);
    StudentRecordGet(p, now, student, PrivacyLevelKey);
    StudentRecordKeepsId(p, now, student);
  }

  lemma StudentRecordPseudonym(p: Primitives, now: string, student: Doc)
    ensures StudentIdKey in Keys(student) ==>
      Get(AnonymizeStudentRecord(p, now, student), AnonymousIdKey) == Some(Str(PseudonymOf(p, student)))
    ensures StudentIdKey !in Keys(student) ==>
      Get(AnonymizeStudentRecord(p, now, student), AnonymousIdKey) == MaskedGet(p, student, AnonymousIdKey)
  {
    PlainKeys();
    SourceOfPlain(AnonymousIdKey);
    StudentRecordGet(p, now, student, AnonymousIdKey);
  }

  lemma StudentRecordKeepsId(p: Primitives, now: string, student: Doc)
    ensures Get(AnonymizeStudentRecord(p, now, student), StudentIdKey) == MaskedGet(p, student, StudentIdKey)
  {
    PlainKeys();
    SourceOfPlain(StudentIdKey);
    StudentRecordGet(p, now, student, StudentIdKey);
  }

  /** A key without the `_hash` or `_encrypted` suffix protects no PII field. */
  lemma SourceOfPlain(j: string)
    requires !LooksProtected(j)
    ensures SourceField(j).None?
  {
    if SourceField(j).Some? {
      ProtectedNameLooksProtected(SourceField(j).value);
    }
  }

  /** Anonymisation of a record preserves the dict invariant. */
  lemma StudentRecordKeepsDistinct(p: Primitives, now: string, student: Doc)
    requires DistinctKeys(student)
    ensures DistinctKeys(AnonymizeStudentRecord(p, now, student))
  {
    ScrubKeepsDistinct(p, student);
    var masked := Scrub(p, student);
    var withId := WithPseudonym(p, student);
    if StudentIdKey in Keys(student) {
      PutKeepsDistinct(masked, AnonymousIdKey, Str(PseudonymOf(p, student)));
    }
    ProtectPiiKeepsDistinct(p, withId, PiiFields);
    var protected := ProtectPii(p, withId, PiiFields);
    PutKeepsDistinct(protected, AnonymizedAtKey, Str(now));
    PutKeepsDistinct(Put(protected, AnonymizedAtKey, Str(now)), PrivacyLevelKey, Str(FerpaCompliant));
  }

  lemma {:induction false} ProtectPiiKeepsDistinct(p: Primitives, d: Doc, fields: seq<string>)
    requires DistinctKeys(d)
    ensures DistinctKeys(ProtectPii(p, d, fields))
    decreases |fields|
  {
    if fields != [] {
      var f := fields[0];
      if f in Keys(d) {
        var put := Put(d, ProtectedName(f), Protect(p, f, Get(d, f).value));
        PutKeepsDistinct(d, ProtectedName(f), Protect(p, f, Get(d, f).value));
        DelKeepsDistinct(put, f);
      }
      ProtectPiiKeepsDistinct(p, ProtectStep(p, d, f), fields[1..]);
    }
  }

  /**
   * `anonymize_student_data`: the input itself when anonymisation is off;
   * otherwise one anonymised record per input record, in input order.
   */
  function AnonymizeStudentData(cfg: PrivacyConfig, p: Primitives, now: string, students: seq<Doc>): (r: seq<Doc>)
    ensures !cfg.anonymizationEnabled ==> r == students
    ensures cfg.anonymizationEnabled ==> |r| == |students|
    ensures cfg.anonymizationEnabled ==>
      forall i :: 0 <= i < |r| ==> r[i] == AnonymizeStudentRecord(p, now, students[i])
  {
    if !cfg.anonymizationEnabled then students
    else seq(|students|, i requires 0 <= i < |students| => AnonymizeStudentRecord(p, now, students[i]))
  }

  // ---------------------------------------------------------------------------
  // Attendance and library records

  /** The loop that deletes every PII field present. */
  function DropFields(d: Doc, fields: seq<string>): (r: Doc)
    ensures Keys(r) == Keys(d) - set f | f in fields
    ensures forall j :: Get(r, j) == if j in fields then None else Get(d, j)
    decreases |fields|
  {
    if fields == [] then d
    else DropFields(if fields[0] in Keys(d) then Del(d, fields[0]) else d, fields[1..])
  }

  /**
   * One iteration of `anonymize_attendance_data` and of
   * `anonymize_library_data`, whose loop bodies are identical.
   */
  function AnonymizeActivityRecord(p: Primitives, now: string, record: Doc): Doc {
    Anonymized(p, now, record, PiiFields)
  }

  /** The loop body with the list of deleted fields as a parameter. */
  function Anonymized(p: Primitives, now: string, record: Doc, fields: seq<string>): Doc {
    var masked := Scrub(p, record);
    var withId := if StudentIdKey in Keys(record)
      then Del(Put(masked, AnonymousIdKey, Str(PseudonymOf(p, record))), StudentIdKey)
      else masked;
    Put(DropFields(withId, fields), AnonymizedAtKey, Str(now))
  }

  /**
   * An attendance or library record after anonymisation: `student_id`
   * replaced by the pseudonym, every PII field deleted without any hashed or
   * encrypted copy, `anonymized_at` set, no `privacy_level` added, and every
   * other field as the scrub left it.
   */
  lemma ActivityRecordShape(p: Primitives, now: string, record: Doc)
    ensures Get(AnonymizeActivityRecord(p, now, record), StudentIdKey) == None
    ensures forall f :: f in PiiFields ==> Get(AnonymizeActivityRecord(p, now, record), f) == None
    ensures Get(AnonymizeActivityRecord(p, now, record), AnonymousIdKey) ==
      if StudentIdKey in Keys(record) then Some(Str(PseudonymOf(p, record)))
      else Get(Scrub(p, record), AnonymousIdKey)
    ensures Get(AnonymizeActivityRecord(p, now, record), AnonymizedAtKey) == Some(Str(now))
    ensures Get(AnonymizeActivityRecord(p, now, record), PrivacyLevelKey) == Get(Scrub(p, record), PrivacyLevelKey)
    ensures forall f :: f in PiiFields ==>
      Get(AnonymizeActivityRecord(p, now, record), ProtectedName(f)) == Get(Scrub(p, record), ProtectedName(f))
    ensures forall j :: j !in PiiFields && j != StudentIdKey && j != AnonymousIdKey && j != AnonymizedAtKey ==>
      Get(AnonymizeActivityRecord(p, now, record), j) == Get(Scrub(p, record), j)
  {
    var r := AnonymizeActivityRecord(p, now, record);
    KeysNotPii();
    AnonymizedShape(p, now, record, PiiFields, r);
    forall f | f in PiiFields
      ensures Get(r, ProtectedName(f)) == Get(Scrub(p, record), ProtectedName(f))
    {
      ProtectedNameIsFree(f);
    }
  }

  lemma AnonymizedShape(p: Primitives, now: string, record: Doc, fields: seq<string>, r: Doc)
    requires StudentIdKey !in fields && AnonymousIdKey !in fields
    requires AnonymizedAtKey !in fields && PrivacyLevelKey !in fields
    requires r == Anonymized(p, now, record, fields)
    ensures Get(r, StudentIdKey) == None
    ensures forall f :: f in fields ==> Get(r, f) == None
    ensures Get(r, AnonymousIdKey) ==
      if StudentIdKey in Keys(record) then Some(Str(PseudonymOf(p, record)))
      else Get(Scrub(p, record), AnonymousIdKey)
    ensures Get(r, AnonymizedAtKey) == Some(Str(now))
    ensures Get(r, PrivacyLevelKey) == Get(Scrub(p, record), PrivacyLevelKey)
    ensures forall j :: j !in fields && j != StudentIdKey && j != AnonymousIdKey && j != AnonymizedAtKey ==>
      Get(r, j) == Get(Scrub(p, record), j)
  {
    var masked := Scrub(p, record);
    var withId := if StudentIdKey in Keys(record)
      then Del(Put(masked, AnonymousIdKey, Str(PseudonymOf(p, record))), StudentIdKey)
      else masked;
    WithIdShape(p, record, masked, withId);
    StampShape(withId, fields, now, r);
  }

  /** The pseudonym step: `student_id` gone, `anonymous_id` set when it was there, nothing else touched. */
  lemma WithIdShape(p: Primitives, record: Doc, masked: Doc, withId: Doc)
    requires masked == Scrub(p, record)
    requires withId == if StudentIdKey in Keys(record)
      then Del(Put(masked, AnonymousIdKey, Str(PseudonymOf(p, record))), StudentIdKey)
      else masked
    ensures Get(withId, StudentIdKey) == None
    ensures Get(withId, AnonymousIdKey) == (if StudentIdKey in Keys(record)
      then Some(Str(PseudonymOf(p, record))) else Get(masked, AnonymousIdKey))
    ensures forall j :: j != StudentIdKey && j != AnonymousIdKey ==> Get(withId, j) == Get(masked, j)
  {
    ScrubGet(p, record, StudentIdKey);
  }

  /** The deletion of the PII fields and the `anonymized_at` stamp. */
  lemma StampShape(withId: Doc, fields: seq<string>, now: string, r: Doc)
    requires AnonymizedAtKey !in fields
    requires r == Put(DropFields(withId, fields), AnonymizedAtKey, Str(now))
    ensures Get(r, AnonymizedAtKey) == Some(Str(now))
    ensures forall f :: f in fields ==> Get(r, f) == None
    ensures forall j :: j !in fields && j != AnonymizedAtKey ==> Get(r, j) == Get(withId, j)
  {
  }

  /** `anonymize_attendance_data`. */
  function AnonymizeAttendanceData(cfg: PrivacyConfig, p: Primitives, now: string, records: seq<Doc>): (r: seq<Doc>)
    ensures !cfg.anonymizationEnabled ==> r == records
    ensures cfg.anonymizationEnabled ==> |r| == |records|
    ensures cfg.anonymizationEnabled ==>
      forall i :: 0 <= i < |r| ==> r[i] == AnonymizeActivityRecord(p, now, records[i])
  {
    if !cfg.anonymizationEnabled then records
    else seq(|records|, i requires 0 <= i < |records| => AnonymizeActivityRecord(p, now, records[i]))
  }

  /** `anonymize_library_data`. */
  function AnonymizeLibraryData(cfg: PrivacyConfig, p: Primitives, now: string, records: seq<Doc>): (r: seq<Doc>)
    ensures !cfg.anonymizationEnabled ==> r == records
    ensures cfg.anonymizationEnabled ==> |r| == |records|
    ensures cfg.anonymizationEnabled ==>
      forall i :: 0 <= i < |r| ==> r[i] == AnonymizeActivityRecord(p, now, records[i])
  {
    if !cfg.anonymizationEnabled then records
    else seq(|records|, i requires 0 <= i < |records| => AnonymizeActivityRecord(p, now, records[i]))
  }

  /**
   * Records of one student anonymised by any two of the anonymisers carry the
   * same `anonymous_id`, which is what lets collections be joined on it.
   */
  lemma PseudonymJoinsCollections(p: Primitives, now: string, student: Doc, activity: Doc)
    requires StudentIdKey in Keys(student) && StudentIdKey in Keys(activity)
    requires Text(p, Get(student, StudentIdKey).value) == Text(p, Get(activity, StudentIdKey).value)
    ensures Get(AnonymizeStudentRecord(p, now, student), AnonymousIdKey)
         == Get(AnonymizeActivityRecord(p, now, activity), AnonymousIdKey)
    ensures Get(AnonymizeStudentRecord(p, now, student), AnonymousIdKey).Some?
  {
    StudentRecordShape(p, now, student);
    ActivityRecordShape(p, now, activity);
  }
}
