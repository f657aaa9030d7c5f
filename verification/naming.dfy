/**
 * The field names of the privacy transformer: the PII and sensitive field
 * lists, the keys the anonymisers write, and the `_hash`/`_encrypted` names
 * that replace PII fields of a student record, with the facts that keep
 * these names apart.
 */
module Naming {
  /** `pii_fields`: removed from every anonymised record. */
  const PiiFields: seq<string> := ["email", "login_id", "name", "sortable_name", "short_name",
                                   "phone", "address", "ssn", "student_number", "sis_user_id"]

  /** `sensitive_fields`: the PII fields a student record keeps encrypted. */
  const SensitiveFields: seq<string> := ["email", "phone", "address", "ssn", "student_number"]

  const StudentIdKey: string := "student_id"
  const AnonymousIdKey: string := "anonymous_id"
  const AnonymizedAtKey: string := "anonymized_at"
  const PrivacyLevelKey: string := "privacy_level"

  /** The key that takes over a PII field of a student record. */
  function ProtectedName(f: string): string {
    if f in SensitiveFields then f + "_encrypted" else f + "_hash"
  }

  predicate EndsWith(s: string, suffix: string) {
    |suffix| <= |s| && s[|s| - |suffix|..] == suffix
  }

  /** The shape of every key `ProtectedName` produces. */
  predicate LooksProtected(j: string) {
    EndsWith(j, "_hash") || EndsWith(j, "_encrypted")
  }

  lemma ProtectedNameLooksProtected(f: string)
    ensures LooksProtected(ProtectedName(f))
  {
    var j := ProtectedName(f);
    if f in SensitiveFields {
      assert j[|j| - 10..] == "_encrypted";
    } else {
      assert j[|j| - 5..] == "_hash";
    }
  }

  lemma ProtectedNameLastChar(f: string)
    ensures |ProtectedName(f)| > 0
    ensures ProtectedName(f)[|ProtectedName(f)| - 1] == if f in SensitiveFields then 'd' else 'h'
  {
  }

  /** Distinct fields never share a protected name, whatever the fields are. */
  lemma ProtectedNameInjective(f: string, g: string)
    requires ProtectedName(f) == ProtectedName(g)
    ensures f == g
  {
    var j := ProtectedName(f);
    ProtectedNameLastChar(f);
    ProtectedNameLastChar(g);
    if f !in SensitiveFields {
      assert j == f + "_hash" == g + "_hash";
      assert |f| == |g|;
      assert f == j[..|f|] && g == j[..|g|];
    } else {
      assert j == f + "_encrypted" == g + "_encrypted";
      assert |f| == |g|;
      assert f == j[..|f|] && g == j[..|g|];
    }
  }

  /** A name whose last two characters are neither `sh` nor `ed`. */
  predicate PlainEnding(g: string) {
    |g| < 2 || !((g[|g| - 2] == 's' && g[|g| - 1] == 'h') || (g[|g| - 2] == 'e' && g[|g| - 1] == 'd'))
  }

  lemma PlainEndingIsPlain(g: string)
    requires PlainEnding(g)
    ensures !LooksProtected(g)
  {
    var n := |g|;
    if n >= 5 {
      assert g[n - 5..][3] == g[n - 2] && g[n - 5..][4] == g[n - 1];
    }
    if n >= 10 {
      assert g[n - 10..][8] == g[n - 2] && g[n - 10..][9] == g[n - 1];
    }
  }

  /** No PII field name and no key the anonymisers write has the shape of a protected name. */
  lemma PlainNames()
    ensures forall g :: g in PiiFields ==> !LooksProtected(g)
  {
    forall g | g in PiiFields
      ensures !LooksProtected(g)
    {
      PlainEndingIsPlain(g);
    }
  }

  lemma PlainKeys()
    ensures !LooksProtected(StudentIdKey) && !LooksProtected(AnonymousIdKey)
    ensures !LooksProtected(AnonymizedAtKey) && !LooksProtected(PrivacyLevelKey)
    ensures StudentIdKey !in PiiFields && AnonymousIdKey !in PiiFields
    ensures AnonymizedAtKey !in PiiFields && PrivacyLevelKey !in PiiFields
  {
    KeysNotPii();
    PlainEndingIsPlain(StudentIdKey);
    PlainEndingIsPlain(AnonymousIdKey);
    PlainEndingIsPlain(AnonymizedAtKey);
    PlainEndingIsPlain(PrivacyLevelKey);
  }

  lemma KeysNotPii()
    ensures StudentIdKey !in PiiFields && AnonymousIdKey !in PiiFields
    ensures AnonymizedAtKey !in PiiFields && PrivacyLevelKey !in PiiFields
  {
  }

  /** Facts about the fixed key names used by the record-shape proofs. */
  lemma NameFacts()
    ensures SoundNaming(PiiFields)
    ensures forall f :: ProtectedName(f) != StudentIdKey && ProtectedName(f) != AnonymousIdKey
    ensures forall f :: ProtectedName(f) != AnonymizedAtKey && ProtectedName(f) != PrivacyLevelKey
    ensures forall f :: ProtectedName(f) !in PiiFields
    ensures StudentIdKey !in PiiFields && AnonymousIdKey !in PiiFields
    ensures AnonymizedAtKey !in PiiFields && PrivacyLevelKey !in PiiFields
  {
    PlainNames();
    PlainKeys();
    PiiNamingIsSound();
    forall f
      ensures ProtectedName(f) != StudentIdKey && ProtectedName(f) != AnonymousIdKey
      ensures ProtectedName(f) != AnonymizedAtKey && ProtectedName(f) != PrivacyLevelKey
      ensures ProtectedName(f) !in PiiFields
    {
      ProtectedNameLooksProtected(f);
    }
  }

  /** A protected name is neither a PII field nor a key the anonymisers write. */
  lemma ProtectedNameIsFree(f: string)
    ensures ProtectedName(f) !in PiiFields
    ensures ProtectedName(f) != StudentIdKey && ProtectedName(f) != AnonymousIdKey
    ensures ProtectedName(f) != AnonymizedAtKey && ProtectedName(f) != PrivacyLevelKey
  {
    ProtectedNameLooksProtected(f);
    PlainNames();
    PlainKeys();
  }

  /** The renaming of PII fields is collision free. */
  ghost predicate SoundNaming(fields: seq<string>) {
    && (forall f, g :: f in fields && g in fields ==> ProtectedName(f) != g)
    && (forall f, g :: f in fields && g in fields && f != g ==> ProtectedName(f) != ProtectedName(g))
  }

  lemma PiiNamingIsSound()
    ensures SoundNaming(PiiFields)
  {
    PlainNames();
    forall f, g | f in PiiFields && g in PiiFields
      ensures ProtectedName(f) != g
    {
      ProtectedNameLooksProtected(f);
    }
    forall f, g | f in PiiFields && g in PiiFields && f != g
      ensures ProtectedName(f) != ProtectedName(g)
    {
      if ProtectedName(f) == ProtectedName(g) {
        ProtectedNameInjective(f, g);
      }
    }
  }
}
