/**
 * The FERPA compliance validator (`validate_ferpa_compliance`) and the
 * privacy report (`generate_privacy_report`) of the privacy transformer.
 *
 * The validator walks a JSON value, reports every key whose lower-cased name
 * is a PII field and every string value a PII detector fires on, and turns
 * the hits into issues and recommendations. The walk is modelled in two
 * modes: `AsWritten` never runs the detectors on a string that is directly
 * an element of a list, as the source does; `ListAware` does.
 */
module Compliance {
  import opened Base
  import opened Strings
  import opened Json
  import opened Privacy
  import opened Naming

  datatype ScanMode = AsWritten | ListAware

  /** One entry of `pii_found`: a PII field name, or a detector firing on a value. */
  datatype Hit = NameHit(path: string) | PatternHit(path: string, kind: PiiKind)

  /** `f"{path}.{key}" if path else key`. */
  function ChildPath(path: string, key: string): (r: string)
    ensures path == [] ==> r == key
    ensures path != [] ==> r == path + "." + key
  {
    if path == [] then key else path + "." + key
  }

  /** `f"{path}[{i}]"`. */
  function ItemPath(path: string, i: nat): string {
    path + "[" + NatToString(i) + "]"
  }

  /** The detectors that fire on `s`, in the order of `pii_patterns`. */
  function PatternHits(p: Primitives, s: string, path: string): (r: seq<Hit>)
    ensures |r| <= |PatternKinds|
    ensures forall i :: 0 <= i < |r| ==> r[i].PatternHit? && r[i].path == path && Detects(p, r[i].kind, s)
    ensures forall k :: Detects(p, k, s) ==> PatternHit(path, k) in r
  {
    KindHits(p, s, path, PatternKinds)
  }

  function KindHits(p: Primitives, s: string, path: string, kinds: seq<PiiKind>): (r: seq<Hit>)
    ensures |r| <= |kinds|
    ensures forall i :: 0 <= i < |r| ==>
      r[i].PatternHit? && r[i].path == path && r[i].kind in kinds && Detects(p, r[i].kind, s)
    ensures forall k :: k in kinds && Detects(p, k, s) ==> PatternHit(path, k) in r
  {
    if kinds == [] then []
    else
      var rest := KindHits(p, s, path, kinds[1..]);
      if Detects(p, kinds[0], s) then [PatternHit(path, kinds[0])] + rest else rest
  }

  // ---------------------------------------------------------------------------
  // The walk (`check_for_pii`)

  function Scan(mode: ScanMode, p: Primitives, v: Value, path: string): seq<Hit>
    decreases v, 0
  {
    match v
    case Obj(fs) => ScanFields(mode, p, fs, path)
    case Arr(items) => ScanItems(mode, p, items, 0, path)
    case _ => []
  }

  function ScanFields(mode: ScanMode, p: Primitives, fs: seq<Field>, path: string): seq<Hit>
    decreases fs
  {
    if fs == [] then [] else FieldHits(mode, p, fs[0], path) + ScanFields(mode, p, fs[1..], path)
  }

  /** One key of a dict: its name, then its value if a string, then the value's contents. */
  function FieldHits(mode: ScanMode, p: Primitives, f: Field, path: string): seq<Hit>
    decreases f
  {
    var here := ChildPath(path, f.key);
    (if Lower(f.key) in PiiFields then [NameHit(here)] else [])
    + (if f.val.Str? then PatternHits(p, f.val.s, here) else [])
    + Scan(mode, p, f.val, here)
  }

  function ScanItems(mode: ScanMode, p: Primitives, items: seq<Value>, start: nat, path: string): seq<Hit>
    decreases items
  {
    if items == [] then []
    else ItemHits(mode, p, items[0], ItemPath(path, start)) + ScanItems(mode, p, items[1..], start + 1, path)
  }

  /** One element of a list; only `ListAware` looks at an element that is a string. */
  function ItemHits(mode: ScanMode, p: Primitives, item: Value, here: string): seq<Hit>
    decreases item, 1
  {
    (if mode == ListAware && item.Str? then PatternHits(p, item.s, here) else [])
    + Scan(mode, p, item, here)
  }

  // ---------------------------------------------------------------------------
  // What the walk is meant to find, stated without paths or order

  /** Every key of every dict nested in `v`, `v` included. */
  function KeysIn(v: Value): set<string>
    decreases v
  {
    match v
    case Obj(fs) => FieldsKeys(fs)
    case Arr(items) => ItemsKeys(items)
    case _ => {}
  }

  function FieldsKeys(fs: seq<Field>): set<string>
    decreases fs
  {
    if fs == [] then {} else {fs[0].key} + KeysIn(fs[0].val) + FieldsKeys(fs[1..])
  }

  function ItemsKeys(items: seq<Value>): set<string>
    decreases items
  {
    if items == [] then {} else KeysIn(items[0]) + ItemsKeys(items[1..])
  }

  /** Every string held anywhere inside `v`, as a dict value or as a list element. */
  function StringsIn(v: Value): set<string>
    decreases v, 0
  {
    match v
    case Obj(fs) => FieldsStrings(fs)
    case Arr(items) => ItemsStrings(items)
    case _ => {}
  }

  function FieldsStrings(fs: seq<Field>): set<string>
    decreases fs
  {
    if fs == [] then {} else MemberStrings(fs[0].val) + FieldsStrings(fs[1..])
  }

  function ItemsStrings(items: seq<Value>): set<string>
    decreases items
  {
    if items == [] then {} else MemberStrings(items[0]) + ItemsStrings(items[1..])
  }

  /** A value held by a container: itself if a string, and whatever it holds. */
  function MemberStrings(v: Value): set<string>
    decreases v, 1
  {
    (if v.Str? then {v.s} else {}) + StringsIn(v)
  }

  predicate NameFlagged(hits: seq<Hit>) {
    exists i :: 0 <= i < |hits| && hits[i].NameHit?
  }

  predicate KindFlagged(hits: seq<Hit>, k: PiiKind) {
    exists i :: 0 <= i < |hits| && hits[i].PatternHit? && hits[i].kind == k
  }

  /** Some key of `keys` names a PII field once lower-cased. */
  predicate AnyPiiKey(keys: set<string>) {
    exists key :: key in keys && Lower(key) in PiiFields
  }

  /** The detector `k` fires on some string of `strings`. */
  predicate AnyDetected(p: Primitives, strings: set<string>, k: PiiKind) {
    exists s :: s in strings && Detects(p, k, s)
  }

  predicate PiiKeyIn(v: Value) {
    AnyPiiKey(KeysIn(v))
  }

  predicate DetectedIn(p: Primitives, v: Value, k: PiiKind) {
    AnyDetected(p, StringsIn(v), k)
  }

  lemma AnyUnion(p: Primitives, a: set<string>, b: set<string>)
    ensures AnyPiiKey(a + b) <==> AnyPiiKey(a) || AnyPiiKey(b)
    ensures forall k :: AnyDetected(p, a + b, k) <==> AnyDetected(p, a, k) || AnyDetected(p, b, k)
  {
  }

  lemma FlaggedAppend(a: seq<Hit>, b: seq<Hit>)
    ensures NameFlagged(a + b) <==> NameFlagged(a) || NameFlagged(b)
    ensures forall k :: KindFlagged(a + b, k) <==> KindFlagged(a, k) || KindFlagged(b, k)
  {
    var ab := a + b;
    if NameFlagged(ab) {
      var i :| 0 <= i < |ab| && ab[i].NameHit?;
      if i >= |a| {
        assert b[i - |a|] == ab[i];
      } else {
        assert a[i] == ab[i];
      }
    }
    if NameFlagged(a) {
      var i :| 0 <= i < |a| && a[i].NameHit?;
      assert ab[i] == a[i];
    }
    if NameFlagged(b) {
      var i :| 0 <= i < |b| && b[i].NameHit?;
      assert ab[|a| + i] == b[i];
    }
    forall k
      ensures KindFlagged(ab, k) <==> KindFlagged(a, k) || KindFlagged(b, k)
    {
      if KindFlagged(ab, k) {
        var i :| 0 <= i < |ab| && ab[i].PatternHit? && ab[i].kind == k;
        if i >= |a| {
          assert b[i - |a|] == ab[i];
        } else {
          assert a[i] == ab[i];
        }
      }
      if KindFlagged(a, k) {
        var i :| 0 <= i < |a| && a[i].PatternHit? && a[i].kind == k;
        assert ab[i] == a[i];
      }
      if KindFlagged(b, k) {
        var i :| 0 <= i < |b| && b[i].PatternHit? && b[i].kind == k;
        assert ab[|a| + i] == b[i];
      }
    }
  }

  lemma PatternHitsFlag(p: Primitives, s: string, path: string)
    ensures !NameFlagged(PatternHits(p, s, path))
    ensures forall k :: KindFlagged(PatternHits(p, s, path), k) <==> Detects(p, k, s)
  {
    var r := PatternHits(p, s, path);
    forall k | Detects(p, k, s)
      ensures KindFlagged(r, k)
    {
      var i :| 0 <= i < |r| && r[i] == PatternHit(path, k);
    }
  }

  /** The walk reports a PII field name exactly when one occurs at any depth. */
  lemma {:induction false} ScanFindsNames(mode: ScanMode, p: Primitives, v: Value, path: string)
    ensures NameFlagged(Scan(mode, p, v, path)) <==> PiiKeyIn(v)
    decreases v
  {
    match v
    case Obj(fs) => FieldsFindNames(mode, p, fs, path);
    case Arr(items) => ItemsFindNames(mode, p, items, 0, path);
    case _ =>
  }

  lemma {:induction false} FieldsFindNames(mode: ScanMode, p: Primitives, fs: seq<Field>, path: string)
    ensures NameFlagged(ScanFields(mode, p, fs, path)) <==> AnyPiiKey(FieldsKeys(fs))
    decreases fs
  {
    if fs != [] {
      var f := fs[0];
      var here := ChildPath(path, f.key);
      var name: seq<Hit> := if Lower(f.key) in PiiFields then [NameHit(here)] else [];
      var pattern := if f.val.Str? then PatternHits(p, f.val.s, here) else [];
      var nested := Scan(mode, p, f.val, here);
      assert FieldHits(mode, p, f, path) == name + pattern + nested;
      FlaggedAppend(name + pattern + nested, ScanFields(mode, p, fs[1..], path));
      FlaggedAppend(name + pattern, nested);
      FlaggedAppend(name, pattern);
      if f.val.Str? {
        PatternHitsFlag(p, f.val.s, here);
      }
      if Lower(f.key) in PiiFields {
        assert name[0].NameHit?;
        assert f.key in {f.key};
      }
      AnyUnion(p, {f.key} + KeysIn(f.val), FieldsKeys(fs[1..]));
      AnyUnion(p, {f.key}, KeysIn(f.val));
      ScanFindsNames(mode, p, f.val, here);
      FieldsFindNames(mode, p, fs[1..], path);
    }
  }

  lemma {:induction false} ItemsFindNames(mode: ScanMode, p: Primitives, items: seq<Value>, start: nat, path: string)
    ensures NameFlagged(ScanItems(mode, p, items, start, path)) <==> AnyPiiKey(ItemsKeys(items))
    decreases items
  {
    if items != [] {
      var item := items[0];
      var here := ItemPath(path, start);
      var pattern := if mode == ListAware && item.Str? then PatternHits(p, item.s, here) else [];
      assert ItemHits(mode, p, item, here) == pattern + Scan(mode, p, item, here);
      FlaggedAppend(pattern + Scan(mode, p, item, here), ScanItems(mode, p, items[1..], start + 1, path));
      FlaggedAppend(pattern, Scan(mode, p, item, here));
      if mode == ListAware && item.Str? {
        PatternHitsFlag(p, item.s, here);
      }
      AnyUnion(p, KeysIn(item), ItemsKeys(items[1..]));
      ScanFindsNames(mode, p, item, here);
      ItemsFindNames(mode, p, items[1..], start + 1, path);
    }
  }

  /**
   * Every detector hit the walk reports comes from a string inside the value;
   * in `ListAware` mode every string inside the value a detector fires on is
   * reported.
   */
  lemma {:induction false} ScanFindsPatterns(mode: ScanMode, p: Primitives, v: Value, path: string, k: PiiKind)
    ensures KindFlagged(Scan(mode, p, v, path), k) ==> DetectedIn(p, v, k)
    ensures mode == ListAware ==> (DetectedIn(p, v, k) ==> KindFlagged(Scan(mode, p, v, path), k))
    decreases v
  {
    match v
    case Obj(fs) => FieldsFindPatterns(mode, p, fs, path, k);
    case Arr(items) => ItemsFindPatterns(mode, p, items, 0, path, k);
    case _ =>
  }

  /** The strings a container member contributes, split into itself and its contents. */
  lemma MemberDetected(p: Primitives, v: Value, k: PiiKind)
    ensures AnyDetected(p, MemberStrings(v), k) <==>
      (v.Str? && Detects(p, k, v.s)) || AnyDetected(p, StringsIn(v), k)
  {
    AnyUnion(p, if v.Str? then {v.s} else {}, StringsIn(v));
    if v.Str? && Detects(p, k, v.s) {
      assert v.s in {v.s};
    }
  }

  lemma {:induction false} FieldsFindPatterns(mode: ScanMode, p: Primitives, fs: seq<Field>, path: string, k: PiiKind)
    ensures KindFlagged(ScanFields(mode, p, fs, path), k) ==> AnyDetected(p, FieldsStrings(fs), k)
    ensures mode == ListAware ==>
      (AnyDetected(p, FieldsStrings(fs), k) ==> KindFlagged(ScanFields(mode, p, fs, path), k))
    decreases fs
  {
    if fs != [] {
      var f := fs[0];
      assert ScanFields(mode, p, fs, path) == FieldHits(mode, p, f, path) + ScanFields(mode, p, fs[1..], path);
      FlaggedAppend(FieldHits(mode, p, f, path), ScanFields(mode, p, fs[1..], path));
      FieldFindsPatterns(mode, p, f, path, k);
      AnyUnion(p, MemberStrings(f.val), FieldsStrings(fs[1..]));
      FieldsFindPatterns(mode, p, fs[1..], path, k);
    }
  }

  /** One field of a dict: a kind reported for it comes from one of its strings, and in the corrected walk conversely. */
  lemma FieldFindsPatterns(mode: ScanMode, p: Primitives, f: Field, path: string, k: PiiKind)
    ensures KindFlagged(FieldHits(mode, p, f, path), k) ==> AnyDetected(p, MemberStrings(f.val), k)
    ensures mode == ListAware ==>
      (AnyDetected(p, MemberStrings(f.val), k) ==> KindFlagged(FieldHits(mode, p, f, path), k))
    decreases f
  {
    var here := ChildPath(path, f.key);
    var name: seq<Hit> := if Lower(f.key) in PiiFields then [NameHit(here)] else [];
    var pattern := if f.val.Str? then PatternHits(p, f.val.s, here) else [];
    var nested := Scan(mode, p, f.val, here);
    assert FieldHits(mode, p, f, path) == name + pattern + nested;
    FlaggedAppend(name + pattern, nested);
    FlaggedAppend(name, pattern);
    assert !KindFlagged(name, k);
    if f.val.Str? {
      PatternHitsFlag(p, f.val.s, here);
    }
    MemberDetected(p, f.val, k);
    ScanFindsPatterns(mode, p, f.val, here, k);
  }

  lemma {:induction false} ItemsFindPatterns(mode: ScanMode, p: Primitives, items: seq<Value>, start: nat,
                                            path: string, k: PiiKind)
    ensures KindFlagged(ScanItems(mode, p, items, start, path), k) ==> AnyDetected(p, ItemsStrings(items), k)
    ensures mode == ListAware ==>
      (AnyDetected(p, ItemsStrings(items), k) ==> KindFlagged(ScanItems(mode, p, items, start, path), k))
    decreases items
  {
    if items != [] {
      var item := items[0];
      var here := ItemPath(path, start);
      var pattern := if mode == ListAware && item.Str? then PatternHits(p, item.s, here) else [];
      assert ItemHits(mode, p, item, here) == pattern + Scan(mode, p, item, here);
      FlaggedAppend(pattern + Scan(mode, p, item, here), ScanItems(mode, p, items[1..], start + 1, path));
      FlaggedAppend(pattern, Scan(mode, p, item, here));
      if mode == ListAware && item.Str? {
        PatternHitsFlag(p, item.s, here);
      }
      AnyUnion(p, MemberStrings(item), ItemsStrings(items[1..]));
      MemberDetected(p, item, k);
      ScanFindsPatterns(mode, p, item, here, k);
      ItemsFindPatterns(mode, p, items[1..], start + 1, path, k);
    }
  }

  /**
   * The strings the source's walk runs the detectors on: every string that is
   * directly the value of a dict key, in dicts at any depth, reached through
   * dicts and lists alike. A string directly inside a list is not one.
   */
  function ValueStrings(v: Value): set<string>
    decreases v, 0
  {
    match v
    case Obj(fs) => FieldsValueStrings(fs)
    case Arr(items) => ItemsValueStrings(items)
    case _ => {}
  }

  function FieldsValueStrings(fs: seq<Field>): set<string>
    decreases fs
  {
    if fs == [] then {}
    else KeyValueStrings(fs[0].val) + FieldsValueStrings(fs[1..])
  }

  function ItemsValueStrings(items: seq<Value>): set<string>
    decreases items
  {
    if items == [] then {} else ValueStrings(items[0]) + ItemsValueStrings(items[1..])
  }

  /** The value of a dict key: itself if a string, and what the walk finds inside it. */
  function KeyValueStrings(v: Value): set<string>
    decreases v, 1
  {
    (if v.Str? then {v.s} else {}) + ValueStrings(v)
  }

  /**
   * The source's walk flags detector `k` exactly when `k` fires on some string
   * held directly as a dict value, at any depth.
   */
  lemma {:induction false} AsWrittenFindsPatterns(p: Primitives, v: Value, path: string, k: PiiKind)
    ensures KindFlagged(Scan(AsWritten, p, v, path), k) <==> AnyDetected(p, ValueStrings(v), k)
    decreases v
  {
    match v
    case Obj(fs) => FieldsAsWritten(p, fs, path, k);
    case Arr(items) => ItemsAsWritten(p, items, 0, path, k);
    case _ =>
  }

  lemma KeyValueDetected(p: Primitives, v: Value, k: PiiKind)
    ensures AnyDetected(p, KeyValueStrings(v), k) <==>
      (v.Str? && Detects(p, k, v.s)) || AnyDetected(p, ValueStrings(v), k)
  {
    AnyUnion(p, if v.Str? then {v.s} else {}, ValueStrings(v));
    if v.Str? && Detects(p, k, v.s) {
      assert v.s in {v.s};
    }
  }

  lemma {:induction false} FieldsAsWritten(p: Primitives, fs: seq<Field>, path: string, k: PiiKind)
    ensures KindFlagged(ScanFields(AsWritten, p, fs, path), k) <==> AnyDetected(p, FieldsValueStrings(fs), k)
    decreases fs
  {
    if fs != [] {
      var f := fs[0];
      assert ScanFields(AsWritten, p, fs, path) == FieldHits(AsWritten, p, f, path) + ScanFields(AsWritten, p, fs[1..], path);
      FlaggedAppend(FieldHits(AsWritten, p, f, path), ScanFields(AsWritten, p, fs[1..], path));
      FieldAsWritten(p, f, path, k);
      AnyUnion(p, KeyValueStrings(f.val), FieldsValueStrings(fs[1..]));
      FieldsAsWritten(p, fs[1..], path, k);
    }
  }

  /** One field of a dict: the source reports a kind for it exactly when a detector fires on its value's strings. */
  lemma FieldAsWritten(p: Primitives, f: Field, path: string, k: PiiKind)
    ensures KindFlagged(FieldHits(AsWritten, p, f, path), k) <==> AnyDetected(p, KeyValueStrings(f.val), k)
    decreases f
  {
    var here := ChildPath(path, f.key);
    var name: seq<Hit> := if Lower(f.key) in PiiFields then [NameHit(here)] else [];
    var pattern := if f.val.Str? then PatternHits(p, f.val.s, here) else [];
    var nested := Scan(AsWritten, p, f.val, here);
    assert FieldHits(AsWritten, p, f, path) == name + pattern + nested;
    FlaggedAppend(name + pattern, nested);
    FlaggedAppend(name, pattern);
    assert !KindFlagged(name, k);
    if f.val.Str? {
      PatternHitsFlag(p, f.val.s, here);
    }
    KeyValueDetected(p, f.val, k);
    AsWrittenFindsPatterns(p, f.val, here, k);
  }

  lemma {:induction false} ItemsAsWritten(p: Primitives, items: seq<Value>, start: nat, path: string, k: PiiKind)
    ensures KindFlagged(ScanItems(AsWritten, p, items, start, path), k) <==>
      AnyDetected(p, ItemsValueStrings(items), k)
    decreases items
  {
    if items != [] {
      var item := items[0];
      var here := ItemPath(path, start);
      assert ItemHits(AsWritten, p, item, here) == [] + Scan(AsWritten, p, item, here);
      FlaggedAppend(Scan(AsWritten, p, item, here), ScanItems(AsWritten, p, items[1..], start + 1, path));
      assert [] + Scan(AsWritten, p, item, here) == Scan(AsWritten, p, item, here);
      AnyUnion(p, ValueStrings(item), ItemsValueStrings(items[1..]));
      AsWrittenFindsPatterns(p, item, here, k);
      ItemsAsWritten(p, items[1..], start + 1, path, k);
    }
  }

  /**
   * A top-level string value a detector fires on is reported as an issue
   * naming its key and the detector, in either mode.
   */
  lemma TopLevelPatternIssue(mode: ScanMode, cfg: PrivacyConfig, p: Primitives, fs: seq<Field>, i: nat, k: PiiKind)
    requires i < |fs| && fs[i].val.Str? && Detects(p, k, fs[i].val.s)
    ensures IssuePrefix + fs[i].key + " (" + KindName(k) + ")" in Validate(mode, cfg, p, Obj(fs)).issues
  {
    TopLevelPatternHit(mode, p, fs, i, k);
    HitIsIssue(mode, cfg, p, Obj(fs), PatternHit(fs[i].key, k));
    PatternIssueText(fs[i].key, k);
  }

  lemma PatternIssueText(path: string, k: PiiKind)
    ensures IssueText(PatternHit(path, k)) == IssuePrefix + path + " (" + KindName(k) + ")"
  {
    assert IssueText(PatternHit(path, k)) == IssuePrefix + (path + " (" + KindName(k) + ")");
  }

  lemma TopLevelPatternHit(mode: ScanMode, p: Primitives, fs: seq<Field>, i: nat, k: PiiKind)
    requires i < |fs| && fs[i].val.Str? && Detects(p, k, fs[i].val.s)
    ensures PatternHit(fs[i].key, k) in Scan(mode, p, Obj(fs), "")
  {
    FieldPatternHit(mode, p, fs, i, "", k);
  }

  /** A detecting string held by key `f` of a dict is reported at `path.f`, in either walk. */
  lemma FieldPatternHit(mode: ScanMode, p: Primitives, fs: seq<Field>, i: nat, path: string, k: PiiKind)
    requires i < |fs| && fs[i].val.Str? && Detects(p, k, fs[i].val.s)
    ensures PatternHit(ChildPath(path, fs[i].key), k) in Scan(mode, p, Obj(fs), path)
  {
    FieldsContainField(mode, p, fs, i, path);
    var here := ChildPath(path, fs[i].key);
    assert PatternHit(here, k) in PatternHits(p, fs[i].val.s, here);
    assert FieldHits(mode, p, fs[i], path) ==
      (if Lower(fs[i].key) in PiiFields then [NameHit(here)] else [])
      + PatternHits(p, fs[i].val.s, here) + Scan(mode, p, fs[i].val, here);
  }

  /**
   * A hit found inside the value of key `f` is reported by the walk of the
   * enclosing dict, under the path the child walk gave it.
   */
  lemma NestedHit(mode: ScanMode, p: Primitives, fs: seq<Field>, i: nat, path: string, h: Hit)
    requires i < |fs| && h in Scan(mode, p, fs[i].val, ChildPath(path, fs[i].key))
    ensures h in Scan(mode, p, Obj(fs), path)
  {
    FieldsContainField(mode, p, fs, i, path);
    var here := ChildPath(path, fs[i].key);
    assert !fs[i].val.Str?;
    assert FieldHits(mode, p, fs[i], path) ==
      (if Lower(fs[i].key) in PiiFields then [NameHit(here)] else []) + [] + Scan(mode, p, fs[i].val, here);
  }

  /** Every hit of the walk is reported as an issue. */
  lemma HitIsIssue(mode: ScanMode, cfg: PrivacyConfig, p: Primitives, data: Value, h: Hit)
    requires h in Scan(mode, p, data, "")
    ensures IssueText(h) in Validate(mode, cfg, p, data).issues
  {
    var hits := Scan(mode, p, data, "");
    var j :| 0 <= j < |hits| && hits[j] == h;
    assert Validate(mode, cfg, p, data).issues[j] == IssueText(h);
  }

  /** A top-level key that is a PII field name is reported under its own name. */
  lemma TopLevelNameHit(mode: ScanMode, p: Primitives, fs: seq<Field>, i: nat)
    requires i < |fs| && Lower(fs[i].key) in PiiFields
    ensures NameHit(fs[i].key) in Scan(mode, p, Obj(fs), "")
  {
    FieldsContainField(mode, p, fs, i, "");
    assert FieldHits(mode, p, fs[i], "")[0] == NameHit(fs[i].key);
  }

  lemma {:induction false} FieldsContainField(mode: ScanMode, p: Primitives, fs: seq<Field>, i: nat, path: string)
    requires i < |fs|
    ensures forall h :: h in FieldHits(mode, p, fs[i], path) ==> h in ScanFields(mode, p, fs, path)
    decreases i
  {
    ScanFieldsCons(mode, p, fs, path);
    if i > 0 {
      assert fs[1..][i - 1] == fs[i];
      FieldsContainField(mode, p, fs[1..], i - 1, path);
    }
  }

  lemma ScanFieldsCons(mode: ScanMode, p: Primitives, fs: seq<Field>, path: string)
    requires fs != []
    ensures forall h :: h in FieldHits(mode, p, fs[0], path) ==> h in ScanFields(mode, p, fs, path)
    ensures forall h :: h in ScanFields(mode, p, fs[1..], path) ==> h in ScanFields(mode, p, fs, path)
  {
    assert ScanFields(mode, p, fs, path) == FieldHits(mode, p, fs[0], path) + ScanFields(mode, p, fs[1..], path);
  }

  // ---------------------------------------------------------------------------
  // The verdict

  datatype Validation = Validation(compliant: bool, issues: seq<string>, recommendations: seq<string>)

  const FerpaDisabledNote: string := "FERPA compliance mode is disabled"
  const AnonymizeAdvice: string := "Apply data anonymization before storing or sharing data"
  const MissingMetadataIssue: string := "Data contains PII but lacks anonymization metadata"
  const PrivacyLevelAdvice: string := "Add privacy_level metadata to indicate compliance status"
  const IssuePrefix: string := "PII found in field: "

  /** An entry of `pii_found`: the path, with the detector name for a value hit. */
  function HitText(h: Hit): string {
    match h
    case NameHit(path) => path
    case PatternHit(path, k) => path + " (" + KindName(k) + ")"
  }

  function IssueText(h: Hit): (r: string)
    ensures |r| >= |IssuePrefix| && r[..|IssuePrefix|] == IssuePrefix
  {
    IssuePrefix + HitText(h)
  }

  /** A dict with PII and no `anonymized_at` gets the extra metadata issue. */
  predicate LacksMetadata(data: Value, hits: seq<Hit>) {
    data.Obj? && AnonymizedAtKey !in Keys(data.fields) && hits != []
  }

  predicate LacksPrivacyLevel(data: Value) {
    data.Obj? && PrivacyLevelKey !in Keys(data.fields)
  }

  function Count(b: bool): nat {
    if b then 1 else 0
  }

  /** `validate_ferpa_compliance`, with the walk in the given mode. */
  function Validate(mode: ScanMode, cfg: PrivacyConfig, p: Primitives, data: Value): (r: Validation)
    ensures r.compliant <==> Scan(mode, p, data, "") == []
    ensures |r.issues| == |Scan(mode, p, data, "")| + Count(LacksMetadata(data, Scan(mode, p, data, "")))
    ensures forall i :: 0 <= i < |Scan(mode, p, data, "")| ==> r.issues[i] == IssueText(Scan(mode, p, data, "")[i])
    ensures LacksMetadata(data, Scan(mode, p, data, "")) ==> r.issues[|Scan(mode, p, data, "")|] == MissingMetadataIssue
    ensures FerpaDisabledNote in r.recommendations <==> !cfg.ferpaEnabled
    ensures AnonymizeAdvice in r.recommendations <==> Scan(mode, p, data, "") != []
    ensures PrivacyLevelAdvice in r.recommendations <==> LacksPrivacyLevel(data)
    ensures |r.recommendations| ==
      Count(!cfg.ferpaEnabled) + Count(Scan(mode, p, data, "") != []) + Count(LacksPrivacyLevel(data))
    ensures !cfg.ferpaEnabled ==> r.recommendations[0] == FerpaDisabledNote
    ensures Scan(mode, p, data, "") != [] ==> r.recommendations[Count(!cfg.ferpaEnabled)] == AnonymizeAdvice
    ensures LacksPrivacyLevel(data) ==> r.recommendations[|r.recommendations| - 1] == PrivacyLevelAdvice
  {
    var hits := Scan(mode, p, data, "");
    Validation(hits == [], Issues(hits, LacksMetadata(data, hits)),
      Recommendations(!cfg.ferpaEnabled, hits != [], LacksPrivacyLevel(data)))
  }

  /** `issues`: one entry per hit, then the metadata issue when `lacksMetadata`. */
  function Issues(hits: seq<Hit>, lacksMetadata: bool): (r: seq<string>)
    ensures |r| == |hits| + Count(lacksMetadata)
    ensures forall i :: 0 <= i < |hits| ==> r[i] == IssueText(hits[i])
    ensures lacksMetadata ==> r[|hits|] == MissingMetadataIssue
  {
    var found := seq(|hits|, i requires 0 <= i < |hits| => IssueText(hits[i]));
    found + (if lacksMetadata then [MissingMetadataIssue] else [])
  }

  /**
   * `recommendations`: the FERPA note when the mode is off, the anonymisation
   * advice when PII was found, the privacy-level advice when the level is
   * missing, each exactly when its condition holds and in that order.
   */
  function Recommendations(ferpaOff: bool, found: bool, lacksLevel: bool): (r: seq<string>)
    ensures FerpaDisabledNote in r <==> ferpaOff
    ensures AnonymizeAdvice in r <==> found
    ensures PrivacyLevelAdvice in r <==> lacksLevel
    ensures |r| == Count(ferpaOff) + Count(found) + Count(lacksLevel)
    ensures ferpaOff ==> r[0] == FerpaDisabledNote
    ensures found ==> r[Count(ferpaOff)] == AnonymizeAdvice
    ensures lacksLevel ==> r[|r| - 1] == PrivacyLevelAdvice
  {
    AdviceDistinct();
    Chosen(FerpaDisabledNote, AnonymizeAdvice, PrivacyLevelAdvice, ferpaOff, found, lacksLevel);
    (if ferpaOff then [FerpaDisabledNote] else [])
    + (if found then [AnonymizeAdvice] else [])
    + (if lacksLevel then [PrivacyLevelAdvice] else [])
  }

  lemma AdviceDistinct()
    ensures FerpaDisabledNote != AnonymizeAdvice && FerpaDisabledNote != PrivacyLevelAdvice
    ensures AnonymizeAdvice != PrivacyLevelAdvice
  {
    assert |FerpaDisabledNote| == 33 && |AnonymizeAdvice| == 55 && |PrivacyLevelAdvice| == 56;
  }

  /** Three distinct entries, each included when its flag is set, keep their order. */
  lemma Chosen<T>(a: T, b: T, c: T, x: bool, y: bool, z: bool)
    requires a != b && a != c && b != c
    ensures var s := (if x then [a] else []) + (if y then [b] else []) + (if z then [c] else []);
      && (a in s <==> x) && (b in s <==> y) && (c in s <==> z)
      && |s| == Count(x) + Count(y) + Count(z)
      && (x ==> s[0] == a) && (y ==> s[Count(x)] == b) && (z ==> s[|s| - 1] == c)
  {
  }

  /** Whatever the source flags, the corrected walk flags too, for the same reason. */
  lemma AsWrittenFlagsOnlyPii(cfg: PrivacyConfig, p: Primitives, data: Value)
    ensures !Validate(AsWritten, cfg, p, data).compliant ==>
      PiiKeyIn(data) || exists k :: DetectedIn(p, data, k)
  {
    var hits := Scan(AsWritten, p, data, "");
    if hits != [] {
      if hits[0].NameHit? {
        ScanFindsNames(AsWritten, p, data, "");
      } else {
        assert KindFlagged(hits, hits[0].kind);
        ScanFindsPatterns(AsWritten, p, data, "", hits[0].kind);
      }
    }
  }

  /**
   * The corrected validator rejects a value exactly when a PII field name
   * occurs in it at any depth or a detector fires on a string anywhere in it.
   */
  lemma ListAwareFlagsExactlyPii(cfg: PrivacyConfig, p: Primitives, data: Value)
    ensures !Validate(ListAware, cfg, p, data).compliant <==>
      PiiKeyIn(data) || exists k :: DetectedIn(p, data, k)
  {
    var hits := Scan(ListAware, p, data, "");
    ScanFindsNames(ListAware, p, data, "");
    forall k
      ensures KindFlagged(hits, k) <==> DetectedIn(p, data, k)
    {
      ScanFindsPatterns(ListAware, p, data, "", k);
    }
    if hits != [] {
      if hits[0].NameHit? {
        assert NameFlagged(hits);
      } else {
        assert KindFlagged(hits, hits[0].kind);
      }
    }
  }

  /**
   * A dict whose only key is not a PII name and holds a one-element list of
   * the string `e`: the source reports nothing, the corrected walk reports
   * every detector that fires on `e`, at `key[0]`.
   */
  lemma ListedStringHits(p: Primitives, key: string, e: string)
    requires Lower(key) !in PiiFields && key != []
    ensures StringsIn(Obj([Field(key, Arr([Str(e)]))])) == {e}
    ensures Scan(AsWritten, p, Obj([Field(key, Arr([Str(e)]))]), "") == []
    ensures Scan(ListAware, p, Obj([Field(key, Arr([Str(e)]))]), "") == PatternHits(p, e, ItemPath(key, 0))
  {
    var item := Str(e);
    var list := Arr([item]);
    var fs := [Field(key, list)];
    assert fs[1..] == [] && [item][1..] == [];
    assert MemberStrings(item) == {e};
    assert StringsIn(list) == ItemsStrings([item]) == {e};
    assert FieldsStrings(fs) == MemberStrings(list) == {e};
    var found := PatternHits(p, e, ItemPath(key, 0));
    assert Scan(ListAware, p, item, ItemPath(key, 0)) == [];
    assert ItemHits(ListAware, p, item, ItemPath(key, 0)) == found + [] == found;
    assert ItemHits(AsWritten, p, item, ItemPath(key, 0)) == [];
    assert ScanItems(ListAware, p, [item][1..], 1, key) == [];
    assert ScanItems(ListAware, p, [item], 0, key) == found + [] == found;
    assert ScanItems(AsWritten, p, [item], 0, key) == [];
    assert ChildPath("", key) == key;
    assert Scan(ListAware, p, list, key) == found;
    assert Scan(AsWritten, p, list, key) == [];
    assert FieldHits(ListAware, p, fs[0], "") == [] + [] + found == found;
    assert FieldHits(AsWritten, p, fs[0], "") == [] + [] + [] == [];
    assert ScanFields(ListAware, p, fs, "") == found + ScanFields(ListAware, p, fs[1..], "") == found;
    assert ScanFields(AsWritten, p, fs, "") == [] + ScanFields(AsWritten, p, fs[1..], "") == [];
  }

  lemma ContactsIsPlain()
    ensures Lower("contacts") !in PiiFields
    ensures ItemPath("contacts", 0) == "contacts[0]"
  {
    ContactsIsLower();
    ContactsIsNotPii();
    FirstItemPath("contacts");
    assert "contacts" + "[0]" == "contacts[0]";
  }

  lemma FirstItemPath(path: string)
    ensures ItemPath(path, 0) == path + "[0]"
  {
    assert NatToString(0) == [DigitChar(0)] == ['0'];
    assert "[" + ['0'] + "]" == "[0]";
  }

  lemma ContactsIsLower()
    ensures Lower("contacts") == "contacts"
  {
    var s := ['c', 'o', 'n', 't', 'a', 'c', 't', 's'];
    assert s == "contacts";
    LowerOfLowercase(s);
  }

  /** A string without upper-case letters is its own lower case. */
  lemma LowerOfLowercase(s: string)
    requires forall i :: 0 <= i < |s| ==> !('A' <= s[i] <= 'Z')
    ensures Lower(s) == s
  {
    assert forall i :: 0 <= i < |s| ==> Lower(s)[i] == s[i];
  }

  lemma ContactsIsNotPii()
    ensures "contacts" !in PiiFields
  {
    assert |"contacts"| == 8;
    assert "contacts"[7] != "login_id"[7];
  }

  /**
   * The source passes `{"contacts": [e]}` as compliant for an email address
   * `e`, while the corrected validator reports `contacts[0] (email)`.
   */
  lemma ListedEmailIsMissed(cfg: PrivacyConfig, p: Primitives, e: string)
    requires p.emailLike(e)
    ensures var data := Obj([Field("contacts", Arr([Str(e)]))]);
      && DetectedIn(p, data, EmailPattern)
      && Validate(AsWritten, cfg, p, data).compliant
      && !Validate(ListAware, cfg, p, data).compliant
      && IssueText(PatternHit("contacts[0]", EmailPattern)) in Validate(ListAware, cfg, p, data).issues
  {
    var data := Obj([Field("contacts", Arr([Str(e)]))]);
    ContactsIsPlain();
    ListedStringHits(p, "contacts", e);
    var found := PatternHits(p, e, "contacts[0]");
    assert PatternHit("contacts[0]", EmailPattern) in found;
    assert e in StringsIn(data) && Detects(p, EmailPattern, e);
    var i :| 0 <= i < |found| && found[i] == PatternHit("contacts[0]", EmailPattern);
    assert Validate(ListAware, cfg, p, data).issues[i] == IssueText(found[i]);
  }

  // ---------------------------------------------------------------------------
  // The report (`generate_privacy_report`)

  datatype PrivacyMeasures = PrivacyMeasures(
    dataAnonymization: bool,
    fieldEncryption: bool,
    piiDetection: bool,
    auditLogging: bool)

  datatype PrivacyReport = PrivacyReport(
    generatedAt: string,
    ferpaComplianceEnabled: bool,
    anonymizationEnabled: bool,
    auditLoggingEnabled: bool,
    collectionsAnalyzed: seq<string>,
    privacyMeasures: PrivacyMeasures,
    recommendations: seq<string>)

  const EnableFerpaAdvice: string := "Enable FERPA compliance mode for educational data"
  const EnableAnonymizationAdvice: string := "Enable data anonymization for PII protection"
  const EnableAuditAdvice: string := "Enable audit logging for compliance tracking"

  /**
   * `generate_privacy_report`: the toggles and the analysed collections as
   * given, and one recommendation per disabled toggle, in the order FERPA
   * mode, anonymisation, audit logging.
   */
  function GeneratePrivacyReport(cfg: PrivacyConfig, now: string, collections: seq<string>): (r: PrivacyReport)
    ensures r.generatedAt == now && r.collectionsAnalyzed == collections
    ensures r.ferpaComplianceEnabled == cfg.ferpaEnabled
    ensures r.anonymizationEnabled == cfg.anonymizationEnabled
    ensures r.auditLoggingEnabled == cfg.auditEnabled
    ensures r.privacyMeasures.dataAnonymization == cfg.anonymizationEnabled
    ensures r.privacyMeasures.auditLogging == cfg.auditEnabled
    ensures r.privacyMeasures.fieldEncryption && r.privacyMeasures.piiDetection
    ensures EnableFerpaAdvice in r.recommendations <==> !cfg.ferpaEnabled
    ensures EnableAnonymizationAdvice in r.recommendations <==> !cfg.anonymizationEnabled
    ensures EnableAuditAdvice in r.recommendations <==> !cfg.auditEnabled
    ensures |r.recommendations| ==
      Count(!cfg.ferpaEnabled) + Count(!cfg.anonymizationEnabled) + Count(!cfg.auditEnabled)
  {
    var recommendations :=
      (if !cfg.ferpaEnabled then [EnableFerpaAdvice] else [])
      + (if !cfg.anonymizationEnabled then [EnableAnonymizationAdvice] else [])
      + (if !cfg.auditEnabled then [EnableAuditAdvice] else []);
    PrivacyReport(now, cfg.ferpaEnabled, cfg.anonymizationEnabled, cfg.auditEnabled, collections,
                  PrivacyMeasures(cfg.anonymizationEnabled, true, true, cfg.auditEnabled),
                  recommendations)
  }

  /** The report recommends nothing exactly when every toggle is on, and is ordered when all are off. */
  lemma ReportRecommendations(cfg: PrivacyConfig, now: string, collections: seq<string>)
    ensures GeneratePrivacyReport(cfg, now, collections).recommendations == [] <==>
      cfg.ferpaEnabled && cfg.anonymizationEnabled && cfg.auditEnabled
    ensures !cfg.ferpaEnabled && !cfg.anonymizationEnabled && !cfg.auditEnabled ==>
      GeneratePrivacyReport(cfg, now, collections).recommendations
        == [EnableFerpaAdvice, EnableAnonymizationAdvice, EnableAuditAdvice]
  {
  }

  /** Environment variables left unset give a report without recommendations. */
  lemma DefaultReportIsClean(now: string, collections: seq<string>)
    ensures GeneratePrivacyReport(ConfigFromEnv(None, None, None), now, collections).recommendations == []
  {
  }

  /**
   * From the environment to the report: a recommendation to enable a toggle
   * appears exactly when its variable is set to something other than "true"
   * up to case.
   */
  lemma ReportFromEnv(ferpa: Option<string>, audit: Option<string>, anonymization: Option<string>,
                      now: string, collections: seq<string>)
    ensures var r := GeneratePrivacyReport(ConfigFromEnv(ferpa, audit, anonymization), now, collections);
      && (EnableFerpaAdvice in r.recommendations <==> ferpa.Some? && !SpellsTrue(ferpa.value))
      && (EnableAuditAdvice in r.recommendations <==> audit.Some? && !SpellsTrue(audit.value))
      && (EnableAnonymizationAdvice in r.recommendations <==>
            anonymization.Some? && !SpellsTrue(anonymization.value))
  {
  }

  /** The validator's FERPA note and the report's FERPA advice follow the same toggle. */
  lemma FerpaNoteAgreesWithReport(mode: ScanMode, cfg: PrivacyConfig, p: Primitives, data: Value,
                                  now: string, collections: seq<string>)
    ensures FerpaDisabledNote in Validate(mode, cfg, p, data).recommendations <==>
      EnableFerpaAdvice in GeneratePrivacyReport(cfg, now, collections).recommendations
  {
  }
}
