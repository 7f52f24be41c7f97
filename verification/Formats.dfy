/**
 * The format registry of the container format: a container names its format as
 * `name-X.Y.Z` in the `format` member of its model; checking runs the validators of
 * the root, of the format and of the version; upgrading applies the newest migrator
 * of the version and checks the result.
 *
 * The registry is what the module-level directory scan builds; here it is a value.
 * A container is seen through its meta objects and its sprite ids in visiting order.
 */
module Formats {
  import opened Common
  import opened Containers

  /** A container as validators and migrators see it. */
  datatype Snapshot = Snapshot(metaObjects: map<string, Json>, spriteOrder: seq<int>)

  /** A validator returns normally or throws. */
  type Validator = Snapshot -> Outcome

  /** A migrator turns a container into one of a newer version. */
  type Migrator = Snapshot -> Snapshot

  /** A semantic version restricted to its `X.Y.Z` core. */
  datatype Version = Version(major: nat, minor: nat, patch: nat)

  /** `semver.gt(a, b)`: precedence by major, then minor, then patch, numerically. */
  predicate Newer(a: Version, b: Version) {
    a.major > b.major
    || (a.major == b.major && a.minor > b.minor)
    || (a.major == b.major && a.minor == b.minor && a.patch > b.patch)
  }

  /** Precedence is a strict total order on versions. */
  lemma NewerIsStrictTotal(a: Version, b: Version, c: Version)
    ensures !Newer(a, a)
    ensures Newer(a, b) && Newer(b, c) ==> Newer(a, c)
    ensures a == b || Newer(a, b) || Newer(b, a)
  {
  }

  predicate DistinctKeys(entries: seq<(Version, Migrator)>) {
    forall i, j | 0 <= i < j < |entries| :: entries[i].0 != entries[j].0
  }

  /** The migrators of a version, in the order the scan found them; a map, so keys differ. */
  type Migrators = entries: seq<(Version, Migrator)> | DistinctKeys(entries) witness []

  datatype VersionEntry = VersionEntry(validators: seq<Validator>, migrators: Migrators)
  datatype FormatEntry = FormatEntry(validators: seq<Validator>, versions: map<string, VersionEntry>)

  /** The scanned registry: root validators and the formats by name. */
  datatype Registry = Registry(validators: seq<Validator>, formats: map<string, FormatEntry>)

  // The `name-X.Y.Z` grammar.

  predicate IsNameChar(c: char) {
    'a' <= c <= 'z' || c == '_'
  }

  predicate IsDigit(c: char) {
    '0' <= c <= '9'
  }

  predicate AllName(s: string) {
    forall i | 0 <= i < |s| :: IsNameChar(s[i])
  }

  predicate AllDigits(s: string) {
    forall i | 0 <= i < |s| :: IsDigit(s[i])
  }

  /** `\d+\.\d+\.\d+` read as the parts `a`, `b` and `c`. */
  predicate VersionSyntax(v: string, a: string, b: string, c: string) {
    v == a + "." + b + "." + c
    && |a| > 0 && |b| > 0 && |c| > 0
    && AllDigits(a) && AllDigits(b) && AllDigits(c)
  }

  /** `^([a-z_]+)-(\d+\.\d+\.\d+)$` read as the groups `name` and `version`. */
  ghost predicate FormatSyntax(s: string, name: string, version: string) {
    s == name + "-" + version && |name| > 0 && AllName(name)
    && exists a, b, c :: VersionSyntax(version, a, b, c)
  }

  /** The first position of `c` in `s`. */
  function Find(s: string, c: char): (r: Option<nat>)
    ensures r.Some? ==> r.value < |s| && s[r.value] == c && forall k | 0 <= k < r.value :: s[k] != c
    ensures r.None? ==> forall k | 0 <= k < |s| :: s[k] != c
  {
    if s == [] then None
    else if s[0] == c then Some(0)
    else
      var r := Find(s[1..], c);
      assert forall k | 1 <= k < |s| :: s[k] == s[1..][k - 1];
      if r.None? then None else Some(r.value + 1)
  }

  /** The decimal value of a digit string. */
  function DigitsValue(s: string): nat
    requires AllDigits(s)
  {
    if s == [] then 0 else 10 * DigitsValue(s[..|s| - 1]) + (s[|s| - 1] as int - '0' as int)
  }

  /** The digit string of `n`, without leading zeros. */
  function Decimal(n: nat): (s: string)
    ensures |s| > 0 && AllDigits(s)
  {
    if n < 10 then [('0' as int + n) as char] else Decimal(n / 10) + [('0' as int + n % 10) as char]
  }

  lemma {:induction false} DecimalValue(n: nat)
    ensures DigitsValue(Decimal(n)) == n
  {
    if n >= 10 {
      DecimalValue(n / 10);
      assert Decimal(n)[..|Decimal(n)| - 1] == Decimal(n / 10);
    }
  }

  /** The version in `X.Y.Z` form. */
  function VersionText(v: Version): string {
    Decimal(v.major) + "." + Decimal(v.minor) + "." + Decimal(v.patch)
  }

  /** The parts of `\d+\.\d+\.\d+`, split at the first two dots. */
  function VersionParts(v: string): Option<(string, string, string)> {
    var i := Find(v, '.');
    if i.None? then None
    else
      var rest := v[i.value + 1..];
      var j := Find(rest, '.');
      if j.None? then None
      else
        var a, b, c := v[..i.value], rest[..j.value], rest[j.value + 1..];
        if VersionSyntax(v, a, b, c) then Some((a, b, c)) else None
  }

  /** The version a `\d+\.\d+\.\d+` text denotes. */
  function ParseVersion(v: string): (r: Option<Version>)
    ensures r.Some? <==> VersionParts(v).Some?
  {
    var parts := VersionParts(v);
    if parts.None? then None
    else
      var (a, b, c) := parts.value;
      Some(Version(DigitsValue(a), DigitsValue(b), DigitsValue(c)))
  }

  /** Splitting at the first separator of a text whose first part holds no separator gives back the parts. */
  lemma SplitAtFirst(a: string, sep: char, rest: string)
    requires forall k | 0 <= k < |a| :: a[k] != sep
    ensures Find(a + [sep] + rest, sep) == Some(|a|)
    ensures (a + [sep] + rest)[..|a|] == a && (a + [sep] + rest)[|a| + 1..] == rest
  {
    var s := a + [sep] + rest;
    assert forall k | 0 <= k < |a| :: s[k] == a[k];
    assert s[|a|] == sep;
  }

  /** Splitting a digit string, a dot and anything at the first dot gives back the digits. */
  lemma SplitAtDot(a: string, rest: string)
    requires AllDigits(a)
    ensures Find(a + "." + rest, '.') == Some(|a|)
    ensures (a + "." + rest)[..|a|] == a && (a + "." + rest)[|a| + 1..] == rest
  {
    assert forall k | 0 <= k < |a| :: a[k] != '.' by {
      forall k | 0 <= k < |a| ensures a[k] != '.' { assert IsDigit(a[k]); }
    }
    SplitAtFirst(a, '.', rest);
  }

  /** The grammar `\d+\.\d+\.\d+` holds exactly for the texts `VersionParts` splits. */
  lemma VersionPartsExactly(v: string, a: string, b: string, c: string)
    ensures VersionSyntax(v, a, b, c) <==> VersionParts(v) == Some((a, b, c))
  {
    if VersionSyntax(v, a, b, c) {
      SplitAtDot(a, b + "." + c);
      assert v == a + "." + (b + "." + c);
      SplitAtDot(b, c);
    }
  }

  /** The version texts are exactly `VersionText` of a version, when written without leading zeros. */
  lemma VersionRoundTrip(v: Version)
    ensures ParseVersion(VersionText(v)) == Some(v)
  {
    var a, b, c := Decimal(v.major), Decimal(v.minor), Decimal(v.patch);
    assert VersionSyntax(VersionText(v), a, b, c);
    VersionPartsExactly(VersionText(v), a, b, c);
    DecimalValue(v.major);
    DecimalValue(v.minor);
    DecimalValue(v.patch);
  }

  /** `formatPattern.exec(formatId)`: the name and version groups, or no match. */
  function ParseFormatId(s: string): Option<(string, string)> {
    var i := Find(s, '-');
    if i.None? then None
    else
      var name, version := s[..i.value], s[i.value + 1..];
      if |name| > 0 && AllName(name) && VersionParts(version).Some? then Some((name, version)) else None
  }

  /** The parse accepts exactly the texts of the grammar, with the groups it names. */
  lemma FormatIdExactly(s: string, name: string, version: string)
    ensures ParseFormatId(s) == Some((name, version)) <==> FormatSyntax(s, name, version)
  {
    if FormatSyntax(s, name, version) {
      FormatIdComplete(s, name, version);
    }
    if ParseFormatId(s) == Some((name, version)) {
      FormatIdSound(s, name, version);
    }
  }

  lemma FormatIdComplete(s: string, name: string, version: string)
    requires FormatSyntax(s, name, version)
    ensures ParseFormatId(s) == Some((name, version))
  {
    var a, b, c :| VersionSyntax(version, a, b, c);
    VersionPartsExactly(version, a, b, c);
    assert forall k | 0 <= k < |name| :: name[k] != '-' by {
      forall k | 0 <= k < |name| ensures name[k] != '-' { assert IsNameChar(name[k]); }
    }
    SplitAtFirst(name, '-', version);
  }

  lemma FormatIdSound(s: string, name: string, version: string)
    requires ParseFormatId(s) == Some((name, version))
    ensures FormatSyntax(s, name, version)
  {
    var i := Find(s, '-').value;
    Rejoin(s, i);
    VersionPartsSound(version);
  }

  lemma Rejoin(s: string, i: nat)
    requires i < |s|
    ensures s == s[..i] + [s[i]] + s[i + 1..]
  {
  }

  /** What `VersionParts` splits follows the grammar. */
  lemma VersionPartsSound(v: string)
    requires VersionParts(v).Some?
    ensures exists a, b, c :: VersionSyntax(v, a, b, c)
  {
    var (a, b, c) := VersionParts(v).value;
    assert VersionSyntax(v, a, b, c);
  }

  /** A format id built from a name and a version parses back to them. */
  lemma FormatIdRoundTrip(name: string, v: Version)
    requires |name| > 0 && AllName(name)
    ensures ParseFormatId(name + "-" + VersionText(v)) == Some((name, VersionText(v)))
  {
    var a, b, c := Decimal(v.major), Decimal(v.minor), Decimal(v.patch);
    assert VersionSyntax(VersionText(v), a, b, c);
    FormatIdExactly(name + "-" + VersionText(v), name, VersionText(v));
  }

  // `getContainerFormatVersion`.

  const ModelRequired := "Meta object '" + ModelKey + "' required!"
  const FormatRequired := "`format` attribute required!"
  const WrongSyntax := "Wrong syntax for `format` attribute"

  function UnknownFormat(name: string): string {
    "Unknown format '" + name + "'!"
  }

  function UnknownVersion(name: string, version: string): string {
    "Unknown format version '" + name + "-" + version + "'!"
  }

  /**
   * The text `exec` matches against, where it can match at all: a string itself, or
   * the only element of a one-element array. Every other value converts to a text
   * without the pattern's shape (a number, a boolean, `[object Object]`, or an
   * array's comma-joined elements).
   */
  function MatchText(j: Json): Option<string> {
    match j
    case JStr(s) => Some(s)
    case JArr(items) => if |items| == 1 then MatchText(items[0]) else None
    case _ => None
  }

  /** A container's format name and version text. */
  datatype FormatVersion = FormatVersion(name: string, version: string)

  /** `getContainerFormatVersion` on the meta objects of a container. */
  function GetFormatVersion(metaObjects: map<string, Json>): (r: Result<FormatVersion>)
    ensures r.Ok? ==>
      ModelKey in metaObjects
      && Member(metaObjects[ModelKey], "format").Some?
      && MatchText(Member(metaObjects[ModelKey], "format").value).Some?
      && FormatSyntax(MatchText(Member(metaObjects[ModelKey], "format").value).value, r.value.name, r.value.version)
    ensures r.Ok? ==> ParseVersion(r.value.version).Some?
  {
    if ModelKey !in metaObjects || metaObjects[ModelKey] == JNull then Err(ModelRequired)
    else
      var formatId := Member(metaObjects[ModelKey], "format");
      if formatId.None? || !Truthy(formatId.value) then Err(FormatRequired)
      else
        var text := MatchText(formatId.value);
        var parsed := if text.None? then None else ParseFormatId(text.value);
        if parsed.None? then Err(WrongSyntax)
        else
          FormatIdExactly(text.value, parsed.value.0, parsed.value.1);
          Ok(FormatVersion(parsed.value.0, parsed.value.1))
  }

  /**
   * The errors of `getContainerFormatVersion`, in order: no model (absent or null), no
   * truthy `format`, then a `format` outside the grammar.
   */
  lemma FormatVersionErrors(metaObjects: map<string, Json>)
    ensures GetFormatVersion(metaObjects) == Err(ModelRequired) <==>
      ModelKey !in metaObjects || metaObjects[ModelKey] == JNull
    ensures ModelKey in metaObjects && metaObjects[ModelKey] != JNull ==>
      var formatId := Member(metaObjects[ModelKey], "format");
      (GetFormatVersion(metaObjects) == Err(FormatRequired) <==> formatId.None? || !Truthy(formatId.value))
      && (formatId.Some? && Truthy(formatId.value) ==>
        (GetFormatVersion(metaObjects) == Err(WrongSyntax) <==>
          MatchText(formatId.value).None?
          || forall name, version :: !FormatSyntax(MatchText(formatId.value).value, name, version)))
  {
    if ModelKey in metaObjects && metaObjects[ModelKey] != JNull {
      var formatId := Member(metaObjects[ModelKey], "format");
      if formatId.Some? && Truthy(formatId.value) && MatchText(formatId.value).Some? {
        var text := MatchText(formatId.value).value;
        forall name, version | FormatSyntax(text, name, version)
          ensures ParseFormatId(text).Some?
        {
          FormatIdExactly(text, name, version);
        }
      }
    }
  }

  // `checkContainer`.

  /** `validators.forEach(validator => validator(container))`: the first validator to throw stops the rest. */
  function RunAll(validators: seq<Validator>, c: Snapshot): (r: Outcome)
    ensures r.Pass? <==> forall i | 0 <= i < |validators| :: validators[i](c).Pass?
    ensures r.Fail? ==> exists i | 0 <= i < |validators| ::
      r == validators[i](c) && forall k | 0 <= k < i :: validators[k](c).Pass?
  {
    if validators == [] then Pass
    else if validators[0](c).Fail? then validators[0](c)
    else
      var r := RunAll(validators[1..], c);
      assert forall i | 1 <= i < |validators| :: validators[i] == validators[1..][i - 1];
      r
  }

  /** Running a concatenation runs the first part, then the second only if the first passed. */
  lemma {:induction false} RunAllConcat(a: seq<Validator>, b: seq<Validator>, c: Snapshot)
    ensures RunAll(a + b, c) == if RunAll(a, c).Fail? then RunAll(a, c) else RunAll(b, c)
  {
    if a == [] {
      assert a + b == b;
    } else {
      RunAllConcat(a[1..], b, c);
      assert (a + b)[0] == a[0];
      assert (a + b)[1..] == a[1..] + b;
    }
  }

  /** What the lookups of `checkContainer` and `upgrade` find for a container. */
  datatype Found = Found(name: string, version: Version, format: FormatEntry, entry: VersionEntry)

  /** The version entry a container names, once its format and version are known. */
  function Lookup(reg: Registry, c: Snapshot): Result<Found> {
    var fv :- GetFormatVersion(c.metaObjects);
    if fv.name !in reg.formats then Err(UnknownFormat(fv.name))
    else
      var format := reg.formats[fv.name];
      if fv.version !in format.versions then Err(UnknownVersion(fv.name, fv.version))
      else Ok(Found(fv.name, ParseVersion(fv.version).value, format, format.versions[fv.version]))
  }

  /** The container names a known format, but a version that format does not have. */
  predicate VersionMissing(reg: Registry, c: Snapshot) {
    var fv := GetFormatVersion(c.metaObjects);
    fv.Ok? && fv.value.name in reg.formats && fv.value.version !in reg.formats[fv.value.name].versions
  }

  /**
   * The errors of the lookup, in order: those of `getContainerFormatVersion`, then an
   * unknown format, then an unknown version; otherwise the entries of that format and
   * version are found.
   */
  lemma LookupOrder(reg: Registry, c: Snapshot)
    ensures GetFormatVersion(c.metaObjects).Err? ==> Lookup(reg, c) == Err(GetFormatVersion(c.metaObjects).error)
    ensures GetFormatVersion(c.metaObjects).Ok? && GetFormatVersion(c.metaObjects).value.name !in reg.formats ==>
      Lookup(reg, c) == Err(UnknownFormat(GetFormatVersion(c.metaObjects).value.name))
    ensures VersionMissing(reg, c) ==>
      var fv := GetFormatVersion(c.metaObjects).value;
      Lookup(reg, c) == Err(UnknownVersion(fv.name, fv.version))
    ensures (GetFormatVersion(c.metaObjects).Ok? && GetFormatVersion(c.metaObjects).value.name in reg.formats
             && !VersionMissing(reg, c)) ==>
      var fv := GetFormatVersion(c.metaObjects).value;
      Lookup(reg, c).Ok?
        && Lookup(reg, c).value.name == fv.name
        && ParseVersion(fv.version) == Some(Lookup(reg, c).value.version)
        && Lookup(reg, c).value.format == reg.formats[fv.name]
        && Lookup(reg, c).value.entry == reg.formats[fv.name].versions[fv.version]
  {
  }

  /**
   * `checkContainer` as evidently intended: the format version is read, an unknown
   * format and then an unknown version are refused, and the root, format and version
   * validators run in that order.
   */
  function CheckContainer(reg: Registry, c: Snapshot): Outcome {
    var found := Lookup(reg, c);
    if found.Err? then Fail(found.error)
    else
      RunAll(reg.validators + found.value.format.validators + found.value.entry.validators, c)
  }

  /**
   * The order of `checkContainer`: the errors of the lookup come first; then the first
   * root validator to throw, then the first format validator, then the first version
   * validator; the container passes only when every one of them passes.
   */
  lemma CheckOrder(reg: Registry, c: Snapshot)
    ensures Lookup(reg, c).Err? ==> CheckContainer(reg, c) == Fail(Lookup(reg, c).error)
    ensures Lookup(reg, c).Ok? ==>
      var found := Lookup(reg, c).value;
      CheckContainer(reg, c) ==
        if RunAll(reg.validators, c).Fail? then RunAll(reg.validators, c)
        else if RunAll(found.format.validators, c).Fail? then RunAll(found.format.validators, c)
        else RunAll(found.entry.validators, c)
  {
    if Lookup(reg, c).Ok? {
      var found := Lookup(reg, c).value;
      RunAllConcat(reg.validators + found.format.validators, found.entry.validators, c);
      RunAllConcat(reg.validators, found.format.validators, c);
    }
  }

  /** The TypeError Node raises for `Array.concat(...)`: arrays have no static `concat`. */
  const ConcatMissing := "Array.concat is not a function"

  /** `checkContainer` as written: after the lookups, the call of `Array.concat` throws. */
  function CheckContainerAsWritten(reg: Registry, c: Snapshot): Outcome {
    var found := Lookup(reg, c);
    if found.Err? then Fail(found.error) else Fail(ConcatMissing)
  }

  /** As written, `checkContainer` throws for every container, even one every validator accepts. */
  lemma CheckAsWrittenNeverPasses(reg: Registry, c: Snapshot)
    ensures CheckContainerAsWritten(reg, c).Fail?
    ensures Lookup(reg, c).Ok? ==> CheckContainerAsWritten(reg, c) == Fail(ConcatMissing)
    ensures CheckContainer(reg, c).Fail? ==> CheckContainerAsWritten(reg, c).Fail?
  {
  }

  /** A registry with one format and one version and no validators, and a container of that version. */
  const GridOnly := Registry([], map["grid" := FormatEntry([], map["1.0.0" := VersionEntry([], [])])])
  const GridContainer := Snapshot(map[ModelKey := JObj([("format", JStr("grid-1.0.0"))])], [])

  /** That container passes the intended check and fails the check as written. */
  lemma ConcatCounterexample()
    ensures CheckContainer(GridOnly, GridContainer) == Pass
    ensures CheckContainerAsWritten(GridOnly, GridContainer) == Fail(ConcatMissing)
  {
    GridFormatVersion();
  }

  /** The model `{format: 'grid-1.0.0'}` names format `grid`, version `1.0.0`. */
  lemma GridFormatVersion()
    ensures GetFormatVersion(GridContainer.metaObjects) == Ok(FormatVersion("grid", "1.0.0"))
  {
    var model := JObj([("format", JStr("grid-1.0.0"))]);
    assert GridContainer.metaObjects == map[ModelKey := model];
    assert ModelKey in GridContainer.metaObjects && GridContainer.metaObjects[ModelKey] == model;
    assert Member(model, "format") == Some(JStr("grid-1.0.0"));
    assert Truthy(JStr("grid-1.0.0"));
    assert MatchText(JStr("grid-1.0.0")) == Some("grid-1.0.0");
    GridIdParses();
  }

  lemma GridIdParses()
    ensures ParseFormatId("grid-1.0.0") == Some(("grid", "1.0.0"))
  {
    assert VersionSyntax("1.0.0", "1", "0", "0");
    assert "grid-1.0.0" == "grid" + "-" + "1.0.0";
    assert AllName("grid");
    FormatIdComplete("grid-1.0.0", "grid", "1.0.0");
  }

  // `upgrade`.

  /** `entries[i]` holds the newest migrator strictly newer than `v`. */
  predicate IsNewest(entries: seq<(Version, Migrator)>, v: Version, i: int) {
    0 <= i < |entries| && Newer(entries[i].0, v)
    && forall k | 0 <= k < |entries| && Newer(entries[k].0, v) :: !Newer(entries[k].0, entries[i].0)
  }

  /** Among distinct keys at most one is the newest, whatever the order of the entries. */
  lemma NewestUnique(entries: Migrators, v: Version, i: int, j: int)
    requires IsNewest(entries, v, i) && IsNewest(entries, v, j)
    ensures i == j
  {
    NewerIsStrictTotal(entries[i].0, entries[j].0, v);
  }

  /** What `upgrade` returns when it does not throw: the container itself, the migrated one, or an `Error` value. */
  datatype Upgraded = Same(c: Snapshot) | Migrated(c: Snapshot) | ErrorValue(message: string)

  /**
   * The loop of `upgrade`: the key that is newer than everything seen so far, starting
   * from the container's version, and its migrator.
   */
  method FindNewest(entries: Migrators, v: Version) returns (best: Option<nat>)
    ensures best.None? <==> forall k | 0 <= k < |entries| :: !Newer(entries[k].0, v)
    ensures best.Some? ==> IsNewest(entries, v, best.value)
  {
    var bestKey := v;
    best := None;
    for i := 0 to |entries|
      invariant best.None? ==> bestKey == v && forall k | 0 <= k < i :: !Newer(entries[k].0, v)
      invariant best.Some? ==> best.value < i && bestKey == entries[best.value].0 && Newer(bestKey, v)
      invariant forall k | 0 <= k < i :: !Newer(entries[k].0, bestKey)
    {
      if Newer(entries[i].0, bestKey) {
        forall k | 0 <= k < i
          ensures !Newer(entries[k].0, entries[i].0)
        {
          NewerIsStrictTotal(entries[k].0, bestKey, entries[i].0);
          NewerIsStrictTotal(entries[i].0, bestKey, v);
        }
        NewerIsStrictTotal(entries[i].0, bestKey, v);
        bestKey := entries[i].0;
        best := Some(i);
      }
    }
    if best.Some? {
      forall k | 0 <= k < |entries| && Newer(entries[k].0, v)
        ensures !Newer(entries[k].0, entries[best.value].0)
      {
      }
    }
  }

  /**
   * `upgrade`: the lookup errors throw, except an unknown version, which is returned
   * as an `Error` value; without a newer migrator the container itself is returned;
   * otherwise the newest migrator runs and its result must pass `checkContainer`.
   */
  method Upgrade(reg: Registry, c: Snapshot) returns (r: Result<Upgraded>)
    ensures Lookup(reg, c).Err? ==>
      r == if VersionMissing(reg, c) then Ok(ErrorValue(Lookup(reg, c).error)) else Err(Lookup(reg, c).error)
    ensures Lookup(reg, c).Ok? ==>
      var found := Lookup(reg, c).value;
      ((forall k | 0 <= k < |found.entry.migrators| :: !Newer(found.entry.migrators[k].0, found.version)) ==>
        r == Ok(Same(c)))
      && forall i | IsNewest(found.entry.migrators, found.version, i) ::
        r == Migrate(reg, found.entry.migrators[i].1(c))
  {
    var found := Lookup(reg, c);
    if found.Err? {
      if VersionMissing(reg, c) {
        return Ok(ErrorValue(found.error));
      }
      return Err(found.error);
    }
    r := UpgradeFound(reg, c, found.value.entry.migrators, found.value.version);
  }

  /** The end of `upgrade`: the result of a migration is checked before it is returned. */
  function Migrate(reg: Registry, next: Snapshot): (r: Result<Upgraded>)
    ensures r.Ok? <==> CheckContainer(reg, next).Pass?
    ensures r.Ok? ==> r.value == Migrated(next)
    ensures r.Err? ==> Fail(r.error) == CheckContainer(reg, next)
  {
    var checked := CheckContainer(reg, next);
    if checked.Fail? then Err(checked.error) else Ok(Migrated(next))
  }

  /** `upgrade` once the migrators of the container's version are known. */
  method UpgradeFound(reg: Registry, c: Snapshot, migrators: Migrators, v: Version) returns (r: Result<Upgraded>)
    ensures (forall k | 0 <= k < |migrators| :: !Newer(migrators[k].0, v)) ==> r == Ok(Same(c))
    ensures forall i | IsNewest(migrators, v, i) :: r == Migrate(reg, migrators[i].1(c))
  {
    var best := FindNewest(migrators, v);
    if best.None? {
      return Ok(Same(c));
    }
    r := Migrate(reg, migrators[best.value].1(c));
    forall i | IsNewest(migrators, v, i)
      ensures i == best.value
    {
      NewestUnique(migrators, v, i, best.value);
    }
  }
}
