/** Backups: the record `createBackup` builds, the validator that checks
    untyped parsed JSON and accumulates errors and warnings, and
    `parseBackup`. `JSON.parse` is an input (`None` when it throws); the
    clock reading for `createdAt` is a parameter. */
module Backup {
  import opened Text
  import opened Types

  const BackupVersion := "1.0.0"

  /** A parsed JSON value. Numbers carry the text `String(n)` prints. */
  datatype Json =
    | JNull
    | JBool(b: bool)
    | JNum(n: Num)
    | JStr(s: string)
    | JArr(items: seq<Json>)
    | JObj(fields: map<string, Json>)

  /** JavaScript truthiness of a JSON value. */
  predicate JsonTruthy(v: Json) {
    match v
    case JNull => false
    case JBool(b) => b
    case JNum(n) => NumTruthy(n)
    case JStr(s) => s != ""
    case _ => true
  }

  /** `typeof v === 'object'`: objects, arrays and null. */
  predicate IsObject(v: Json) {
    v.JNull? || v.JArr? || v.JObj?
  }

  /** A property read; `None` is `undefined`. */
  function Field(v: Json, key: string): (r: Option<Json>)
    ensures r.Some? ==> v.JObj? && key in v.fields && r.value == v.fields[key]
    ensures v.JObj? && key in v.fields ==> r.Some?
  {
    if v.JObj? && key in v.fields then Some(v.fields[key]) else None
  }

  /** A property that is present and truthy. */
  predicate Present(o: Option<Json>) {
    o.Some? && JsonTruthy(o.value)
  }

  /** `${v}` in a template literal. */
  function JsonText(v: Json): string
    decreases v, 0
  {
    match v
    case JNull => "null"
    case JBool(b) => if b then "true" else "false"
    case JNum(n) => n.text
    case JStr(s) => s
    case JArr(items) => Join(seq(|items|, i requires 0 <= i < |items| => ElementText(items[i])), ",")
    case JObj(_) => "[object Object]"
  }

  /** `Array.prototype.join` writes null elements as the empty string. */
  function ElementText(v: Json): string
    decreases v, 1
  {
    if v.JNull? then "" else JsonText(v)
  }

  /** The validator's messages. */
  datatype Message =
    | InvalidFormat
    | MissingVersion
    | VersionMismatch(got: Json)
    | InvalidIcons
    | MissingSvg(index: nat)
    | MissingMode(index: nat)
    | MissingShapeColor(index: nat)

  /** The text of each message. */
  function MessageText(m: Message): string {
    match m
    case InvalidFormat => "Invalid backup format"
    case MissingVersion => "Missing version field"
    case VersionMismatch(v) => "Version mismatch: expected " + BackupVersion + ", got " + JsonText(v)
    case InvalidIcons => "Missing or invalid icons array"
    case MissingSvg(i) => "Icon " + NatToString(i) + ": missing svg field"
    case MissingMode(i) => "Icon " + NatToString(i) + ": missing mode, will use default"
    case MissingShapeColor(i) => "Icon " + NatToString(i) + ": missing shapeColor, will use default"
  }

  /** `BackupValidationResult`. */
  datatype BackupValidation = BackupValidation(valid: bool, errors: seq<Message>, warnings: seq<Message>)

  /** What `validateBackup` does: return a result, or throw (reading a
      property of a `null` icon throws a TypeError). */
  datatype Outcome = Returned(result: BackupValidation) | Threw

  function Finish(errors: seq<Message>, warnings: seq<Message>): (r: BackupValidation)
    ensures r.valid <==> r.errors == []
    ensures r.errors == errors && r.warnings == warnings
  {
    BackupValidation(|errors| == 0, errors, warnings)
  }

  function IconErrors(icon: Json, i: nat): seq<Message> {
    if Present(Field(icon, "svg")) then [] else [MissingSvg(i)]
  }

  function IconWarnings(icon: Json, i: nat): seq<Message> {
    (if Present(Field(icon, "mode")) then [] else [MissingMode(i)])
    + (if Present(Field(icon, "shapeColor")) then [] else [MissingShapeColor(i)])
  }

  /** The checks of the first `n` icons, in order; `None` once one of them
      is `null`. */
  function ScanIcons(items: seq<Json>, n: nat): Option<(seq<Message>, seq<Message>)>
    requires n <= |items|
  {
    if n == 0 then Some(([], []))
    else
      match ScanIcons(items, n - 1)
      case None => None
      case Some(acc) =>
        if items[n - 1].JNull? then None
        else Some((acc.0 + IconErrors(items[n - 1], n - 1), acc.1 + IconWarnings(items[n - 1], n - 1)))
  }

  function VersionErrors(data: Json): seq<Message> {
    if Present(Field(data, "version")) then [] else [MissingVersion]
  }

  function VersionWarnings(data: Json): seq<Message> {
    var v := Field(data, "version");
    if Present(v) && v.value != JStr(BackupVersion) then [VersionMismatch(v.value)] else []
  }

  /** `validateBackup(data)`, as a specification. */
  function Validation(data: Json): (r: Outcome)
    ensures r.Returned? ==> (r.result.valid <==> r.result.errors == [])
    ensures r.Threw? ==> IsObject(data) && Field(data, "icons").Some? && Field(data, "icons").value.JArr?
  {
    if !JsonTruthy(data) || !IsObject(data) then Returned(BackupValidation(false, [InvalidFormat], []))
    else
      match Field(data, "icons")
      case Some(JArr(items)) =>
        (match ScanIcons(items, |items|)
         case None => Threw
         case Some(acc) => Returned(Finish(VersionErrors(data) + acc.0, VersionWarnings(data) + acc.1)))
      case _ => Returned(Finish(VersionErrors(data) + [InvalidIcons], VersionWarnings(data)))
  }

  /** `validateBackup(data)`: the version check, then one pass over the icons. */
  method ValidateBackup(data: Json) returns (r: Outcome)
    ensures r == Validation(data)
  {
    if !JsonTruthy(data) || !IsObject(data) {
      return Returned(BackupValidation(false, [InvalidFormat], []));
    }
    var errors: seq<Message> := [];
    var warnings: seq<Message> := [];
    var version := Field(data, "version");
    if !Present(version) {
      errors := errors + [MissingVersion];
    } else if version.value != JStr(BackupVersion) {
      warnings := warnings + [VersionMismatch(version.value)];
    }
    var icons := Field(data, "icons");
    if !(icons.Some? && icons.value.JArr?) {
      errors := errors + [InvalidIcons];
      return Returned(Finish(errors, warnings));
    }
    var pushed := ForEachIcon(icons.value.items, errors, warnings);
    if pushed.None? {
      return Threw;
    }
    return Returned(Finish(pushed.value.0, pushed.value.1));
  }

  /** `backup.icons.forEach(...)`: each icon's messages are pushed onto the
      lists begun by the version check; reading a field of a `null` icon
      throws out of the loop. */
  method ForEachIcon(items: seq<Json>, errors0: seq<Message>, warnings0: seq<Message>)
      returns (r: Option<(seq<Message>, seq<Message>)>)
    ensures r.None? <==> ScanIcons(items, |items|).None?
    ensures r.Some? ==> r.value == (errors0 + ScanIcons(items, |items|).value.0, warnings0 + ScanIcons(items, |items|).value.1)
  {
    var errors, warnings := errors0, warnings0;
    var k := 0;
    while k < |items|
      invariant 0 <= k <= |items|
      invariant ScanIcons(items, k).Some?
      invariant errors == errors0 + ScanIcons(items, k).value.0
      invariant warnings == warnings0 + ScanIcons(items, k).value.1
    {
      var icon := items[k];
      if icon.JNull? {
        ScanStaysThrown(items, k + 1, |items|);
        return None;
      }
      var iconErrors, iconWarnings := CheckIcon(icon, k);
      ScanStep(errors0, warnings0, items, k);
      errors := errors + iconErrors;
      warnings := warnings + iconWarnings;
      k := k + 1;
    }
    return Some((errors, warnings));
  }

  /** The three field checks of one non-null icon, in the loop's order. */
  method CheckIcon(icon: Json, k: nat) returns (errors: seq<Message>, warnings: seq<Message>)
    ensures errors == IconErrors(icon, k) && warnings == IconWarnings(icon, k)
  {
    errors := [];
    warnings := [];
    if !Present(Field(icon, "svg")) {
      errors := errors + [MissingSvg(k)];
    }
    if !Present(Field(icon, "mode")) {
      warnings := warnings + [MissingMode(k)];
    }
    if !Present(Field(icon, "shapeColor")) {
      warnings := warnings + [MissingShapeColor(k)];
    }
  }

  /** One more non-null icon extends both lists of the scan. */
  lemma ScanStep(errors0: seq<Message>, warnings0: seq<Message>, items: seq<Json>, k: nat)
    requires k < |items| && ScanIcons(items, k).Some? && !items[k].JNull?
    ensures ScanIcons(items, k + 1).Some?
    ensures errors0 + ScanIcons(items, k + 1).value.0
      == (errors0 + ScanIcons(items, k).value.0) + IconErrors(items[k], k)
    ensures warnings0 + ScanIcons(items, k + 1).value.1
      == (warnings0 + ScanIcons(items, k).value.1) + IconWarnings(items[k], k)
  {
    Associate(errors0, ScanIcons(items, k).value.0, IconErrors(items[k], k));
    Associate(warnings0, ScanIcons(items, k).value.1, IconWarnings(items[k], k));
  }

  /** Once an icon has thrown, the scan stays thrown. */
  lemma {:induction false} ScanStaysThrown(items: seq<Json>, n: nat, m: nat)
    requires n <= m <= |items| && ScanIcons(items, n).None?
    ensures ScanIcons(items, m).None?
    decreases m - n
  {
    if n < m {
      ScanStaysThrown(items, n + 1, m);
    }
  }

  /** The scan throws iff a scanned icon is `null`; otherwise its errors
      are the missing-svg icons in ascending index order, and its warnings
      never hold an error. */
  lemma {:induction false} ScanIconsMeaning(items: seq<Json>, n: nat)
    requires n <= |items|
    ensures ScanIcons(items, n).Some? <==> forall i :: 0 <= i < n ==> !items[i].JNull?
    ensures ScanIcons(items, n).Some? ==>
      var e := ScanIcons(items, n).value.0;
      && (forall i :: 0 <= i < n ==> (MissingSvg(i) in e <==> !Present(Field(items[i], "svg"))))
      && (forall j :: 0 <= j < |e| ==> e[j].MissingSvg? && e[j].index < n)
      && (forall a, b :: 0 <= a < b < |e| ==> e[a].index < e[b].index)
    decreases n
  {
    if n > 0 {
      ScanIconsMeaning(items, n - 1);
      var s := ScanIcons(items, n - 1);
      if s.Some? && !items[n - 1].JNull? {
        var e := s.value.0 + IconErrors(items[n - 1], n - 1);
        forall j | 0 <= j < |e|
          ensures e[j].MissingSvg? && e[j].index < n
        {
          if j >= |s.value.0| {
            assert e[j] == MissingSvg(n - 1);
          }
        }
      }
    }
  }

  /** A backup is valid iff it is an object with a truthy version and an
      icons array whose icons are all non-null with a truthy `svg`; missing
      modes and colours never make it invalid. */
  lemma ValidIff(data: Json)
    ensures (Validation(data).Returned? && Validation(data).result.valid) <==>
      (&& JsonTruthy(data) && IsObject(data)
       && Present(Field(data, "version"))
       && Field(data, "icons").Some? && Field(data, "icons").value.JArr?
       && (forall i :: 0 <= i < |Field(data, "icons").value.items| ==>
             var icon := Field(data, "icons").value.items[i];
             !icon.JNull? && Present(Field(icon, "svg"))))
  {
    var icons := Field(data, "icons");
    if JsonTruthy(data) && IsObject(data) && icons.Some? && icons.value.JArr? {
      var items := icons.value.items;
      ScanIconsMeaning(items, |items|);
      var s := ScanIcons(items, |items|);
      if s.Some? && s.value.0 != [] {
        var i := s.value.0[0].index;
        assert MissingSvg(i) in s.value.0;
      }
    }
  }

  // ---------------------------------------------------------------
  // createBackup and parseBackup
  // ---------------------------------------------------------------

  /** `IconBackupData`. */
  datatype IconBackupData = IconBackupData(
    svg: string, mode: ShapeMode, iconStyle: IconStyle, shapeColor: string, size: Num,
    x: Option<Num>, y: Option<Num>, zIndex: Option<Num>,
    iconColor: Option<string>, animation: Option<string>, metadata: Option<map<string, Json>>)

  datatype BackupSettings = BackupSettings(
    defaultMode: Option<ShapeMode>, defaultIconStyle: Option<IconStyle>,
    defaultShapeColor: Option<string>, defaultSize: Option<Num>)

  datatype CreateBackupOptions = CreateBackupOptions(
    settings: Option<BackupSettings>, license: Option<string>, licenseUrl: Option<string>)

  /** `IconCraftBackup`. */
  datatype IconCraftBackup = IconCraftBackup(
    version: string, createdAt: string, license: Option<string>, licenseUrl: Option<string>,
    icons: seq<IconBackupData>, settings: Option<BackupSettings>)

  /** `createBackup(icons, options)`; `now` is the ISO time of the call. */
  function CreateBackup(icons: seq<IconBackupData>, options: Option<CreateBackupOptions>, now: string): (r: IconCraftBackup)
    ensures r.version == BackupVersion && r.icons == icons && r.createdAt == now
    ensures options.None? ==> r.license.None? && r.licenseUrl.None? && r.settings.None?
    ensures options.Some? ==> (r.license == options.value.license && r.licenseUrl == options.value.licenseUrl
      && r.settings == options.value.settings)
  {
    match options
    case None => IconCraftBackup(BackupVersion, now, None, None, icons, None)
    case Some(o) => IconCraftBackup(BackupVersion, now, o.license, o.licenseUrl, icons, o.settings)
  }

  /** A field that `JSON.stringify` writes only when it is defined. */
  function WithOptional(m: map<string, Json>, key: string, o: Option<Json>): (r: map<string, Json>)
    ensures forall k :: k != key ==> (k in r <==> k in m) && (k in m ==> r[k] == m[k])
  {
    if o.Some? then m[key := o.value] else m
  }

  function NumJson(o: Option<Num>): Option<Json> {
    if o.Some? then Some(JNum(o.value)) else None
  }

  function StrJson(o: Option<string>): Option<Json> {
    if o.Some? then Some(JStr(o.value)) else None
  }

  /** An icon as `JSON.stringify` then `JSON.parse` give it back. */
  function IconJson(icon: IconBackupData): (r: Json)
    ensures r.JObj?
    ensures Field(r, "svg") == Some(JStr(icon.svg))
    ensures Field(r, "mode") == Some(JStr(ShapeModeName(icon.mode)))
    ensures Field(r, "shapeColor") == Some(JStr(icon.shapeColor))
  {
    var m: map<string, Json> := map[];
    var m := WithOptional(m, "x", NumJson(icon.x));
    var m := WithOptional(m, "y", NumJson(icon.y));
    var m := WithOptional(m, "zIndex", NumJson(icon.zIndex));
    var m := WithOptional(m, "iconColor", StrJson(icon.iconColor));
    var m := WithOptional(m, "animation", StrJson(icon.animation));
    var m := WithOptional(m, "metadata", if icon.metadata.Some? then Some(JObj(icon.metadata.value)) else None);
    JObj(m["iconStyle" := JStr(IconStyleName(icon.iconStyle))]["size" := JNum(icon.size)]
      ["mode" := JStr(ShapeModeName(icon.mode))]["shapeColor" := JStr(icon.shapeColor)]["svg" := JStr(icon.svg)])
  }

  /** The icons array of a backup's JSON. */
  function IconsJson(icons: seq<IconBackupData>): (r: seq<Json>)
    ensures |r| == |icons| && forall i :: 0 <= i < |icons| ==> r[i] == IconJson(icons[i])
  {
    seq(|icons|, i requires 0 <= i < |icons| => IconJson(icons[i]))
  }

  function SettingsJson(s: BackupSettings): Json {
    var m: map<string, Json> := map[];
    var m := WithOptional(m, "defaultMode", if s.defaultMode.Some? then Some(JStr(ShapeModeName(s.defaultMode.value))) else None);
    var m := WithOptional(m, "defaultIconStyle", if s.defaultIconStyle.Some? then Some(JStr(IconStyleName(s.defaultIconStyle.value))) else None);
    var m := WithOptional(m, "defaultShapeColor", StrJson(s.defaultShapeColor));
    var m := WithOptional(m, "defaultSize", NumJson(s.defaultSize));
    JObj(m)
  }

  /** A backup as `JSON.stringify` then `JSON.parse` give it back. */
  function BackupJson(b: IconCraftBackup): (r: Json)
    ensures r.JObj?
    ensures Field(r, "version") == Some(JStr(b.version))
    ensures Field(r, "icons") == Some(JArr(IconsJson(b.icons)))
  {
    var m: map<string, Json> := map[];
    var m := WithOptional(m, "license", StrJson(b.license));
    var m := WithOptional(m, "licenseUrl", StrJson(b.licenseUrl));
    var m := WithOptional(m, "settings", if b.settings.Some? then Some(SettingsJson(b.settings.value)) else None);
    JObj(m["createdAt" := JStr(b.createdAt)]["icons" := JArr(IconsJson(b.icons))]["version" := JStr(b.version)])
  }

  /** `parseBackup(json)`, with the outcome of `JSON.parse` as input: the
      parsed data when it validates, else null. */
  function ParseBackup(parsed: Option<Json>): (r: Option<Json>)
    ensures r.Some? <==> parsed.Some? && Validation(parsed.value).Returned? && Validation(parsed.value).result.valid
    ensures r.Some? ==> r == parsed
  {
    match parsed
    case None => None
    case Some(data) =>
      match Validation(data)
      case Threw => None
      case Returned(v) => if v.valid then Some(data) else None
  }

  /** A backup made by `createBackup` validates, with no version warning
      and no missing-mode warning, iff every icon has a non-empty svg; it
      then parses back to itself. */
  lemma CreatedBackupRoundTrip(icons: seq<IconBackupData>, options: Option<CreateBackupOptions>, now: string)
    ensures var data := BackupJson(CreateBackup(icons, options, now));
      && Validation(data).Returned?
      && (Validation(data).result.valid <==> forall i :: 0 <= i < |icons| ==> icons[i].svg != "")
      && (forall m :: m in Validation(data).result.warnings ==> m.MissingShapeColor?)
      && (ParseBackup(Some(data)).Some? <==> forall i :: 0 <= i < |icons| ==> icons[i].svg != "")
  {
    var data := BackupJson(CreateBackup(icons, options, now));
    var items := IconsJson(icons);
    forall i | 0 <= i < |icons|
      ensures !items[i].JNull? && Present(Field(items[i], "mode"))
      ensures Present(Field(items[i], "svg")) <==> icons[i].svg != ""
    {
      assert ShapeModeName(icons[i].mode) != "";
    }
    CurrentVersionValidation(data, items);
  }

  /** An object with the current version and an icons array of non-null
      icons that all name a mode: validation returns, it is valid iff every
      icon has a truthy svg, and only missing colours are warned about. */
  lemma CurrentVersionValidation(data: Json, items: seq<Json>)
    requires data.JObj? && Field(data, "version") == Some(JStr(BackupVersion))
    requires Field(data, "icons") == Some(JArr(items))
    requires forall i :: 0 <= i < |items| ==> !items[i].JNull? && Present(Field(items[i], "mode"))
    ensures Validation(data).Returned?
    ensures Validation(data).result.valid <==> forall i :: 0 <= i < |items| ==> Present(Field(items[i], "svg"))
    ensures forall m :: m in Validation(data).result.warnings ==> m.MissingShapeColor?
  {
    ScanIconsMeaning(items, |items|);
    ValidIff(data);
    ScanWarningsAreColours(items, |items|);
    assert VersionWarnings(data) == [];
  }

  lemma {:induction false} ScanWarningsAreColours(items: seq<Json>, n: nat)
    requires n <= |items|
    requires forall i :: 0 <= i < |items| ==> Present(Field(items[i], "mode"))
    ensures ScanIcons(items, n).Some? ==> forall m :: m in ScanIcons(items, n).value.1 ==> m.MissingShapeColor?
    decreases n
  {
    if n > 0 {
      ScanWarningsAreColours(items, n - 1);
    }
  }
}
