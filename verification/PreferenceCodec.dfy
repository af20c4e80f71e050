/** How the preferences become a JSON document and back. Fields newer than the first released schema
    are written only when they differ from their default, because older versions reject fields they
    do not know. */
module PreferenceCodec {
  import opened Basics

  type I32 = x: int | -0x8000_0000 <= x < 0x8000_0000
  type U32 = x: int | 0 <= x < 0x1_0000_0000

  const SCHEMA_VERSION: U32 := 1

  datatype WindowBounds = WindowBounds(x: I32, y: I32, width: U32, height: U32)
  datatype VisiblePage = Home | Status | Subscriptions | Settings
  datatype TrayPopupSize = TrayPopupSize(width: U32, height: U32)
  datatype RailGrowth = RailGrowth(delta: U32, grownWidth: U32)
  datatype Lang = Ru | En

  datatype Preferences = Preferences(
    schemaVersion: U32,
    restoredBounds: Option<WindowBounds>,
    maximized: bool,
    visiblePage: VisiblePage,
    activeProfileHint: Option<string>,
    lastGroupByProfile: map<string, string>,
    selectionsByProfile: map<string, map<string, string>>,
    ambientBackground: bool,
    autoConnectOnStartup: bool,
    navigationCollapsed: bool,
    announcementSeen: Option<string>,
    tunEnabled: bool,
    railGrowth: Option<RailGrowth>,
    appimageHandoffSeen: Option<string>,
    serviceOfferDismissed: bool,
    trayPopupSize: Option<TrayPopupSize>,
    language: Lang,
    languageSetByUser: bool)

  const DEFAULT := Preferences(
    SCHEMA_VERSION, None, false, Home, None, map[], map[], true, false, true, None, true, None,
    None, false, None, Ru, false)

  // ----- JSON -----

  datatype Json = Null | Flag(flag: bool) | Number(number: int) | Text(text: string) | Object(fields: map<string, Json>)

  datatype Field =
    | SchemaVersionField | RestoredBoundsField | MaximizedField | VisiblePageField | ActiveProfileHintField
    | LastGroupField | SelectionsField | AmbientField | AutoConnectField | CollapsedField | AnnouncementField
    | TunField | RailGrowthField
    | HandoffField | OfferField | TrayPopupField | LanguageField | LanguageSetField
    | UnknownField(name: string)

  type Document = map<Field, Json>

  const FIELDS: set<Field> := {
    SchemaVersionField, RestoredBoundsField, MaximizedField, VisiblePageField, ActiveProfileHintField,
    LastGroupField, SelectionsField, AmbientField, AutoConnectField, CollapsedField, AnnouncementField,
    TunField, RailGrowthField, HandoffField, OfferField, TrayPopupField, LanguageField, LanguageSetField}

  predicate Known(field: Field) {
    !field.UnknownField?
  }

  /** Added after the first release. */
  predicate Later(field: Field) {
    field.HandoffField? || field.OfferField? || field.TrayPopupField? || field.LanguageField? || field.LanguageSetField?
  }

  lemma FieldsAreKnown(field: Field)
    ensures field in FIELDS <==> Known(field)
  {
  }

  // ----- Values -----

  function DecodeFlag(j: Json): Option<bool> {
    if j.Flag? then Some(j.flag) else None
  }

  function DecodeText(j: Json): Option<string> {
    if j.Text? then Some(j.text) else None
  }

  function DecodeU32(j: Json): Option<U32> {
    if j.Number? && 0 <= j.number < 0x1_0000_0000 then Some(j.number) else None
  }

  function DecodeI32(j: Json): Option<I32> {
    if j.Number? && -0x8000_0000 <= j.number < 0x8000_0000 then Some(j.number) else None
  }

  function EncodeOption<T>(value: Option<T>, encode: T -> Json): Json {
    if value.None? then Null else encode(value.value)
  }

  function DecodeOption<T>(j: Json, decode: Json -> Option<T>): Option<Option<T>> {
    if j.Null? then Some(None)
    else match decode(j)
      case None => None
      case Some(v) => Some(Some(v))
  }

  function EncodeText(s: string): Json {
    Text(s)
  }

  function EncodeBounds(b: WindowBounds): Json {
    Object(map["x" := Number(b.x), "y" := Number(b.y), "width" := Number(b.width), "height" := Number(b.height)])
  }

  /** Unknown fields inside are ignored here. */
  function DecodeBounds(j: Json): Option<WindowBounds> {
    if j.Object? && {"x", "y", "width", "height"} <= j.fields.Keys then
      var x, y := DecodeI32(j.fields["x"]), DecodeI32(j.fields["y"]);
      var width, height := DecodeU32(j.fields["width"]), DecodeU32(j.fields["height"]);
      if x.Some? && y.Some? && width.Some? && height.Some?
      then Some(WindowBounds(x.value, y.value, width.value, height.value)) else None
    else None
  }

  function EncodeTray(t: TrayPopupSize): Json {
    Object(map["width" := Number(t.width), "height" := Number(t.height)])
  }

  function DecodeTray(j: Json): Option<TrayPopupSize> {
    if j.Object? && j.fields.Keys == {"width", "height"} then
      var width, height := DecodeU32(j.fields["width"]), DecodeU32(j.fields["height"]);
      if width.Some? && height.Some? then Some(TrayPopupSize(width.value, height.value)) else None
    else None
  }

  function EncodeRail(r: RailGrowth): Json {
    Object(map["delta" := Number(r.delta), "grown_width" := Number(r.grownWidth)])
  }

  function DecodeRail(j: Json): Option<RailGrowth> {
    if j.Object? && j.fields.Keys == {"delta", "grown_width"} then
      var delta, grown := DecodeU32(j.fields["delta"]), DecodeU32(j.fields["grown_width"]);
      if delta.Some? && grown.Some? then Some(RailGrowth(delta.value, grown.value)) else None
    else None
  }

  function EncodePage(p: VisiblePage): Json {
    Text(match p
         case Home => "home"
         case Status => "status"
         case Subscriptions => "subscriptions"
         case Settings => "settings")
  }

  function DecodePage(j: Json): Option<VisiblePage> {
    if j == Text("home") then Some(Home)
    else if j == Text("status") then Some(Status)
    else if j == Text("subscriptions") then Some(Subscriptions)
    else if j == Text("settings") then Some(Settings)
    else None
  }

  function EncodeLang(l: Lang): Json {
    Text(if l == Ru then "ru" else "en")
  }

  function DecodeLang(j: Json): Option<Lang> {
    if j == Text("ru") then Some(Ru) else if j == Text("en") then Some(En) else None
  }

  function EncodeTexts(m: map<string, string>): Json {
    Object(map k | k in m :: Text(m[k]))
  }

  function DecodeTexts(j: Json): Option<map<string, string>> {
    if j.Object? && forall k :: k in j.fields ==> j.fields[k].Text?
    then Some(map k | k in j.fields :: j.fields[k].text) else None
  }

  function EncodeSelections(m: map<string, map<string, string>>): Json {
    Object(map k | k in m :: EncodeTexts(m[k]))
  }

  function DecodeSelections(j: Json): Option<map<string, map<string, string>>> {
    if j.Object? && forall k :: k in j.fields ==> DecodeTexts(j.fields[k]).Some?
    then Some(map k | k in j.fields :: DecodeTexts(j.fields[k]).value) else None
  }

  // ----- The document -----

  /** Later fields are written only when set. */
  predicate Written(p: Preferences, field: Field) {
    match field
    case HandoffField => p.appimageHandoffSeen.Some?
    case OfferField => p.serviceOfferDismissed
    case TrayPopupField => p.trayPopupSize.Some?
    case LanguageField => p.language != DEFAULT.language
    case LanguageSetField => p.languageSetByUser
    case _ => true
  }

  function Value(p: Preferences, field: Field): Json {
    match field
    case SchemaVersionField => Number(p.schemaVersion)
    case RestoredBoundsField => EncodeOption(p.restoredBounds, EncodeBounds)
    case MaximizedField => Flag(p.maximized)
    case VisiblePageField => EncodePage(p.visiblePage)
    case ActiveProfileHintField => EncodeOption(p.activeProfileHint, EncodeText)
    case LastGroupField => EncodeTexts(p.lastGroupByProfile)
    case SelectionsField => EncodeSelections(p.selectionsByProfile)
    case AmbientField => Flag(p.ambientBackground)
    case AutoConnectField => Flag(p.autoConnectOnStartup)
    case CollapsedField => Flag(p.navigationCollapsed)
    case AnnouncementField => EncodeOption(p.announcementSeen, EncodeText)
    case TunField => Flag(p.tunEnabled)
    case RailGrowthField => EncodeOption(p.railGrowth, EncodeRail)
    case HandoffField => EncodeOption(p.appimageHandoffSeen, EncodeText)
    case OfferField => Flag(p.serviceOfferDismissed)
    case TrayPopupField => EncodeOption(p.trayPopupSize, EncodeTray)
    case LanguageField => EncodeLang(p.language)
    case LanguageSetField => Flag(p.languageSetByUser)
    case UnknownField(_) => Null
  }

  function Encode(p: Preferences): Document {
    map field | field in FIELDS && Written(p, field) :: Value(p, field)
  }

  /** A missing field takes its default. */
  function Get<T>(d: Document, field: Field, decode: Json -> Option<T>, default: T): Option<T> {
    if field in d then decode(d[field]) else Some(default)
  }

  function Optional<T>(decode: Json -> Option<T>): Json -> Option<Option<T>> {
    j => DecodeOption(j, decode)
  }

  /** Unknown fields are refused. */
  function Decode(d: Document): Option<Preferences> {
    if exists field :: field in d && !Known(field) then None
    else
      var schema := Get(d, SchemaVersionField, DecodeU32, DEFAULT.schemaVersion);
      var bounds := Get(d, RestoredBoundsField, Optional(DecodeBounds), DEFAULT.restoredBounds);
      var maximized := Get(d, MaximizedField, DecodeFlag, DEFAULT.maximized);
      var page := Get(d, VisiblePageField, DecodePage, DEFAULT.visiblePage);
      var hint := Get(d, ActiveProfileHintField, Optional(DecodeText), DEFAULT.activeProfileHint);
      var group := Get(d, LastGroupField, DecodeTexts, DEFAULT.lastGroupByProfile);
      var selections := Get(d, SelectionsField, DecodeSelections, DEFAULT.selectionsByProfile);
      var ambient := Get(d, AmbientField, DecodeFlag, DEFAULT.ambientBackground);
      var auto := Get(d, AutoConnectField, DecodeFlag, DEFAULT.autoConnectOnStartup);
      var collapsed := Get(d, CollapsedField, DecodeFlag, DEFAULT.navigationCollapsed);
      var announcement := Get(d, AnnouncementField, Optional(DecodeText), DEFAULT.announcementSeen);
      var tun := Get(d, TunField, DecodeFlag, DEFAULT.tunEnabled);
      var rail := Get(d, RailGrowthField, Optional(DecodeRail), DEFAULT.railGrowth);
      var handoff := Get(d, HandoffField, Optional(DecodeText), DEFAULT.appimageHandoffSeen);
      var offer := Get(d, OfferField, DecodeFlag, DEFAULT.serviceOfferDismissed);
      var tray := Get(d, TrayPopupField, Optional(DecodeTray), DEFAULT.trayPopupSize);
      var language := Get(d, LanguageField, DecodeLang, DEFAULT.language);
      var set_ := Get(d, LanguageSetField, DecodeFlag, DEFAULT.languageSetByUser);
      if && schema.Some? && bounds.Some? && maximized.Some? && page.Some? && hint.Some? && group.Some?
         && selections.Some? && ambient.Some? && auto.Some? && collapsed.Some? && announcement.Some? && tun.Some?
         && rail.Some? && handoff.Some? && offer.Some? && tray.Some? && language.Some? && set_.Some?
      then
        Some(Preferences(
          schema.value, bounds.value, maximized.value, page.value, hint.value, group.value, selections.value,
          ambient.value, auto.value, collapsed.value, announcement.value, tun.value, rail.value,
          handoff.value, offer.value, tray.value, language.value, set_.value))
      else None
  }

  // ----- Round trips -----

  lemma BoundsReadBack(b: Option<WindowBounds>)
    ensures DecodeOption(EncodeOption(b, EncodeBounds), DecodeBounds) == Some(b)
  {
  }

  lemma TrayReadBack(t: Option<TrayPopupSize>)
    ensures DecodeOption(EncodeOption(t, EncodeTray), DecodeTray) == Some(t)
  {
  }

  lemma RailReadBack(r: Option<RailGrowth>)
    ensures DecodeOption(EncodeOption(r, EncodeRail), DecodeRail) == Some(r)
  {
  }

  lemma TextReadBack(s: Option<string>)
    ensures DecodeOption(EncodeOption(s, EncodeText), DecodeText) == Some(s)
  {
  }

  lemma PageReadBack(p: VisiblePage)
    ensures DecodePage(EncodePage(p)) == Some(p)
  {
  }

  lemma LangReadBack(l: Lang)
    ensures DecodeLang(EncodeLang(l)) == Some(l)
  {
  }

  lemma TextsReadBack(m: map<string, string>)
    ensures DecodeTexts(EncodeTexts(m)) == Some(m)
  {
    assert (map k | k in EncodeTexts(m).fields :: EncodeTexts(m).fields[k].text) == m;
  }

  lemma SelectionsReadBack(m: map<string, map<string, string>>)
    ensures DecodeSelections(EncodeSelections(m)) == Some(m)
  {
    var j := EncodeSelections(m);
    forall k | k in m
      ensures DecodeTexts(j.fields[k]) == Some(m[k])
    {
      TextsReadBack(m[k]);
    }
    assert (map k | k in j.fields :: DecodeTexts(j.fields[k]).value) == m;
  }

  lemma EncodeAt(p: Preferences, field: Field)
    ensures field in Encode(p) <==> Known(field) && Written(p, field)
    ensures field in Encode(p) ==> Encode(p)[field] == Value(p, field)
  {
    hide Value, Written;
    FieldsAreKnown(field);
  }

  /** A field reads back whatever was written, or its default when nothing was. */
  lemma {:induction false} GetReadsBack<T>(p: Preferences, field: Field, decode: Json -> Option<T>, default: T,
                                           value: T)
    requires Known(field)
    requires decode(Value(p, field)) == Some(value)
    requires !Written(p, field) ==> value == default
    ensures Get(Encode(p), field, decode, default) == Some(value)
  {
    hide Value, Written, Encode;
    EncodeAt(p, field);
  }

  lemma {:induction false} OptionalIs<T>(j: Json, decode: Json -> Option<T>)
    ensures Optional(decode)(j) == DecodeOption(j, decode)
  {
  }

  lemma FirstHalfReadsBack(p: Preferences)
    ensures Get(Encode(p), SchemaVersionField, DecodeU32, DEFAULT.schemaVersion) == Some(p.schemaVersion)
    ensures Get(Encode(p), RestoredBoundsField, Optional(DecodeBounds),
                DEFAULT.restoredBounds) == Some(p.restoredBounds)
    ensures Get(Encode(p), MaximizedField, DecodeFlag, DEFAULT.maximized) == Some(p.maximized)
    ensures Get(Encode(p), VisiblePageField, DecodePage, DEFAULT.visiblePage) == Some(p.visiblePage)
    ensures Get(Encode(p), ActiveProfileHintField, Optional(DecodeText),
                DEFAULT.activeProfileHint) == Some(p.activeProfileHint)
    ensures Get(Encode(p), LastGroupField, DecodeTexts, DEFAULT.lastGroupByProfile) == Some(p.lastGroupByProfile)
    ensures Get(Encode(p), SelectionsField, DecodeSelections,
                DEFAULT.selectionsByProfile) == Some(p.selectionsByProfile)
    ensures Get(Encode(p), AmbientField, DecodeFlag, DEFAULT.ambientBackground) == Some(p.ambientBackground)
    ensures Get(Encode(p), AutoConnectField, DecodeFlag, DEFAULT.autoConnectOnStartup) == Some(p.autoConnectOnStartup)
  {
    hide Encode, Get, EncodeOption, DecodeOption, Optional, EncodePage, DecodePage, EncodeTexts, DecodeTexts,
      EncodeSelections, DecodeSelections;
    GetReadsBack(p, SchemaVersionField, DecodeU32, DEFAULT.schemaVersion, p.schemaVersion);
    BoundsReadBack(p.restoredBounds);
    OptionalIs(Value(p, RestoredBoundsField), DecodeBounds);
    GetReadsBack(p, RestoredBoundsField, Optional(DecodeBounds), DEFAULT.restoredBounds, p.restoredBounds);
    GetReadsBack(p, MaximizedField, DecodeFlag, DEFAULT.maximized, p.maximized);
    PageReadBack(p.visiblePage);
    GetReadsBack(p, VisiblePageField, DecodePage, DEFAULT.visiblePage, p.visiblePage);
    TextReadBack(p.activeProfileHint);
    OptionalIs(Value(p, ActiveProfileHintField), DecodeText);
    GetReadsBack(p, ActiveProfileHintField, Optional(DecodeText), DEFAULT.activeProfileHint, p.activeProfileHint);
    TextsReadBack(p.lastGroupByProfile);
    GetReadsBack(p, LastGroupField, DecodeTexts, DEFAULT.lastGroupByProfile, p.lastGroupByProfile);
    SelectionsReadBack(p.selectionsByProfile);
    GetReadsBack(p, SelectionsField, DecodeSelections, DEFAULT.selectionsByProfile, p.selectionsByProfile);
    GetReadsBack(p, AmbientField, DecodeFlag, DEFAULT.ambientBackground, p.ambientBackground);
    GetReadsBack(p, AutoConnectField, DecodeFlag, DEFAULT.autoConnectOnStartup, p.autoConnectOnStartup);
  }

  lemma SecondHalfReadsBack(p: Preferences)
    ensures Get(Encode(p), CollapsedField, DecodeFlag, DEFAULT.navigationCollapsed) == Some(p.navigationCollapsed)
    ensures Get(Encode(p), AnnouncementField, Optional(DecodeText),
                DEFAULT.announcementSeen) == Some(p.announcementSeen)
    ensures Get(Encode(p), TunField, DecodeFlag, DEFAULT.tunEnabled) == Some(p.tunEnabled)
    ensures Get(Encode(p), RailGrowthField, Optional(DecodeRail), DEFAULT.railGrowth) == Some(p.railGrowth)
    ensures Get(Encode(p), HandoffField, Optional(DecodeText),
                DEFAULT.appimageHandoffSeen) == Some(p.appimageHandoffSeen)
    ensures Get(Encode(p), OfferField, DecodeFlag, DEFAULT.serviceOfferDismissed) == Some(p.serviceOfferDismissed)
    ensures Get(Encode(p), TrayPopupField, Optional(DecodeTray), DEFAULT.trayPopupSize) == Some(p.trayPopupSize)
    ensures Get(Encode(p), LanguageField, DecodeLang, DEFAULT.language) == Some(p.language)
    ensures Get(Encode(p), LanguageSetField, DecodeFlag, DEFAULT.languageSetByUser) == Some(p.languageSetByUser)
  {
    hide Encode, Get, EncodeOption, DecodeOption, Optional, EncodeLang, DecodeLang;
    GetReadsBack(p, CollapsedField, DecodeFlag, DEFAULT.navigationCollapsed, p.navigationCollapsed);
    TextReadBack(p.announcementSeen);
    OptionalIs(Value(p, AnnouncementField), DecodeText);
    GetReadsBack(p, AnnouncementField, Optional(DecodeText), DEFAULT.announcementSeen, p.announcementSeen);
    GetReadsBack(p, TunField, DecodeFlag, DEFAULT.tunEnabled, p.tunEnabled);
    RailReadBack(p.railGrowth);
    OptionalIs(Value(p, RailGrowthField), DecodeRail);
    GetReadsBack(p, RailGrowthField, Optional(DecodeRail), DEFAULT.railGrowth, p.railGrowth);
    TextReadBack(p.appimageHandoffSeen);
    OptionalIs(Value(p, HandoffField), DecodeText);
    GetReadsBack(p, HandoffField, Optional(DecodeText), DEFAULT.appimageHandoffSeen, p.appimageHandoffSeen);
    GetReadsBack(p, OfferField, DecodeFlag, DEFAULT.serviceOfferDismissed, p.serviceOfferDismissed);
    TrayReadBack(p.trayPopupSize);
    OptionalIs(Value(p, TrayPopupField), DecodeTray);
    GetReadsBack(p, TrayPopupField, Optional(DecodeTray), DEFAULT.trayPopupSize, p.trayPopupSize);
    LangReadBack(p.language);
    GetReadsBack(p, LanguageField, DecodeLang, DEFAULT.language, p.language);
    GetReadsBack(p, LanguageSetField, DecodeFlag, DEFAULT.languageSetByUser, p.languageSetByUser);
  }

  /** Every preference survives being written and read, omitted or not. */
  lemma DocumentReadBack(p: Preferences)
    ensures Decode(Encode(p)) == Some(p)
  {
    hide Encode, Get, Optional;
    FirstHalfReadsBack(p);
    SecondHalfReadsBack(p);
    forall field | field in Encode(p)
      ensures Known(field)
    {
      EncodeAt(p, field);
    }
  }

  // ----- What stands where -----

  /** The schema version and the flags of the first release, each in its own field. */
  lemma FirstFields(p: Preferences)
    ensures var d := Encode(p);
            && {SchemaVersionField, MaximizedField, AmbientField, AutoConnectField, CollapsedField, TunField} <= d.Keys
            && d[SchemaVersionField] == Number(p.schemaVersion)
            && d[MaximizedField] == Flag(p.maximized)
            && d[AmbientField] == Flag(p.ambientBackground)
            && d[AutoConnectField] == Flag(p.autoConnectOnStartup)
            && d[CollapsedField] == Flag(p.navigationCollapsed)
            && d[TunField] == Flag(p.tunEnabled)
  {
    hide Encode, EncodeOption, EncodeTexts, EncodeSelections, EncodePage, EncodeLang;
    EncodeAt(p, SchemaVersionField);
    EncodeAt(p, MaximizedField);
    EncodeAt(p, AmbientField);
    EncodeAt(p, AutoConnectField);
    EncodeAt(p, CollapsedField);
    EncodeAt(p, TunField);
  }

  lemma PageField(p: Preferences)
    ensures var d := Encode(p);
            && VisiblePageField in d
            && d[VisiblePageField] == (match p.visiblePage
                                       case Home => Text("home")
                                       case Status => Text("status")
                                       case Subscriptions => Text("subscriptions")
                                       case Settings => Text("settings"))
  {
    hide Encode, EncodeOption, EncodeTexts, EncodeSelections, EncodeLang;
    EncodeAt(p, VisiblePageField);
  }

  lemma OptionalFields(p: Preferences)
    ensures var d := Encode(p);
            && {RestoredBoundsField, ActiveProfileHintField, AnnouncementField, RailGrowthField} <= d.Keys
            && d[ActiveProfileHintField] == (match p.activeProfileHint case None => Null case Some(s) => Text(s))
            && d[AnnouncementField] == (match p.announcementSeen case None => Null case Some(s) => Text(s))
            && d[RestoredBoundsField] ==
               (match p.restoredBounds
                case None => Null
                case Some(b) => Object(map["x" := Number(b.x), "y" := Number(b.y), "width" := Number(b.width),
                                           "height" := Number(b.height)]))
            && d[RailGrowthField] ==
               (match p.railGrowth
                case None => Null
                case Some(r) => Object(map["delta" := Number(r.delta), "grown_width" := Number(r.grownWidth)]))
  {
    hide Encode, EncodeTexts, EncodeSelections, EncodePage, EncodeLang;
    EncodeAt(p, RestoredBoundsField);
    EncodeAt(p, ActiveProfileHintField);
    EncodeAt(p, AnnouncementField);
    EncodeAt(p, RailGrowthField);
  }

  lemma MapFields(p: Preferences)
    ensures var d := Encode(p);
            && LastGroupField in d && SelectionsField in d
            && d[LastGroupField] == Object(map k | k in p.lastGroupByProfile :: Text(p.lastGroupByProfile[k]))
            && d[SelectionsField].Object? && d[SelectionsField].fields.Keys == p.selectionsByProfile.Keys
            && forall k :: k in p.selectionsByProfile ==>
                 d[SelectionsField].fields[k] ==
                 Object(map n | n in p.selectionsByProfile[k] :: Text(p.selectionsByProfile[k][n]))
  {
    hide Encode, EncodeOption, EncodePage, EncodeLang;
    EncodeAt(p, LastGroupField);
    EncodeAt(p, SelectionsField);
  }

  lemma LaterFields(p: Preferences)
    ensures var d := Encode(p);
            && (HandoffField in d <==> p.appimageHandoffSeen.Some?)
            && (OfferField in d <==> p.serviceOfferDismissed)
            && (TrayPopupField in d <==> p.trayPopupSize.Some?)
            && (LanguageField in d <==> p.language == En)
            && (LanguageSetField in d <==> p.languageSetByUser)
            && (HandoffField in d ==> d[HandoffField] == Text(p.appimageHandoffSeen.value))
            && (OfferField in d ==> d[OfferField] == Flag(true))
            && (TrayPopupField in d ==>
                  d[TrayPopupField] == Object(map["width" := Number(p.trayPopupSize.value.width),
                                                  "height" := Number(p.trayPopupSize.value.height)]))
            && (LanguageField in d ==> d[LanguageField] == Text("en"))
            && (LanguageSetField in d ==> d[LanguageSetField] == Flag(true))
  {
    hide Encode;
    EncodeAt(p, HandoffField);
    EncodeAt(p, OfferField);
    EncodeAt(p, TrayPopupField);
    EncodeAt(p, LanguageField);
    EncodeAt(p, LanguageSetField);
  }

  /** A document with a field nobody knows is refused. */
  lemma UnknownIsRefused(d: Document, name: string)
    requires UnknownField(name) in d
    ensures Decode(d).None?
  {
    assert !Known(UnknownField(name));
  }

  /** What every missing field becomes. */
  lemma MissingFields(d: Document)
    requires Decode(d).Some?
    ensures var p := Decode(d).value;
            && (SchemaVersionField !in d ==> p.schemaVersion == 1)
            && (RestoredBoundsField !in d ==> p.restoredBounds == None)
            && (MaximizedField !in d ==> !p.maximized)
            && (VisiblePageField !in d ==> p.visiblePage == Home)
            && (ActiveProfileHintField !in d ==> p.activeProfileHint == None)
            && (LastGroupField !in d ==> p.lastGroupByProfile == map[])
            && (SelectionsField !in d ==> p.selectionsByProfile == map[])
            && (AmbientField !in d ==> p.ambientBackground)
            && (AutoConnectField !in d ==> !p.autoConnectOnStartup)
            && (CollapsedField !in d ==> p.navigationCollapsed)
            && (AnnouncementField !in d ==> p.announcementSeen == None)
            && (TunField !in d ==> p.tunEnabled)
            && (RailGrowthField !in d ==> p.railGrowth == None)
            && (HandoffField !in d ==> p.appimageHandoffSeen == None)
            && (OfferField !in d ==> !p.serviceOfferDismissed)
            && (TrayPopupField !in d ==> p.trayPopupSize == None)
            && (LanguageField !in d ==> p.language == Ru)
            && (LanguageSetField !in d ==> !p.languageSetByUser)
  {
    hide Optional, DecodeBounds, DecodeTexts, DecodeSelections, DecodePage, DecodeRail, DecodeTray, DecodeLang;
  }

  /** A version from before the later fields: they are unknown to it, and their preferences do not
      exist. */
  function DecodeOlder(d: Document): Option<Preferences> {
    if exists field :: field in d && Later(field) then None else Decode(d)
  }

  predicate LaterAreDefault(p: Preferences) {
    && p.appimageHandoffSeen == DEFAULT.appimageHandoffSeen
    && p.serviceOfferDismissed == DEFAULT.serviceOfferDismissed
    && p.trayPopupSize == DEFAULT.trayPopupSize
    && p.language == DEFAULT.language
    && p.languageSetByUser == DEFAULT.languageSetByUser
  }

  /** An older version reads the file, and reads every preference it knows, exactly while all later
      preferences have their defaults; else it refuses the file. */
  lemma OlderVersionsRead(p: Preferences)
    ensures DecodeOlder(Encode(p)) == if LaterAreDefault(p) then Some(p) else None
  {
    hide Encode, Decode;
    EncodeAt(p, HandoffField);
    EncodeAt(p, OfferField);
    EncodeAt(p, TrayPopupField);
    EncodeAt(p, LanguageField);
    EncodeAt(p, LanguageSetField);
    DocumentReadBack(p);
  }
}
