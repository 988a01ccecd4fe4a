/**
 * Reader settings in the older application: four keys read one by one from the
 * store with per-key defaults, and a single-key update that is applied in memory
 * only once the store accepted it.
 */
module SrcSettings {
  import opened Wrappers
  import opened SrcDb

  datatype Key = Theme | FontSize | FontFamily | LineHeight

  function KeyName(k: Key): (name: string)
    ensures name in {"theme", "fontSize", "fontFamily", "lineHeight"}
  {
    match k
    case Theme => "theme"
    case FontSize => "fontSize"
    case FontFamily => "fontFamily"
    case LineHeight => "lineHeight"
  }

  lemma KeyNameInjective(a: Key, b: Key)
    ensures KeyName(a) == KeyName(b) ==> a == b
  {
  }

  /** The settings object; stored values are used without any type check, so each field holds a stored value. */
  datatype Settings = Settings(theme: Value, fontSize: Value, fontFamily: Value, lineHeight: Value) {
    function Get(k: Key): (v: Value)
      ensures k == Theme ==> v == theme
      ensures k == FontSize ==> v == fontSize
      ensures k == FontFamily ==> v == fontFamily
      ensures k == LineHeight ==> v == lineHeight
    {
      match k
      case Theme => theme
      case FontSize => fontSize
      case FontFamily => fontFamily
      case LineHeight => lineHeight
    }
  }

  const Defaults: Settings := Settings(Text("sepia"), Number(18.0), Text("serif"), Number(1.8))

  /** `{ ...prev, [key]: value }`. */
  function With(s: Settings, k: Key, v: Value): (r: Settings)
    ensures r.Get(k) == v
    ensures forall other :: other != k ==> r.Get(other) == s.Get(other)
  {
    match k
    case Theme => s.(theme := v)
    case FontSize => s.(fontSize := v)
    case FontFamily => s.(fontFamily := v)
    case LineHeight => s.(lineHeight := v)
  }

  /** What the four reads produce from the settings table. */
  function Loaded(settings: map<string, Value>): (r: Settings)
    ensures forall k :: r.Get(k) == SettingOr(settings, KeyName(k), Defaults.Get(k))
  {
    Settings(SettingOr(settings, "theme", Defaults.theme), SettingOr(settings, "fontSize", Defaults.fontSize),
             SettingOr(settings, "fontFamily", Defaults.fontFamily), SettingOr(settings, "lineHeight", Defaults.lineHeight))
  }

  class SettingsHook {
    var settings: Settings
    var loading: bool

    constructor()
      ensures settings == Defaults && loading
    {
      settings := Defaults;
      loading := true;
    }

    /** The mount-time load: a failed read leaves the settings as they were. */
    method Load(db: Database)
      requires db.Valid()
      modifies this
      ensures !loading
      ensures db.available ==> settings == Loaded(db.settings)
      ensures !db.available ==> settings == old(settings)
    {
      loading := true;
      var theme := db.GetSetting("theme", Defaults.theme);
      var fontSize := db.GetSetting("fontSize", Defaults.fontSize);
      var fontFamily := db.GetSetting("fontFamily", Defaults.fontFamily);
      var lineHeight := db.GetSetting("lineHeight", Defaults.lineHeight);
      if theme.Success? && fontSize.Success? && fontFamily.Success? && lineHeight.Success? {
        settings := Settings(theme.value, fontSize.value, fontFamily.value, lineHeight.value);
      }
      loading := false;
    }

    /** `updateSetting(key, value)`. */
    method UpdateSetting(db: Database, k: Key, v: Value)
      requires db.Valid()
      modifies db`settings, this`settings
      ensures db.Valid()
      ensures db.available ==> db.settings == old(db.settings)[KeyName(k) := v] && settings == With(old(settings), k, v)
      ensures !db.available ==> db.settings == old(db.settings) && settings == old(settings)
    {
      var ok := db.SaveSetting(KeyName(k), v);
      if ok {
        settings := With(settings, k, v);
      }
    }
  }

  /**
   * Saving a non-null value and loading again reads that value back for its key,
   * and every other key reads as before.
   */
  lemma {:induction false} SaveThenLoad(store: map<string, Value>, k: Key, v: Value)
    requires v != Null
    ensures Loaded(store[KeyName(k) := v]).Get(k) == v
    ensures forall other :: other != k ==> Loaded(store[KeyName(k) := v]).Get(other) == Loaded(store).Get(other)
  {
    forall other | other != k
      ensures Loaded(store[KeyName(k) := v]).Get(other) == Loaded(store).Get(other)
    {
      KeyNameInjective(other, k);
    }
  }

  /** Saving `null` makes the key read as its default again. */
  lemma SaveNullRestoresDefault(store: map<string, Value>, k: Key)
    ensures Loaded(store[KeyName(k) := Null]).Get(k) == Defaults.Get(k)
  {
  }
}
