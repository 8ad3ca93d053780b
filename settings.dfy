/** The plugin's settings: the defaults, the record kept in the plugin's data
    file, and `loadSettings`, which copies the loaded record over the
    defaults the way `Object.assign({}, DEFAULT_SETTINGS, data)` does. */
module Settings {
  import opened Wrappers

  /** The three tree styles the generator offers. */
  datatype TreeType = Normal | Bold | Ascii

  /** A complete settings record: every option has a value. */
  datatype Settings = Settings(
    treeType: TreeType,
    emptyBeforeUpperHierarche: bool,
    spaceBeforeName: bool,
    spaceSize: int)

  /** `DEFAULT_SETTINGS` */
  const DefaultSettings := Settings(Normal, false, true, 2)

  /** A record as read back from the data file: any key may be missing. */
  datatype StoredSettings = StoredSettings(
    treeType: Option<TreeType>,
    emptyBeforeUpperHierarche: Option<bool>,
    spaceBeforeName: Option<bool>,
    spaceSize: Option<int>)

  /** The empty object `{}`. */
  const NoKeys := StoredSettings(None, None, None, None)

  /** A record that has every key. */
  predicate Complete(st: StoredSettings)
  {
    st.treeType.Some? && st.emptyBeforeUpperHierarche.Some?
    && st.spaceBeforeName.Some? && st.spaceSize.Some?
  }

  /** One key of `Object.assign`: the source's value when it has the key. */
  function AssignKey<T>(target: Option<T>, source: Option<T>): Option<T>
  {
    if source.Some? then source else target
  }

  /** `Object.assign(target, source)` for one source: every key the source
      has is copied over the target's, every other key keeps the target's
      value. */
  function Assign(target: StoredSettings, source: StoredSettings): (r: StoredSettings)
    ensures source.treeType.Some? ==> r.treeType == source.treeType
    ensures source.treeType.None? ==> r.treeType == target.treeType
    ensures source.emptyBeforeUpperHierarche.Some? ==> r.emptyBeforeUpperHierarche == source.emptyBeforeUpperHierarche
    ensures source.emptyBeforeUpperHierarche.None? ==> r.emptyBeforeUpperHierarche == target.emptyBeforeUpperHierarche
    ensures source.spaceBeforeName.Some? ==> r.spaceBeforeName == source.spaceBeforeName
    ensures source.spaceBeforeName.None? ==> r.spaceBeforeName == target.spaceBeforeName
    ensures source.spaceSize.Some? ==> r.spaceSize == source.spaceSize
    ensures source.spaceSize.None? ==> r.spaceSize == target.spaceSize
    ensures Complete(target) ==> Complete(r)
  {
    StoredSettings(
      AssignKey(target.treeType, source.treeType),
      AssignKey(target.emptyBeforeUpperHierarche, source.emptyBeforeUpperHierarche),
      AssignKey(target.spaceBeforeName, source.spaceBeforeName),
      AssignKey(target.spaceSize, source.spaceSize))
  }

  /** The record `saveData(this.settings)` writes: every key present. */
  function Stored(s: Settings): (st: StoredSettings)
    ensures Complete(st)
  {
    StoredSettings(Some(s.treeType), Some(s.emptyBeforeUpperHierarche),
                   Some(s.spaceBeforeName), Some(s.spaceSize))
  }

  /** Reads a complete record back as settings. */
  function FromStored(st: StoredSettings): Settings
    requires Complete(st)
  {
    Settings(st.treeType.value, st.emptyBeforeUpperHierarche.value,
             st.spaceBeforeName.value, st.spaceSize.value)
  }

  /** `Object.assign({}, DEFAULT_SETTINGS, data)`: a missing data file
      (`null`) is skipped as a source, so it gives the defaults; otherwise
      every field present in the data wins and every absent field takes its
      default. */
  function LoadedSettings(data: Option<StoredSettings>): (s: Settings)
    ensures data.None? ==> s == DefaultSettings
    ensures data.Some? && data.value.treeType.Some? ==> s.treeType == data.value.treeType.value
    ensures data.Some? && data.value.treeType.None? ==> s.treeType == DefaultSettings.treeType
    ensures data.Some? && data.value.emptyBeforeUpperHierarche.Some? ==>
              s.emptyBeforeUpperHierarche == data.value.emptyBeforeUpperHierarche.value
    ensures data.Some? && data.value.emptyBeforeUpperHierarche.None? ==>
              s.emptyBeforeUpperHierarche == DefaultSettings.emptyBeforeUpperHierarche
    ensures data.Some? && data.value.spaceBeforeName.Some? ==> s.spaceBeforeName == data.value.spaceBeforeName.value
    ensures data.Some? && data.value.spaceBeforeName.None? ==> s.spaceBeforeName == DefaultSettings.spaceBeforeName
    ensures data.Some? && data.value.spaceSize.Some? ==> s.spaceSize == data.value.spaceSize.value
    ensures data.Some? && data.value.spaceSize.None? ==> s.spaceSize == DefaultSettings.spaceSize
  {
    var withDefaults := Assign(NoKeys, Stored(DefaultSettings));
    var merged := if data.Some? then Assign(withDefaults, data.value) else withDefaults;
    FromStored(merged)
  }

  /** A data file with no keys loads as the defaults, as a missing one does. */
  lemma LoadNoKeys()
    ensures LoadedSettings(Some(NoKeys)) == LoadedSettings(None) == DefaultSettings
  {
  }

  /** What `saveSettings` writes, `loadSettings` reads back unchanged. */
  lemma LoadAfterSave(s: Settings)
    ensures LoadedSettings(Some(Stored(s))) == s
  {
  }

  /** Loading is a fixed point after one save: saving the loaded settings
      and loading again gives the same settings. */
  lemma LoadSaveLoad(data: Option<StoredSettings>)
    ensures LoadedSettings(Some(Stored(LoadedSettings(data)))) == LoadedSettings(data)
  {
  }

  /** The plugin object, reduced to its settings field. */
  class Dirtreeist {
    var settings: Settings

    /** `onload` begins by loading the settings. */
    constructor(data: Option<StoredSettings>)
      ensures settings == LoadedSettings(data)
    {
      settings := LoadedSettings(data);
    }

    /** `loadSettings`, with the data file's contents passed in. */
    method LoadSettings(data: Option<StoredSettings>)
      modifies this
      ensures settings == LoadedSettings(data)
    {
      settings := LoadedSettings(data);
    }

    /** `saveSettings`, returning the record that is written instead of
        writing it. */
    method SaveSettings() returns (data: StoredSettings)
      ensures Complete(data) && FromStored(data) == settings
    {
      data := Stored(settings);
    }
  }
}
