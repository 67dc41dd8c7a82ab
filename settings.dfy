/**
 * The plugin's settings record and `loadSettings`: a shallow, field-by-field
 * override of the defaults by whatever record the host persisted.
 */
module Settings {
  import opened Wrappers

  datatype Settings = Settings(
    outputPathTemplate: string,
    outputFolder: string,
    ollamaApiUrl: string,
    model: string,
    maxTokens: int)

  const DefaultSettings := Settings(
    "Summary of Week %WEEK_NUMBER%.md",
    "/",
    "http://localhost:11434",
    "mistral:latest",
    500)

  /** A persisted record: each settings field may be present or not. */
  datatype StoredFields = StoredFields(
    outputPathTemplate: Option<string>,
    outputFolder: Option<string>,
    ollamaApiUrl: Option<string>,
    model: Option<string>,
    maxTokens: Option<int>)

  /** What `loadData` yields: nothing (null or undefined) or a persisted record. */
  datatype StoredData = NoData | Stored(fields: StoredFields)

  /** `Object.assign({}, DEFAULT_SETTINGS, data)`: every field present in `data` wins. */
  function LoadSettings(data: StoredData): (s: Settings)
    ensures data.NoData? ==> s == DefaultSettings
    ensures data.Stored? ==>
      && s.outputPathTemplate == data.fields.outputPathTemplate.GetOr(DefaultSettings.outputPathTemplate)
      && s.outputFolder == data.fields.outputFolder.GetOr(DefaultSettings.outputFolder)
      && s.ollamaApiUrl == data.fields.ollamaApiUrl.GetOr(DefaultSettings.ollamaApiUrl)
      && s.model == data.fields.model.GetOr(DefaultSettings.model)
      && s.maxTokens == data.fields.maxTokens.GetOr(DefaultSettings.maxTokens)
  {
    match data
    case NoData => DefaultSettings
    case Stored(f) =>
      var d := DefaultSettings;
      Settings(
        (if f.outputPathTemplate.Some? then f.outputPathTemplate.value else d.outputPathTemplate),
        (if f.outputFolder.Some? then f.outputFolder.value else d.outputFolder),
        (if f.ollamaApiUrl.Some? then f.ollamaApiUrl.value else d.ollamaApiUrl),
        (if f.model.Some? then f.model.value else d.model),
        (if f.maxTokens.Some? then f.maxTokens.value else d.maxTokens))
  }

  /** The record `saveData(this.settings)` persists: every field present. */
  function Saved(s: Settings): StoredData {
    Stored(StoredFields(Some(s.outputPathTemplate), Some(s.outputFolder), Some(s.ollamaApiUrl),
                        Some(s.model), Some(s.maxTokens)))
  }

  /** Loading what was saved gives back the saved settings, whatever the defaults are. */
  lemma LoadSaved(s: Settings)
    ensures LoadSettings(Saved(s)) == s
  {
  }

  /** A persisted record with no settings fields loads as the defaults. */
  lemma LoadEmptyRecord()
    ensures LoadSettings(Stored(StoredFields(None, None, None, None, None))) == DefaultSettings
  {
  }
}
