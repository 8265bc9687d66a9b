/**
 * The settings record of core/settings.py (class Settings): a key-value
 * record loaded from settings.json, or the defaults when the file does not
 * exist, and rewritten in full after every change.
 *
 * The record is a map, so a loaded file that lacks a key is representable;
 * values are the JSON integers and strings the record holds.
 */
module CoreSettings {
  import opened Wrappers

  datatype Value = IntValue(i: int) | StrValue(s: string)

  /** The JSON object held in settings.json and in memory. */
  type Record = map<string, Value>

  /** Settings.DEFAULTS. Maps are values, so the copy taken on load can never alias it. */
  const DEFAULTS: Record := map["cooldown" := IntValue(300), "theme" := IntValue(1), "language" := StrValue("ru")]

  /** The defaults hold exactly the three keys, with a five-minute cooldown, theme 1 and Russian. */
  lemma DefaultsRecord()
    ensures DEFAULTS.Keys == {"cooldown", "theme", "language"}
    ensures DEFAULTS["cooldown"] == IntValue(300)
    ensures DEFAULTS["theme"] == IntValue(1)
    ensures DEFAULTS["language"] == StrValue("ru")
  {
  }

  /** The file settings.json; `None` when it does not exist. */
  class SettingsJson {
    var contents: Option<Record>

    constructor (contents: Option<Record>)
      ensures this.contents == contents
    {
      this.contents := contents;
    }
  }

  /** The entries of the record other than `key` are those of `before`. */
  ghost predicate OthersUnchanged(before: Record, after: Record, key: string)
  {
    && after.Keys == before.Keys + {key}
    && forall k :: k in before && k != key ==> after[k] == before[k]
  }

  class Settings {
    var settings: Record
    const file: SettingsJson

    constructor (file: SettingsJson)
      ensures this.file == file
      ensures settings == LoadSettings()
      ensures file.contents.None? ==> settings == DEFAULTS
      ensures file.contents == old(file.contents)
    {
      this.file := file;
      settings := map[];
      new;
      settings := LoadSettings();
    }

    /** load_settings(): the stored record, or the defaults when there is no file. */
    function LoadSettings(): (loaded: Record)
      reads file
      ensures file.contents.None? ==> loaded == DEFAULTS && loaded.Keys == {"cooldown", "theme", "language"}
      ensures file.contents.Some? ==> loaded == file.contents.value
    {
      match file.contents
      case None => DEFAULTS
      case Some(stored) => stored
    }

    /** save_settings(): overwrites the file with the whole record; loading it back gives the record. */
    method SaveSettings()
      modifies file
      ensures file.contents == Some(settings)
      ensures LoadSettings() == settings
    {
      file.contents := Some(settings);
    }

    /** get_cooldown(): the "cooldown" entry, which must be present. */
    function GetCooldown(): (value: Value)
      reads this
      requires "cooldown" in settings
      ensures value == settings["cooldown"]
    {
      settings["cooldown"]
    }

    /** set_cooldown(value): stores any value as given, touches no other key, then flushes. */
    method SetCooldown(value: int)
      modifies this`settings, file
      ensures settings == old(settings)["cooldown" := IntValue(value)]
      ensures GetCooldown() == IntValue(value)
      ensures OthersUnchanged(old(settings), settings, "cooldown")
      ensures file.contents == Some(settings)
      ensures LoadSettings() == settings
    {
      settings := settings["cooldown" := IntValue(value)];
      SaveSettings();
    }

    /** get_language(): the "language" entry, which must be present. */
    function GetLanguage(): (value: Value)
      reads this
      requires "language" in settings
      ensures value == settings["language"]
    {
      settings["language"]
    }

    /** set_language(language): stores any string as given, touches no other key, then flushes. */
    method SetLanguage(language: string)
      modifies this`settings, file
      ensures settings == old(settings)["language" := StrValue(language)]
      ensures GetLanguage() == StrValue(language)
      ensures OthersUnchanged(old(settings), settings, "language")
      ensures file.contents == Some(settings)
      ensures LoadSettings() == settings
    {
      settings := settings["language" := StrValue(language)];
      SaveSettings();
    }
  }
}
