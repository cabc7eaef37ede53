/**
 * The bot's message tables and the two lookups over them: the language
 * preference read from the language file, and `t(key, **kwargs)`, the
 * translation with its fallbacks and its one-field template substitution.
 */
module Translations {
  import opened Wrappers
  import opened Text

  /** The English table (the keys the modelled commands and the status checker use). */
  const English: map<string, string> := map[
    "monitoring_started" := "✅ Monitoring started! Checking every 2 minutes.",
    "monitoring_already_running" := "⚠️ Monitoring is already running!",
    "monitoring_stopped" := "🛑 Monitoring stopped. Going to sleep.",
    "monitoring_not_running" := "💤 No monitoring active at the moment.",
    "id_saved" := "✅ ID {id} saved. Use /run to start.",
    "error_no_id" := "❌ Error. Please provide an ID (e.g., /setID 12345).",
    "status_change" := "⚠️ Status Change!\nNew Status: {status}",
    "status_report" := "ID: {id}\nMonitoring: {running}\nLast Status: {status}",
    "active" := "Active ✅",
    "inactive" := "Inactive 💤",
    "offline" := "Offline",
    "last_seen" := "Offline (Last seen: {time})",
    "online" := "Online ({server})",
    "lang_set" := "🇺🇸 Language set to English.",
    "unknown" := "Unknown"
  ]

  /** The German table, over the same keys. */
  const German: map<string, string> := map[
    "monitoring_started" := "✅ Überwachung gestartet! Ich prüfe alle 2 Minuten.",
    "monitoring_already_running" := "⚠️ Die Überwachung läuft bereits!",
    "monitoring_stopped" := "🛑 Überwachung gestoppt. Ich schlafe jetzt.",
    "monitoring_not_running" := "💤 Es läuft aktuell keine Überwachung.",
    "id_saved" := "✅ ID {id} gespeichert. Nutze /run.",
    "error_no_id" := "❌ Fehler. Bitte ID angeben (z.B. /setID 12345).",
    "status_change" := "⚠️ Statusänderung!\nNeuer Status: {status}",
    "status_report" := "ID: {id}\nÜberwachung: {running}\nLetzter Status: {status}",
    "active" := "Aktiv ✅",
    "inactive" := "Inaktiv 💤",
    "offline" := "Offline",
    "last_seen" := "Offline (Zuletzt gesehen: {time})",
    "online" := "Online ({server})",
    "lang_set" := "🇩🇪 Sprache auf Deutsch gesetzt.",
    "unknown" := "Unbekannt"
  ]

  const DefaultLanguage: string := "en"

  /** `MESSAGES`: language code to table. */
  const Messages: map<string, map<string, string>> := map["en" := English, "de" := German]

  /**
   * `get_language()`: the stripped content of the language file when it names a
   * table, English otherwise; a missing file (`None`) also gives English.
   */
  function GetLanguage(file: Option<string>): (lang: string)
    ensures lang in Messages
    ensures file.Some? && Strip(file.value) in Messages ==> lang == Strip(file.value)
    ensures (file.None? || Strip(file.value) !in Messages) ==> lang == DefaultLanguage
  {
    match file
    case None => DefaultLanguage
    case Some(content) =>
      var lang := Strip(content);
      if lang in Messages then lang else DefaultLanguage
  }

  /** `MESSAGES.get(lang, MESSAGES["en"])`: the table of `lang`, or the English one. */
  function Table(lang: string): map<string, string> {
    if lang in Messages then Messages[lang] else Messages[DefaultLanguage]
  }

  /** `Table(lang).get(key, key)`: the text of `key`, or the key itself when the table lacks it. */
  function Lookup(lang: string, key: string): string {
    var table := Table(lang);
    if key in table then table[key] else key
  }

  /** German for "de", English for every other language. */
  lemma TableIs(lang: string)
    ensures Table(lang) == if lang == "de" then German else English
  {
  }

  /** The English templates of the status renderings. */
  lemma EnglishTemplates()
    ensures "online" in English && English["online"] == "Online (" + Placeholder("server") + ")"
    ensures "last_seen" in English && English["last_seen"] == "Offline (Last seen: " + Placeholder("time") + ")"
    ensures "offline" in English && English["offline"] == "Offline"
    ensures "status_change" in English
      && English["status_change"] == "⚠️ Status Change!\nNew Status: " + Placeholder("status") + ""
  {
  }

  /** The German templates of the status renderings. */
  lemma GermanTemplates()
    ensures "online" in German && German["online"] == "Online (" + Placeholder("server") + ")"
    ensures "last_seen" in German && German["last_seen"] == "Offline (Zuletzt gesehen: " + Placeholder("time") + ")"
    ensures "offline" in German && German["offline"] == "Offline"
    ensures "status_change" in German
      && German["status_change"] == "⚠️ Statusänderung!\nNeuer Status: " + Placeholder("status") + ""
  {
  }

  /** `t(key)` without arguments, in the language the file selects. */
  function T(file: Option<string>, key: string): string {
    Lookup(GetLanguage(file), key)
  }

  /** `{field}`, the replacement field `str.format` fills with the argument `field`. */
  function Placeholder(field: string): string {
    "{" + field + "}"
  }

  /** `text.format(field=value)` for a template whose only replacement field is `field`. */
  function Format(text: string, field: string, value: string): string
    decreases |text|
  {
    var ph := Placeholder(field);
    if |text| < |ph| then text
    else if text[..|ph|] == ph then value + Format(text[|ph|..], field, value)
    else [text[0]] + Format(text[1..], field, value)
  }

  /** `t(key, field=value)`: the translated template with its field filled. */
  function TFormat(file: Option<string>, key: string, field: string, value: string): string {
    Format(T(file, key), field, value)
  }

  /**
   * Literal text for `str.format`: no `{` opens a field and no lone `}`
   * (which `str.format` rejects) appears.
   */
  predicate NoBraces(s: string) {
    '{' !in s && '}' !in s
  }

  /** A text without any brace is left as it is. */
  lemma {:induction false} FormatPlain(text: string, field: string, value: string)
    requires NoBraces(text)
    ensures Format(text, field, value) == text
    decreases |text|
  {
    var ph := Placeholder(field);
    if |text| >= |ph| {
      assert text[..|ph|][0] == text[0] != ph[0];
      PlainTail(text);
      FormatPlain(text[1..], field, value);
      assert [text[0]] + text[1..] == text;
    }
  }

  /** A leading placeholder is replaced by the value. */
  lemma FormatAtField(post: string, field: string, value: string)
    ensures Format(Placeholder(field) + post, field, value) == value + Format(post, field, value)
  {
    var text := Placeholder(field) + post;
    assert text[..|Placeholder(field)|] == Placeholder(field);
    assert text[|Placeholder(field)|..] == post;
  }

  /** A leading character other than `{` is copied. */
  lemma FormatAtPlain(c: char, rest: string, field: string, value: string)
    requires c != '{'
    ensures Format([c] + rest, field, value) == [c] + Format(rest, field, value)
  {
    var text := [c] + rest;
    var ph := Placeholder(field);
    if |text| >= |ph| {
      assert text[..|ph|][0] == c != ph[0];
    }
    assert text[1..] == rest;
  }

  lemma PlainTail(s: string)
    requires s != [] && NoBraces(s)
    ensures NoBraces(s[1..])
  {
    forall k | 0 <= k < |s| - 1
      ensures s[1..][k] != '{' && s[1..][k] != '}'
    {
      assert s[1..][k] == s[k + 1];
    }
  }

  /** Filling a template made of plain text around one field puts the value in its place. */
  lemma {:induction false} FormatSplice(pre: string, post: string, field: string, value: string)
    requires NoBraces(pre) && NoBraces(post)
    ensures Format(pre + Placeholder(field) + post, field, value) == pre + value + post
    decreases |pre|
  {
    var ph := Placeholder(field);
    if pre == [] {
      assert pre + ph + post == ph + post;
      FormatAtField(post, field, value);
      FormatPlain(post, field, value);
    } else {
      var rest := pre[1..] + ph + post;
      assert pre + ph + post == [pre[0]] + rest;
      FormatAtPlain(pre[0], rest, field, value);
      PlainTail(pre);
      FormatSplice(pre[1..], post, field, value);
      assert [pre[0]] + (pre[1..] + value + post) == pre + value + post;
    }
  }

  /** Both tables have the same keys, so an unknown key falls back to itself in every language. */
  lemma TablesShareKeys()
    ensures English.Keys == German.Keys
  {
  }

  lemma LookupUnknownKey(lang: string, key: string)
    requires key !in English
    ensures Lookup(lang, key) == key
  {
    TablesShareKeys();
  }

  /** An unknown language reads the English table. */
  lemma LookupUnknownLanguage(lang: string, key: string)
    requires lang !in Messages
    ensures Lookup(lang, key) == Lookup(DefaultLanguage, key)
  {
  }

  /** German is chosen exactly when the stripped file content is `de`; every other content reads English. */
  lemma GetLanguageGerman(file: Option<string>)
    ensures GetLanguage(file) == "de" <==> file.Some? && Strip(file.value) == "de"
    ensures GetLanguage(file) != "de" ==> forall key :: T(file, key) == Lookup(DefaultLanguage, key)
  {
  }
}
