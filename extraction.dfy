/**
 * Field extraction from the player page: the scan over the page's `dt`
 * label / `dd` text pairs and the three-way choice of the rendered status.
 * The browser is replaced by its result: `None` when the driver fails,
 * otherwise the `dt` elements in page order, each with the text of its
 * following `dd` or `None` when it has none.
 */
module Extraction {
  import opened Wrappers
  import opened Text
  import opened Translations

  /** One `dt` element: its text and the text of its following `dd`, if there is one. */
  datatype Entry = Entry(dt: string, dd: Option<string>)

  /** The three conclusions the scan can reach, before rendering. */
  datatype Status = Online(server: string) | Seen(time: string) | Offline

  const ServerLabel: string := "Current Server"
  const LastSeenLabel: string := "Last Seen"
  const NotOnline: string := "Not online"
  /** What the scan returns when the driver or an element lookup fails. */
  const ErrorText: string := "Error"

  /** The stripped label mentions "Current Server" (case-sensitive substring). */
  predicate IsServerEntry(e: Entry) {
    Contains(Strip(e.dt), ServerLabel)
  }

  /** The stripped label mentions "Last Seen" (case-sensitive substring). */
  predicate IsLastSeenEntry(e: Entry) {
    Contains(Strip(e.dt), LastSeenLabel)
  }

  /** A matched label without a following `dd`: `find_element` raises. */
  predicate Broken(e: Entry) {
    (IsServerEntry(e) || IsLastSeenEntry(e)) && e.dd.None?
  }

  predicate AnyBroken(es: seq<Entry>) {
    exists i :: 0 <= i < |es| && Broken(es[i])
  }

  /** No entry of `es` is broken, checked from the back as the scan sees it. */
  predicate Clean(es: seq<Entry>) {
    es == [] || (!Broken(es[|es| - 1]) && Clean(es[..|es| - 1]))
  }

  lemma {:induction false} CleanIff(es: seq<Entry>)
    ensures Clean(es) <==> !AnyBroken(es)
    decreases |es|
  {
    if es != [] {
      var init := es[..|es| - 1];
      CleanIff(init);
      assert forall j :: 0 <= j < |init| ==> init[j] == es[j];
    }
  }

  lemma CleanStep(es: seq<Entry>, i: int)
    requires 0 <= i < |es|
    ensures Clean(es[..i + 1]) <==> !Broken(es[i]) && Clean(es[..i])
  {
    assert es[..i + 1][..i] == es[..i];
  }

  /** The stripped `dd` text ("" when there is none). */
  function DdText(e: Entry): string {
    if e.dd.Some? then Strip(e.dd.value) else ""
  }

  /** A server entry whose text is non-empty and is not the "Not online" placeholder. */
  predicate HasServer(e: Entry) {
    IsServerEntry(e) && e.dd.Some? && DdText(e) != "" && !Contains(DdText(e), NotOnline)
  }

  /** The server an entry names, if it names one. */
  function ServerText(e: Entry): Option<string> {
    if HasServer(e) then Some(DdText(e)) else None
  }

  /** The last-seen text, possibly empty, of a "Last Seen" entry that has a `dd`. */
  function SeenText(e: Entry): Option<string> {
    if IsLastSeenEntry(e) && e.dd.Some? then Some(DdText(e)) else None
  }

  /** What `f` gives for the last entry it gives something for: a running variable overwritten along the scan. */
  function LastOf(es: seq<Entry>, f: Entry -> Option<string>): Option<string> {
    if es == [] then None
    else if f(es[|es| - 1]).Some? then f(es[|es| - 1])
    else LastOf(es[..|es| - 1], f)
  }

  /** A running variable after entry `e`: overwritten when `f` gives something for `e`. */
  function Overwrite(f: Entry -> Option<string>, e: Entry, current: Option<string>): Option<string> {
    if f(e).Some? then f(e) else current
  }

  /** The text of the last server entry that names a server. */
  function LastServer(es: seq<Entry>): Option<string> {
    LastOf(es, ServerText)
  }

  /** The text of the last "Last Seen" entry that has a `dd`. */
  function LastSeen(es: seq<Entry>): Option<string> {
    LastOf(es, SeenText)
  }

  /** Python truthiness of `str | None`. */
  predicate Truthy(o: Option<string>) {
    o.Some? && o.value != ""
  }

  /** The choice of bot.py:194-200: a server wins, else a non-empty last-seen text, else offline. */
  function Classify(server: Option<string>, lastSeen: Option<string>): (st: Status)
    ensures st.Online? <==> Truthy(server)
    ensures st.Online? ==> st.server == server.value
    ensures st.Seen? <==> !Truthy(server) && Truthy(lastSeen)
    ensures st.Seen? ==> st.time == lastSeen.value
  {
    if Truthy(server) then Online(server.value)
    else if Truthy(lastSeen) then Seen(lastSeen.value)
    else Offline
  }

  /** `t("online", server=…)`, `t("last_seen", time=…)` or `t("offline")` in language `lang`. */
  function Render(lang: string, st: Status): string {
    match st
    case Online(server) => Format(Lookup(lang, "online"), "server", server)
    case Seen(time) => Format(Lookup(lang, "last_seen"), "time", time)
    case Offline => Lookup(lang, "offline")
  }

  /** What `get_status_via_selenium` returns for the fetched page, in the file's language. */
  function StatusOf(langFile: Option<string>, page: Option<seq<Entry>>): string {
    if page.None? || AnyBroken(page.value) then ErrorText
    else Render(GetLanguage(langFile), Classify(LastServer(page.value), LastSeen(page.value)))
  }

  /** The English and German prefix of the last-seen rendering. */
  function SeenPrefix(lang: string): string {
    if lang == "de" then "Offline (Zuletzt gesehen: " else "Offline (Last seen: "
  }

  /** The renderings written out: identical in both languages except the last-seen one. */
  function Shown(lang: string, st: Status): string {
    match st
    case Online(server) => "Online (" + server + ")"
    case Seen(time) => SeenPrefix(lang) + time + ")"
    case Offline => "Offline"
  }

  /** Rendering through the message tables gives exactly the written-out strings, in every language. */
  lemma RenderText(lang: string, st: Status)
    ensures Render(lang, st) == Shown(lang, st)
  {
    match st
    case Online(server) =>
      OnlineTemplate(lang);
      FormatSplice("Online (", ")", "server", server);
    case Seen(time) =>
      SeenTemplate(lang);
      SeenPrefixPlain(lang);
      FormatSplice(SeenPrefix(lang), ")", "time", time);
    case Offline =>
      OfflineTemplate(lang);
  }

  lemma SeenPrefixPlain(lang: string)
    ensures NoBraces(SeenPrefix(lang))
  {
  }

  lemma OnlineTemplate(lang: string)
    ensures Lookup(lang, "online") == "Online (" + Placeholder("server") + ")"
  {
    TableIs(lang);
    EnglishTemplates();
    GermanTemplates();
  }

  lemma SeenTemplate(lang: string)
    ensures Lookup(lang, "last_seen") == SeenPrefix(lang) + Placeholder("time") + ")"
  {
    TableIs(lang);
    EnglishTemplates();
    GermanTemplates();
  }

  lemma OfflineTemplate(lang: string)
    ensures Lookup(lang, "offline") == "Offline"
  {
    TableIs(lang);
    EnglishTemplates();
    GermanTemplates();
  }

  lemma ShownInjective(lang: string, a: Status, b: Status)
    requires Shown(lang, a) == Shown(lang, b)
    ensures a == b
  {
    var r := Shown(lang, a);
    assert a.Online? <==> r[1] == 'n';
    assert b.Online? <==> r[1] == 'n';
    assert a.Offline? <==> |r| == 7;
    assert b.Offline? <==> |r| == 7;
    if a.Online? {
      assert a.server == r[8..|r| - 1] == b.server;
    } else if a.Seen? {
      var n := |SeenPrefix(lang)|;
      assert a.time == r[n..|r| - 1] == b.time;
    }
  }

  /** Within one language, the rendered string determines the status (string equality is status equality). */
  lemma RenderInjective(lang: string, a: Status, b: Status)
    requires Render(lang, a) == Render(lang, b)
    ensures a == b
  {
    RenderText(lang, a);
    RenderText(lang, b);
    ShownInjective(lang, a, b);
  }

  /** A rendered status is never the error marker nor either "unknown" baseline. */
  lemma RenderIsConclusive(lang: string, st: Status)
    ensures Render(lang, st) != ErrorText
    ensures Render(lang, st) != "Unknown" && Render(lang, st) != "Unbekannt"
  {
    RenderText(lang, st);
    assert Shown(lang, st)[0] == 'O';
  }

  /** The rendering depends on the language for last-seen statuses only. */
  lemma RenderLanguage(st: Status)
    ensures st.Seen? <==> Render("en", st) != Render("de", st)
  {
    RenderText("en", st);
    RenderText("de", st);
    ShownLanguage(st);
  }

  lemma ShownLanguage(st: Status)
    ensures st.Seen? <==> Shown("en", st) != Shown("de", st)
  {
    if st.Seen? {
      var en, de := Shown("en", st), Shown("de", st);
      assert en[9] == 'L';
      assert de[9] == 'Z';
    }
  }

  /** One more entry: `LastOf` takes what `f` gives for it, or keeps its previous value. */
  lemma LastOfStep(es: seq<Entry>, i: int, f: Entry -> Option<string>)
    requires 0 <= i < |es|
    ensures LastOf(es[..i + 1], f) == Overwrite(f, es[i], LastOf(es[..i], f))
  {
    assert es[..i + 1][..i] == es[..i];
  }

  /** The last entry `f` gives something for decides `LastOf`, whatever precedes it. */
  lemma {:induction false} LastOfIsLast(es: seq<Entry>, f: Entry -> Option<string>, k: int)
    requires 0 <= k < |es| && f(es[k]).Some?
    requires forall j :: k < j < |es| ==> f(es[j]).None?
    ensures LastOf(es, f) == f(es[k])
    decreases |es|
  {
    if k < |es| - 1 {
      var front := es[..|es| - 1];
      assert front[k] == es[k];
      forall j | k < j < |front| ensures f(front[j]).None? {
        assert front[j] == es[j];
      }
      LastOfIsLast(front, f, k);
    }
  }

  /** `LastOf` gives nothing exactly when `f` gives nothing for every entry. */
  lemma {:induction false} LastOfNone(es: seq<Entry>, f: Entry -> Option<string>)
    ensures LastOf(es, f).None? <==> forall j :: 0 <= j < |es| ==> f(es[j]).None?
    decreases |es|
  {
    if es != [] {
      var front := es[..|es| - 1];
      LastOfNone(front, f);
      assert forall j :: 0 <= j < |front| ==> front[j] == es[j];
    }
  }

  /** Whatever `LastOf` yields, `f` yielded it for some entry. */
  lemma {:induction false} LastOfFrom(es: seq<Entry>, f: Entry -> Option<string>)
    ensures LastOf(es, f).Some? ==> exists j :: 0 <= j < |es| && f(es[j]) == LastOf(es, f)
    decreases |es|
  {
    if es != [] && f(es[|es| - 1]).None? {
      var front := es[..|es| - 1];
      LastOfFrom(front, f);
      if LastOf(front, f).Some? {
        var j :| 0 <= j < |front| && f(front[j]) == LastOf(front, f);
        assert front[j] == es[j];
      }
    }
  }

  /** A server found by the scan has a non-empty text without the placeholder. */
  lemma LastServerIsServer(es: seq<Entry>)
    ensures LastServer(es).Some? ==> LastServer(es).value != "" && !Contains(LastServer(es).value, NotOnline)
  {
    LastOfFrom(es, ServerText);
  }

  /**
   * Server wins, last match counts: when no matched label lacks its `dd`, the
   * last entry naming a server gives the "online" rendering of its text,
   * whatever the "Last Seen" entries say.
   */
  lemma ServerWins(langFile: Option<string>, es: seq<Entry>, k: int)
    requires !AnyBroken(es)
    requires 0 <= k < |es| && HasServer(es[k])
    requires forall j :: k < j < |es| ==> !HasServer(es[j])
    ensures StatusOf(langFile, Some(es)) == "Online (" + DdText(es[k]) + ")"
  {
    forall j | k < j < |es| ensures ServerText(es[j]).None? { }
    LastOfIsLast(es, ServerText, k);
    RenderText(GetLanguage(langFile), Online(DdText(es[k])));
  }

  /**
   * Last seen, otherwise offline: with no entry naming a server, the last
   * "Last Seen" entry gives the last-seen rendering of its text when that is
   * non-empty, and plain "Offline" when it is empty.
   */
  lemma LastSeenOtherwise(langFile: Option<string>, es: seq<Entry>, k: int)
    requires !AnyBroken(es)
    requires forall j :: 0 <= j < |es| ==> !HasServer(es[j])
    requires 0 <= k < |es| && IsLastSeenEntry(es[k])
    requires forall j :: k < j < |es| ==> !IsLastSeenEntry(es[j])
    ensures DdText(es[k]) != "" ==>
      StatusOf(langFile, Some(es)) == SeenPrefix(GetLanguage(langFile)) + DdText(es[k]) + ")"
    ensures DdText(es[k]) == "" ==> StatusOf(langFile, Some(es)) == "Offline"
  {
    assert !Broken(es[k]);
    forall j | 0 <= j < |es| ensures ServerText(es[j]).None? { }
    LastOfNone(es, ServerText);
    forall j | k < j < |es| ensures SeenText(es[j]).None? { }
    LastOfIsLast(es, SeenText, k);
    RenderText(GetLanguage(langFile), Classify(LastServer(es), LastSeen(es)));
  }

  /** With no entry naming a server and no "Last Seen" entry, the page reads as offline. */
  lemma OfflineOtherwise(langFile: Option<string>, es: seq<Entry>)
    requires !AnyBroken(es)
    requires forall j :: 0 <= j < |es| ==> !HasServer(es[j]) && !IsLastSeenEntry(es[j])
    ensures StatusOf(langFile, Some(es)) == "Offline"
  {
    forall j | 0 <= j < |es| ensures ServerText(es[j]).None? && SeenText(es[j]).None? { }
    LastOfNone(es, ServerText);
    LastOfNone(es, SeenText);
    RenderText(GetLanguage(langFile), Offline);
  }

  /** A page without any "Current Server" or "Last Seen" label reads as offline, not as an error. */
  lemma NoLabelsIsOffline(langFile: Option<string>, es: seq<Entry>)
    requires forall j :: 0 <= j < |es| ==> !IsServerEntry(es[j]) && !IsLastSeenEntry(es[j])
    ensures StatusOf(langFile, Some(es)) == "Offline"
  {
    OfflineOtherwise(langFile, es);
  }

  /** Failures give "Error": the result is exactly "Error" iff the driver failed or a matched label has no `dd`. */
  lemma ErrorIff(langFile: Option<string>, page: Option<seq<Entry>>)
    ensures StatusOf(langFile, page) == ErrorText <==> page.None? || AnyBroken(page.value)
  {
    if page.Some? && !AnyBroken(page.value) {
      RenderIsConclusive(GetLanguage(langFile), Classify(LastServer(page.value), LastSeen(page.value)));
    }
  }

  /** What the `dt`/`dd` loop ends with: an exception from a missing `dd`, or the two running variables. */
  datatype Scan = MissingDd | Fields(server: Option<string>, lastSeen: Option<string>)

  /**
   * One pass of the loop body of bot.py:178-192 for entry `e`: `broken`
   * when a matched label has no `dd` (the lookup raises); otherwise the
   * running server and last-seen values after this entry.
   */
  method ScanEntry(e: Entry, serverName: Option<string>, lastSeenTime: Option<string>)
    returns (broken: bool, serverNext: Option<string>, lastSeenNext: Option<string>)
    ensures broken <==> Broken(e)
    ensures !broken ==> serverNext == Overwrite(ServerText, e, serverName)
    ensures !broken ==> lastSeenNext == Overwrite(SeenText, e, lastSeenTime)
  {
    serverNext, lastSeenNext := serverName, lastSeenTime;
    var labelText := Strip(e.dt);
    if Contains(labelText, ServerLabel) {
      if e.dd.None? {
        return true, serverNext, lastSeenNext;
      }
      var text := Strip(e.dd.value);
      if text != "" && !Contains(text, NotOnline) {
        serverNext := Some(text);
      }
    }
    if Contains(labelText, LastSeenLabel) {
      if e.dd.None? {
        return true, serverNext, lastSeenNext;
      }
      lastSeenNext := Some(Strip(e.dd.value));
    }
    broken := false;
  }

  /** The loop of bot.py:174-192 over the `dt` elements, in page order. */
  method ScanFields(es: seq<Entry>) returns (r: Scan)
    ensures r.MissingDd? <==> AnyBroken(es)
    ensures r.Fields? ==> r.server == LastServer(es) && r.lastSeen == LastSeen(es)
  {
    var serverName: Option<string> := None;
    var lastSeenTime: Option<string> := None;
    for i := 0 to |es|
      invariant serverName == LastServer(es[..i])
      invariant lastSeenTime == LastSeen(es[..i])
      invariant Clean(es[..i])
    {
      var broken;
      broken, serverName, lastSeenTime := ScanEntry(es[i], serverName, lastSeenTime);
      if broken {
        assert Broken(es[i]);
        return MissingDd;
      }
      CleanStep(es, i);
      LastOfStep(es, i, ServerText);
      LastOfStep(es, i, SeenText);
    }
    assert es[..|es|] == es;
    CleanIff(es);
    r := Fields(serverName, lastSeenTime);
  }

  /**
   * `get_status_via_selenium` once the page is loaded: "Error" when the
   * driver failed or the scan raised, otherwise the rendered choice.
   */
  method GetStatus(langFile: Option<string>, page: Option<seq<Entry>>) returns (status: string)
    ensures status == StatusOf(langFile, page)
  {
    if page.None? {
      return ErrorText;
    }
    var scan := ScanFields(page.value);
    if scan.MissingDd? {
      return ErrorText;
    }
    status := Render(GetLanguage(langFile), Classify(scan.server, scan.lastSeen));
  }
}
