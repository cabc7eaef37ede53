/**
 * The bot's state and its command handlers: the periodic status check with
 * its change detection over `last_known_status`, `/setID`, `/run`, `/stop`,
 * `/status` and `/lang`. The files `player_id.txt` and `language.txt` are
 * fields holding their content (`None` while a file is missing); chat
 * replies are return values; the notification a check sends is returned
 * as a `Notice`, with the delivery outcome passed in.
 */
module Monitor {
  import opened Wrappers
  import opened Text
  import opened Translations
  import opened Extraction
  import opened Jobs

  /** The value `last_known_status` starts with. */
  const InitialStatus: string := "Unbekannt"
  /** The value `/setID` resets it to. */
  const ResetStatus: string := "Unknown"

  /** A baseline: no real status has been seen since start-up or since the last `/setID`. */
  predicate IsBaseline(s: string) {
    s == InitialStatus || s == ResetStatus
  }

  /** `load_player_id()`: the stripped file content, or `None` when the file is missing. */
  function LoadPlayerId(file: Option<string>): Option<string> {
    match file
    case None => None
    case Some(content) => Some(Strip(content))
  }

  /** The check has an ID to work with (`not current_id` is false). */
  predicate Configured(file: Option<string>) {
    var id := LoadPlayerId(file);
    id.Some? && id.value != ""
  }

  /** An ID is configured exactly when the file exists and holds a non-whitespace character. */
  lemma ConfiguredIff(file: Option<string>)
    ensures Configured(file) <==> file.Some? && exists k :: 0 <= k < |file.value| && !IsSpace(file.value[k])
  {
    if file.Some? {
      StripEmptyIff(file.value);
    }
  }

  /** The loaded ID has no surrounding whitespace. */
  lemma LoadedIdIsStripped(file: Option<string>)
    ensures LoadPlayerId(file).Some? <==> file.Some?
    ensures LoadPlayerId(file).Some? ==> IsStripped(LoadPlayerId(file).value)
  {
    if file.Some? {
      StripSpec(file.value);
    }
  }

  /** What one run of the check acts on: nothing without an ID, else the status string the page gives. */
  function Observe(idFile: Option<string>, langFile: Option<string>, page: Option<seq<Entry>>): Option<string> {
    if Configured(idFile) then Some(StatusOf(langFile, page)) else None
  }

  /** The new value of `last_known_status` and whether a status-change message is due. */
  datatype Decision = Decision(next: string, notify: bool)

  /**
   * Change detection of `check_battlemetrics`: no ID, "Error" or an equal
   * string change nothing; a differing string is stored, and announced
   * unless the previous value was a baseline.
   */
  function Record(last: string, observed: Option<string>): Decision {
    match observed
    case None => Decision(last, false)
    case Some(current) =>
      if current == ErrorText || current == last then Decision(last, false)
      else Decision(current, !IsBaseline(last))
  }

  /** The notification a check sends: none, or its text and whether delivery succeeded. */
  datatype Notice = Silent | Message(text: string, delivered: bool)

  /** `t("status_change", status=…)`. */
  function StatusChangeText(langFile: Option<string>, status: string): string {
    TFormat(langFile, "status_change", "status", status)
  }

  /** The heading of the status-change message in the selected language. */
  function StatusChangeHeading(lang: string): string {
    if lang == "de" then "⚠️ Statusänderung!\nNeuer Status: " else "⚠️ Status Change!\nNew Status: "
  }

  lemma StatusChangeTemplate(lang: string)
    ensures Lookup(lang, "status_change") == StatusChangeHeading(lang) + Placeholder("status") + ""
  {
    TableIs(lang);
    EnglishTemplates();
    GermanTemplates();
  }

  /** The status-change message written out: the language's heading followed by the new status. */
  lemma StatusChangeTextIs(langFile: Option<string>, status: string)
    ensures StatusChangeText(langFile, status) == StatusChangeHeading(GetLanguage(langFile)) + status
  {
    var lang := GetLanguage(langFile);
    StatusChangeTemplate(lang);
    HeadingPlain(lang);
    FormatSplice(StatusChangeHeading(lang), "", "status", status);
    assert StatusChangeHeading(lang) + status + "" == StatusChangeHeading(lang) + status;
  }

  lemma HeadingPlain(lang: string)
    ensures NoBraces(StatusChangeHeading(lang))
  {
  }

  /** A stored status is a rendered status: a check never stores "Error" and never returns to a baseline. */
  lemma RecordStoresConclusive(last: string, idFile: Option<string>, langFile: Option<string>, page: Option<seq<Entry>>)
    ensures var d := Record(last, Observe(idFile, langFile, page));
      d.next != last ==> d.next != ErrorText && !IsBaseline(d.next)
  {
    if Configured(idFile) && page.Some? && !AnyBroken(page.value) {
      RenderIsConclusive(GetLanguage(langFile), Classify(LastServer(page.value), LastSeen(page.value)));
    }
  }

  /** Once a real status is stored, every later change is announced. */
  lemma ChangesAnnouncedAfterBaseline(last: string, idFile: Option<string>, langFile: Option<string>, page: Option<seq<Entry>>)
    requires !IsBaseline(last)
    ensures var d := Record(last, Observe(idFile, langFile, page));
      !IsBaseline(d.next) && (d.notify <==> d.next != last)
  {
    RecordStoresConclusive(last, idFile, langFile, page);
  }

  /** Checking twice with the same page changes nothing the second time. */
  lemma RecordIdempotent(last: string, observed: Option<string>)
    ensures var d := Record(last, observed);
      Record(d.next, observed) == Decision(d.next, false)
  {
  }

  /**
   * `/setID` resets the baseline: the first differing real status after it is
   * stored without a message, the next differing one is announced.
   */
  lemma ResetSuppressesFirstAlertOnly(idFile: Option<string>, langFile: Option<string>, p1: Option<seq<Entry>>, p2: Option<seq<Entry>>)
    requires Configured(idFile)
    requires StatusOf(langFile, p1) != ErrorText && StatusOf(langFile, p2) != ErrorText
    requires StatusOf(langFile, p2) != StatusOf(langFile, p1)
    ensures var d1 := Record(ResetStatus, Observe(idFile, langFile, p1));
      && d1 == Decision(StatusOf(langFile, p1), false)
      && Record(d1.next, Observe(idFile, langFile, p2)) == Decision(StatusOf(langFile, p2), true)
  {
    ErrorIff(langFile, p1);
    RenderIsConclusive(GetLanguage(langFile), Classify(LastServer(p1.value), LastSeen(p1.value)));
  }

  /** A page showing "ServerA" as the current server. */
  const ServerAPage: seq<Entry> := [Entry("Current Server", Some("ServerA"))]
  /** A page whose current server is the "Not online" placeholder and which has no last-seen field. */
  const OfflinePage: seq<Entry> := [Entry("Current Server", Some("Not online"))]

  /** An entry labelled exactly "Current Server" is a server entry and not a last-seen one. */
  lemma ServerLabelled(dd: Option<string>)
    ensures IsServerEntry(Entry(ServerLabel, dd)) && !IsLastSeenEntry(Entry(ServerLabel, dd))
  {
    StripStripped(ServerLabel);
    ContainsSelf(ServerLabel);
    ContainsNeedsFirstChar(ServerLabel, LastSeenLabel);
  }

  lemma ServerAPageIsOnline(langFile: Option<string>)
    ensures StatusOf(langFile, Some(ServerAPage)) == "Online (ServerA)"
  {
    var e := ServerAPage[0];
    ServerLabelled(e.dd);
    StripStripped("ServerA");
    ContainsNeedsRoom("ServerA", NotOnline);
    assert HasServer(e);
    assert DdText(e) == "ServerA";
    assert "Online (" + "ServerA" + ")" == "Online (ServerA)";
    ServerWins(langFile, ServerAPage, 0);
  }

  lemma OfflinePageIsOffline(langFile: Option<string>)
    ensures StatusOf(langFile, Some(OfflinePage)) == "Offline"
  {
    var e := OfflinePage[0];
    ServerLabelled(e.dd);
    StripStripped(NotOnline);
    ContainsSelf(NotOnline);
    assert !HasServer(e);
    OfflineOtherwise(langFile, OfflinePage);
  }

  /**
   * With ID "100" set: online on ServerA (no message, the baseline was just
   * reset), online on ServerA again (unchanged), then offline (announced),
   * then a failed fetch (nothing changes).
   */
  lemma Scenario(langFile: Option<string>)
    ensures var id := Some("100");
      var d1 := Record(ResetStatus, Observe(id, langFile, Some(ServerAPage)));
      var d2 := Record(d1.next, Observe(id, langFile, Some(ServerAPage)));
      var d3 := Record(d2.next, Observe(id, langFile, Some(OfflinePage)));
      var d4 := Record(d3.next, Observe(id, langFile, None));
      && d1 == Decision("Online (ServerA)", false)
      && d2 == Decision("Online (ServerA)", false)
      && d3 == Decision("Offline", true)
      && d4 == Decision("Offline", false)
  {
    StripStripped("100");
    ServerAPageIsOnline(langFile);
    OfflinePageIsOffline(langFile);
  }

  /** The `/lang` argument, lower-cased, when it names a supported language. */
  function ChosenLanguage(arg: string): (r: Option<string>)
    ensures r.Some? ==> r.value in Messages
  {
    var lang := Lower(arg);
    if lang == "de" || lang == "en" then Some(lang) else None
  }

  /** The language `/lang` writes is the one every later lookup uses. */
  lemma ChosenLanguageIsRead(arg: string)
    requires ChosenLanguage(arg).Some?
    ensures GetLanguage(ChosenLanguage(arg)) == ChosenLanguage(arg).value
  {
    StripStripped(ChosenLanguage(arg).value);
  }

  /** `/lang` accepts "de" and "en" in any ASCII letter case. */
  lemma ChosenLanguageCase(arg: string)
    ensures arg == "DE" || arg == "De" || arg == "dE" ==> ChosenLanguage(arg) == Some("de")
    ensures arg == "EN" || arg == "En" || arg == "eN" ==> ChosenLanguage(arg) == Some("en")
  {
  }

  /** The two "Monitoring:" texts of the status report differ in every language. */
  lemma ActiveDiffersFromInactive(langFile: Option<string>)
    ensures T(langFile, "active") != T(langFile, "inactive")
  {
    var a, i := T(langFile, "active"), T(langFile, "inactive");
    assert a[0] == 'A' && i[0] == 'I';
  }

  /** What `/status` reports: the loaded ID, whether monitoring runs, and `last_known_status` as stored. */
  datatype Report = Report(id: Option<string>, running: string, status: string)

  class Bot {
    /** `last_known_status`. */
    var lastKnownStatus: string
    /** Content of `player_id.txt`, `None` while it does not exist. */
    var idFile: Option<string>
    /** Content of `language.txt`, `None` while it does not exist. */
    var langFile: Option<string>
    /** The job queue. */
    var jobs: seq<Job>

    /** Process start: the files as found on disk, an empty job queue, the initial status. */
    constructor (idFile: Option<string>, langFile: Option<string>)
      ensures this.idFile == idFile && this.langFile == langFile
      ensures jobs == [] && lastKnownStatus == InitialStatus
    {
      this.idFile := idFile;
      this.langFile := langFile;
      jobs := [];
      lastKnownStatus := InitialStatus;
    }

    /**
     * `check_battlemetrics`: load the ID, scrape the page, and compare the
     * rendered status with `last_known_status`. The page is what the
     * browser gives for the loaded ID; `sendSucceeds` is the delivery
     * outcome of the message, which does not affect the state.
     */
    method CheckBattlemetrics(page: Option<seq<Entry>>, sendSucceeds: bool) returns (notice: Notice)
      modifies this`lastKnownStatus
      ensures var d := Record(old(lastKnownStatus), Observe(idFile, langFile, page));
        && lastKnownStatus == d.next
        && notice == (if d.notify then Message(StatusChangeText(langFile, d.next), sendSucceeds) else Silent)
      ensures !Configured(idFile) || StatusOf(langFile, page) == ErrorText || StatusOf(langFile, page) == old(lastKnownStatus)
        ==> lastKnownStatus == old(lastKnownStatus) && notice == Silent
      ensures Configured(idFile) && StatusOf(langFile, page) != ErrorText && StatusOf(langFile, page) != old(lastKnownStatus)
        ==> lastKnownStatus == StatusOf(langFile, page) && (notice.Message? <==> !IsBaseline(old(lastKnownStatus)))
    {
      var currentId := LoadPlayerId(idFile);
      if currentId.None? || currentId.value == "" {
        return Silent;
      }
      var currentStatus := GetStatus(langFile, page);
      if currentStatus == ErrorText {
        return Silent;
      }
      notice := Silent;
      if currentStatus != lastKnownStatus {
        if lastKnownStatus != InitialStatus && lastKnownStatus != ResetStatus {
          notice := Message(TFormat(langFile, "status_change", "status", currentStatus), sendSucceeds);
        }
        lastKnownStatus := currentStatus;
      }
    }

    /**
     * `/setID <id>`: save the first argument as the ID and reset the status
     * baseline. Without an argument, or when saving fails, nothing changes
     * and the reply is the error message.
     */
    method SetId(args: seq<string>, saveSucceeds: bool) returns (reply: string)
      modifies this`idFile, this`lastKnownStatus
      ensures |args| > 0 && saveSucceeds ==>
        && idFile == Some(args[0]) && lastKnownStatus == ResetStatus
        && reply == TFormat(langFile, "id_saved", "id", args[0])
      ensures !(|args| > 0 && saveSucceeds) ==>
        && idFile == old(idFile) && lastKnownStatus == old(lastKnownStatus)
        && reply == T(langFile, "error_no_id")
    {
      if |args| == 0 || !saveSucceeds {
        return T(langFile, "error_no_id");
      }
      var newId := args[0];
      idFile := Some(newId);
      lastKnownStatus := ResetStatus;
      reply := TFormat(langFile, "id_saved", "id", newId);
    }

    /** `/run`: schedule the monitoring job unless one is already scheduled. */
    method StartMonitoring() returns (reply: string)
      modifies this`jobs
      ensures Running(old(jobs)) ==> jobs == old(jobs) && reply == T(langFile, "monitoring_already_running")
      ensures !Running(old(jobs)) ==>
        && jobs == old(jobs) + [MonitoringJob]
        && Named(jobs, MonitoringJobName) == [MonitoringJob]
        && reply == T(langFile, "monitoring_started")
      ensures Running(jobs)
    {
      var currentJobs := Named(jobs, MonitoringJobName);
      if currentJobs != [] {
        return T(langFile, "monitoring_already_running");
      }
      StartAddsOne(jobs);
      jobs := jobs + [MonitoringJob];
      reply := T(langFile, "monitoring_started");
    }

    /** `/stop`: remove every monitoring job, or report that none runs. */
    method StopMonitoring() returns (reply: string)
      modifies this`jobs
      ensures !Running(old(jobs)) ==> jobs == old(jobs) && reply == T(langFile, "monitoring_not_running")
      ensures Running(old(jobs)) ==>
        && jobs == Without(old(jobs), MonitoringJobName)
        && reply == T(langFile, "monitoring_stopped")
      ensures !Running(jobs)
    {
      var currentJobs := Named(jobs, MonitoringJobName);
      if currentJobs == [] {
        return T(langFile, "monitoring_not_running");
      }
      var all := jobs;
      var kept: seq<Job> := [];
      for i := 0 to |all|
        invariant kept == Without(all[..i], MonitoringJobName)
      {
        assert all[..i + 1][..i] == all[..i];
        if all[i].name != MonitoringJobName {
          kept := kept + [all[i]];
        }
      }
      assert all[..|all|] == all;
      WithoutRemovesNamed(all, MonitoringJobName);
      jobs := kept;
      reply := T(langFile, "monitoring_stopped");
    }

    /** `/status`: the loaded ID, "active" or "inactive", and the stored status. */
    method Status() returns (report: Report)
      ensures report.id == LoadPlayerId(idFile)
      ensures report.running == T(langFile, "active") <==> Running(jobs)
      ensures report.running == T(langFile, "active") || report.running == T(langFile, "inactive")
      ensures report.status == lastKnownStatus
    {
      ActiveDiffersFromInactive(langFile);
      var pid := LoadPlayerId(idFile);
      var isRunning := if Named(jobs, MonitoringJobName) != [] then T(langFile, "active") else T(langFile, "inactive");
      report := Report(pid, isRunning, lastKnownStatus);
    }

    /**
     * `/lang <code>`: store the lower-cased argument when it is "de" or "en"
     * and confirm in the new language; otherwise reply with the usage or the
     * list of languages.
     */
    method SetLanguageCommand(args: seq<string>) returns (reply: string)
      modifies this`langFile
      ensures |args| == 0 ==> langFile == old(langFile) && reply == "Usage: /lang de OR /lang en"
      ensures |args| > 0 && ChosenLanguage(args[0]).None? ==>
        langFile == old(langFile) && reply == "Available languages: de, en"
      ensures |args| > 0 && ChosenLanguage(args[0]).Some? ==>
        && langFile == ChosenLanguage(args[0])
        && GetLanguage(langFile) == ChosenLanguage(args[0]).value
        && reply == T(langFile, "lang_set")
    {
      if |args| == 0 {
        return "Usage: /lang de OR /lang en";
      }
      var targetLang := ChosenLanguage(args[0]);
      if targetLang.None? {
        return "Available languages: de, en";
      }
      ChosenLanguageIsRead(args[0]);
      langFile := targetLang;
      reply := T(langFile, "lang_set");
    }
  }
}
