/** The page controller: the per-session state the application keeps between
    reruns, one method per user action, and what the execution page shows.

    Every interaction reruns the script from the top: it first fills in any
    missing session field (`Initialize`), then handles the one widget the user
    acted on. A rerun is therefore `Initialize` followed by at most one of
    `Start`, `Analyze`, `OpenTab` or `Back`; `Render` is what that rerun displays. */
module App {
  import opened Wrappers
  import opened Text
  import opened Utils

  datatype Page = Landing | Execution

  /** The three load-on-demand tab buttons. */
  datatype Tab = SummaryTab | AlertsTab | ImplicationsTab {
    function Key(): (k: string)
      ensures k in SectionKeys
    {
      match this
      case SummaryTab => "analysis_summary"
      case AlertsTab => CriticalAlerts
      case ImplicationsTab => "long_term_implications"
    }
  }

  /** Whether a rerun ran to its end, or an exception escaped and ended it. */
  datatype RunOutcome = Completed | Aborted(message: string)

  const RiskScoring: string := "risk_scoring"

  /** The order in which fetched sections are displayed. */
  const DisplayOrder: seq<string> := ["analysis_summary", CriticalAlerts, "long_term_implications"]

  const SectionKeys: set<string> := {"analysis_summary", CriticalAlerts, "long_term_implications"}

  /** One displayed section: the key it comes from, its heading and its text. */
  datatype Entry = Entry(key: string, heading: string, text: string)

  /** What a rerun displays; the execution page's header, tabs, sections and
      export button appear only once there is a risk header. */
  datatype Screen =
    | LandingScreen
    | ExecutionScreen(header: Option<string>, entries: seq<Entry>, download: Option<Report>)

  /** The heading of a section: `key.replace("_", " ").title()`. */
  function Label(key: string): (r: string)
    ensures |r| == |key|
    ensures forall i {:trigger r[i]} :: 0 <= i < |key| ==>
              r[i] == if key[i] == '_' then ' ' else TitleChar(key[i], AfterLetter(key, i))
  {
    ReplaceChar(key, '_', ' ');
    Title(Replace(key, "_", " "))
  }

  /** A word of the section keys: non-empty, lower-case ASCII letters only. */
  predicate LowerWord(w: string) {
    w != [] && forall i :: 0 <= i < |w| ==> 'a' <= w[i] <= 'z'
  }

  /** The word with its first letter upper-cased. */
  function Capitalize(w: string): string {
    if w == [] then [] else [ToUpper(w[0])] + w[1..]
  }

  /** A single lower-case word is shown capitalised. */
  lemma LabelWord(w: string)
    requires LowerWord(w)
    ensures Label(w) == Capitalize(w)
  {
    var r := Label(w);
    forall i | 0 <= i < |w| ensures r[i] == Capitalize(w)[i] {
      if i > 0 { assert IsAsciiLetter(w[i - 1]); }
    }
  }

  /** Headings are computed position by position from the character and its
      predecessor, so a heading splits wherever no letter meets a letter. */
  lemma LabelAppend(u: string, t: string)
    requires u == [] || t == [] || !IsAsciiLetter(u[|u| - 1]) || !IsAsciiLetter(t[0])
    ensures Label(u + t) == Label(u) + Label(t)
  {
    var s := u + t;
    forall i | 0 <= i < |s| ensures Label(s)[i] == (Label(u) + Label(t))[i] {
      if i < |u| {
        assert s[i] == u[i];
        if i > 0 { assert s[i - 1] == u[i - 1]; }
      } else {
        var j := i - |u|;
        assert s[i] == t[j];
        if j > 0 { assert s[i - 1] == t[j - 1]; }
      }
    }
  }

  /** An underscore becomes a space and starts a new word: the heading of
      `u + "_" + v` is the headings of `u` and `v` around a space. */
  lemma LabelSeam(u: string, v: string)
    ensures Label(u + "_" + v) == Label(u) + " " + Label(v)
  {
    var w := "_" + v;
    forall i | 0 <= i < |w| ensures Label(w)[i] == (" " + Label(v))[i] {
      if i == 0 {
        assert w[0] == '_';
      } else {
        assert w[i] == v[i - 1];
        if i > 1 { assert w[i - 1] == v[i - 2]; } else { assert w[0] == '_'; }
      }
    }
    LabelAppend(u, w);
    assert u + "_" + v == u + w;
  }

  /** A key made of lower-case words joined by underscores is shown as the
      capitalised words joined by spaces. */
  lemma {:induction false} LabelJoin(words: seq<string>, heads: seq<string>)
    requires words != [] && |heads| == |words|
    requires forall i :: 0 <= i < |words| ==> LowerWord(words[i]) && heads[i] == Capitalize(words[i])
    ensures Label(Join(words, "_")) == Join(heads, " ")
  {
    LabelWord(words[0]);
    if |words| > 1 {
      LabelJoin(words[1..], heads[1..]);
      JoinStep(words, "_");
      LabelSeam(words[0], Join(words[1..], "_"));
      JoinStep(heads, " ");
    }
  }

  // The headings of the three sections on the execution page. For each key,
  // three small lemmas settle the facts about its literal words, which the
  // verifier finds costly to establish in one go.

  lemma SummaryWords()
    ensures LowerWord("analysis") && LowerWord("summary")
  {
  }

  lemma SummaryCapitals()
    ensures Capitalize("analysis") == "Analysis" && Capitalize("summary") == "Summary"
  {
  }

  lemma SummarySpelling()
    ensures "analysis" + "_" + "summary" == "analysis_summary"
    ensures "Analysis" + " " + "Summary" == "Analysis Summary"
  {
  }

  /** The section stored under `analysis_summary` is headed "Analysis Summary". */
  lemma SummaryHeading(key: string)
    ensures key == "analysis_summary" ==> Label(key) == "Analysis Summary"
  {
    SummaryWords();
    SummaryCapitals();
    SummarySpelling();
    JoinTwo("analysis", "summary", "_");
    JoinTwo("Analysis", "Summary", " ");
    LabelJoin(["analysis", "summary"], ["Analysis", "Summary"]);
  }

  lemma AlertsWords()
    ensures LowerWord("critical") && LowerWord("alerts")
  {
  }

  lemma AlertsCapitals()
    ensures Capitalize("critical") == "Critical" && Capitalize("alerts") == "Alerts"
  {
  }

  lemma AlertsSpelling()
    ensures "critical" + "_" + "alerts" == CriticalAlerts
    ensures "Critical" + " " + "Alerts" == "Critical Alerts"
  {
  }

  /** The section stored under `critical_alerts` is headed "Critical Alerts". */
  lemma AlertsHeading(key: string)
    ensures key == CriticalAlerts ==> Label(key) == "Critical Alerts"
  {
    AlertsWords();
    AlertsCapitals();
    AlertsSpelling();
    JoinTwo("critical", "alerts", "_");
    JoinTwo("Critical", "Alerts", " ");
    LabelJoin(["critical", "alerts"], ["Critical", "Alerts"]);
  }

  lemma ImplicationsWords()
    ensures LowerWord("long") && LowerWord("term") && LowerWord("implications")
  {
  }

  lemma ImplicationsCapitals()
    ensures Capitalize("long") == "Long" && Capitalize("term") == "Term" && Capitalize("implications") == "Implications"
  {
  }

  lemma ImplicationsSpelling()
    ensures "long" + "_" + "term" + "_" + "implications" == "long_term_implications"
    ensures "Long" + " " + "Term" + " " + "Implications" == "Long Term Implications"
  {
    assert "long" + "_" + "term" == "long_term";
    assert "long_term" + "_" + "implications" == "long_term_implications";
    assert "Long" + " " + "Term" == "Long Term";
    assert "Long Term" + " " + "Implications" == "Long Term Implications";
  }

  /** The section stored under `long_term_implications` is headed "Long Term Implications". */
  lemma ImplicationsHeading(key: string)
    ensures key == "long_term_implications" ==> Label(key) == "Long Term Implications"
  {
    ImplicationsWords();
    ImplicationsCapitals();
    ImplicationsSpelling();
    JoinThree("long", "term", "implications", "_");
    JoinThree("Long", "Term", "Implications", " ");
    LabelJoin(["long", "term", "implications"], ["Long", "Term", "Implications"]);
  }

  /** The fetched sections among `keys`, in the order of `keys`, each with its
      heading and stored text. */
  function DisplayEntries(keys: seq<string>, results: map<string, string>): (r: seq<Entry>)
    ensures |r| <= |keys|
    ensures forall i :: 0 <= i < |r| ==>
              && r[i].key in keys && r[i].key in results
              && r[i].heading == Label(r[i].key) && r[i].text == results[r[i].key]
    ensures forall k :: k in keys && k in results ==> exists i :: 0 <= i < |r| && r[i].key == k
  {
    if keys == [] then []
    else
      var init := keys[..|keys| - 1];
      var last := keys[|keys| - 1];
      var before := DisplayEntries(init, results);
      var r := before + if last in results then [Entry(last, Label(last), results[last])] else [];
      DisplayEntriesCover(init, last, results, before, r);
      assert keys == init + [last];
      r
  }

  lemma DisplayEntriesCover(init: seq<string>, last: string, results: map<string, string>, before: seq<Entry>, r: seq<Entry>)
    requires forall k :: k in init && k in results ==> exists i :: 0 <= i < |before| && before[i].key == k
    requires r == before + if last in results then [Entry(last, Label(last), results[last])] else []
    ensures forall k :: k in init + [last] && k in results ==> exists i :: 0 <= i < |r| && r[i].key == k
  {
    forall k | k in init + [last] && k in results ensures exists i :: 0 <= i < |r| && r[i].key == k {
      if k in init {
        var i :| 0 <= i < |before| && before[i].key == k;
        assert r[i].key == k;
      } else {
        assert r[|r| - 1].key == k;
      }
    }
  }

  /** The sections are displayed in the order of `keys`: each entry comes from a
      position of `keys`, and the positions increase along the display. */
  lemma {:induction false} DisplayEntriesInOrder(keys: seq<string>, results: map<string, string>)
    returns (pos: seq<int>)
    ensures var r := DisplayEntries(keys, results);
            && |pos| == |r|
            && (forall i :: 0 <= i < |r| ==> 0 <= pos[i] < |keys| && keys[pos[i]] == r[i].key)
            && (forall i, j :: 0 <= i < j < |r| ==> pos[i] < pos[j])
  {
    if keys == [] {
      pos := [];
    } else {
      var init := keys[..|keys| - 1];
      var last := keys[|keys| - 1];
      var extra := if last in results then [Entry(last, Label(last), results[last])] else [];
      var before := DisplayEntries(init, results);
      var earlier := DisplayEntriesInOrder(init, results);
      pos := OrderExtend(init, last, before, earlier, extra);
      assert keys == init + [last];
    }
  }

  /** Appending at most one entry for the next key keeps the positions increasing. */
  lemma OrderExtend(init: seq<string>, last: string, before: seq<Entry>, earlier: seq<int>, extra: seq<Entry>)
    returns (pos: seq<int>)
    requires |earlier| == |before|
    requires forall i :: 0 <= i < |before| ==> 0 <= earlier[i] < |init| && init[earlier[i]] == before[i].key
    requires forall i, j :: 0 <= i < j < |before| ==> earlier[i] < earlier[j]
    requires |extra| <= 1 && (extra != [] ==> extra[0].key == last)
    ensures |pos| == |before + extra|
    ensures forall i :: 0 <= i < |before + extra| ==>
              0 <= pos[i] < |init + [last]| && (init + [last])[pos[i]] == (before + extra)[i].key
    ensures forall i, j :: 0 <= i < j < |before + extra| ==> pos[i] < pos[j]
  {
    pos := earlier + if extra == [] then [] else [|init|];
    forall i | 0 <= i < |before + extra|
      ensures 0 <= pos[i] < |init + [last]| && (init + [last])[pos[i]] == (before + extra)[i].key
    {
      if i < |before| {
        assert pos[i] == earlier[i] && (before + extra)[i] == before[i];
      }
    }
  }

  /** `st.session_state`: a field is `None` until the script first sets it. */
  class SessionState {
    var page: Option<Page>
    var results: Option<map<string, string>>
    var riskHeader: Option<string>
    var currentText: Option<string>

    /** A new session starts with nothing stored. */
    constructor ()
      ensures page == None && results == None && riskHeader == None && currentText == None
      ensures Invariant()
    {
      page, results, riskHeader, currentText := None, None, None, None;
    }

    /** What holds of the stored fields in every session, before and after
        initialisation: a risk header is only ever stored together with the
        document text it was computed from, fetched sections only after a risk
        header, and only under the three section keys. */
    ghost predicate Invariant()
      reads this
    {
      && (riskHeader.Some? && riskHeader.value != "" ==> currentText.Some?)
      && (currentText.Some? ==> currentText.value != "")
      && (results.Some? && results.value != map[] ==> riskHeader.Some? && riskHeader.value != "")
      && (results.Some? ==> results.value.Keys <= SectionKeys)
    }

    /** The state between reruns once the script has run at least once. */
    ghost predicate Valid()
      reads this
    {
      page.Some? && results.Some? && riskHeader.Some? && Invariant()
    }

    /** Session-state initialisation: each of `page`, `results` and `risk_header`
        gets its default only if it is absent; present values are kept. */
    method Initialize()
      requires Invariant()
      modifies this
      ensures Valid()
      ensures page == if old(page).Some? then old(page) else Some(Landing)
      ensures results == if old(results).Some? then old(results) else Some(map[])
      ensures riskHeader == if old(riskHeader).Some? then old(riskHeader) else Some("")
      ensures currentText == old(currentText)
    {
      if page.None? { page := Some(Landing); }
      if results.None? { results := Some(map[]); }
      if riskHeader.None? { riskHeader := Some(""); }
    }

    /** The start button, shown on the landing page only, opens the execution page. */
    method Start()
      requires Valid() && page == Some(Landing)
      modifies this
      ensures Valid()
      ensures page == Some(Execution)
      ensures results == old(results) && riskHeader == old(riskHeader) && currentText == old(currentText)
    {
      page := Some(Execution);
    }

    /** The analyze button with the text in the input box (empty when nothing was
        pasted, or when the upload option is chosen). With text, it fetches the
        risk score first, then clears the fetched sections and remembers the text
        for the tabs; a client that cannot be built aborts the rerun before any
        field is written. */
    method Analyze(input: string, conn: Connection) returns (outcome: RunOutcome)
      requires Valid() && page == Some(Execution)
      modifies this
      ensures Valid()
      ensures page == old(page)
      ensures var fetched := FetchAnalysisColumn(conn, input, RiskScoring);
              if input != "" && fetched.Success? then
                && outcome == Completed
                && riskHeader == Some(fetched.value)
                && results == Some(map[])
                && currentText == Some(input)
              else
                && outcome == (if input == "" then Completed else Aborted(fetched.error))
                && results == old(results) && riskHeader == old(riskHeader)
                && currentText == old(currentText)
    {
      outcome := Completed;
      if input != "" {
        var fetched := FetchAnalysisColumn(conn, input, RiskScoring);
        if fetched.Failure? {
          outcome := Aborted(fetched.error);
          return;
        }
        riskHeader := Some(fetched.value);
        results := Some(map[]);
        currentText := Some(input);
      }
    }

    /** A tab button, shown only once there is a risk header, fetches its one
        section for the remembered text and stores it under its key; no other key,
        nor the header, is touched. */
    method OpenTab(tab: Tab, conn: Connection) returns (outcome: RunOutcome)
      requires Valid() && page == Some(Execution) && riskHeader.value != ""
      modifies this
      ensures Valid()
      ensures page == old(page) && riskHeader == old(riskHeader) && currentText == old(currentText)
      ensures var fetched := FetchAnalysisColumn(conn, old(currentText).value, tab.Key());
              if fetched.Success? then
                outcome == Completed && results == Some(old(results).value[tab.Key() := fetched.value])
              else
                outcome == Aborted(fetched.error) && results == old(results)
    {
      var fetched := FetchAnalysisColumn(conn, currentText.value, tab.Key());
      if fetched.Failure? {
        outcome := Aborted(fetched.error);
        return;
      }
      results := Some(results.value[tab.Key() := fetched.value]);
      outcome := Completed;
    }

    /** The back button returns to the landing page and keeps everything fetched. */
    method Back()
      requires Valid() && page == Some(Execution)
      modifies this
      ensures Valid()
      ensures page == Some(Landing)
      ensures results == old(results) && riskHeader == old(riskHeader) && currentText == old(currentText)
    {
      page := Some(Landing);
    }

    /** What the rerun shows. On the execution page with a risk header: the header,
        the fetched sections in the fixed display order, and the export of the
        report built from the fetched sections when there is at least one. */
    method Render() returns (screen: Screen)
      requires Valid()
      ensures page == Some(Landing) ==> screen == LandingScreen
      ensures page == Some(Execution) && riskHeader.value == "" ==> screen == ExecutionScreen(None, [], None)
      ensures page == Some(Execution) && riskHeader.value != "" ==>
                && screen.ExecutionScreen?
                && screen.header == Some(riskHeader.value)
                && screen.entries == DisplayEntries(DisplayOrder, results.value)
                && screen.download == (if results.value != map[] then Some(ReportContent(results.value)) else None)
      ensures screen.ExecutionScreen? && screen.download.Some? ==> results.value != map[]
      ensures page == Some(Execution) && results.value != map[] ==> screen.ExecutionScreen? && screen.download.Some?
    {
      if page == Some(Landing) {
        return LandingScreen;
      }
      if riskHeader.value == "" {
        assert results.value == map[];
        return ExecutionScreen(None, [], None);
      }
      var stored := results.value;
      var entries := DisplayArea(DisplayOrder, stored);
      var download: Option<Report> := None;
      if stored != map[] {
        var report := GeneratePdf(stored);
        download := Some(report);
      }
      screen := ExecutionScreen(Some(riskHeader.value), entries, download);
    }
  }

  /** The display loop: each key, in the given order (the display order), that
      has a fetched text. */
  method DisplayArea(keys: seq<string>, stored: map<string, string>) returns (entries: seq<Entry>)
    ensures entries == DisplayEntries(keys, stored)
  {
    entries := [];
    for k := 0 to |keys|
      invariant entries == DisplayEntries(keys[..k], stored)
    {
      var key := keys[k];
      assert keys[..k + 1][..k] == keys[..k];
      if key in stored {
        entries := entries + [Entry(key, Label(key), stored[key])];
      }
    }
    assert keys[..|keys|] == keys;
  }

  /** A session walked through its main path: the remote answers are arbitrary,
      and the contracts alone fix what the state is after each rerun. */
  method Walkthrough(doc: string, conn: Connection)
    requires doc != "" && conn.Connected?
  {
    var s := new SessionState();
    s.Initialize();
    assert s.page == Some(Landing) && s.results == Some(map[]) && s.riskHeader == Some("");
    s.Start();
    s.Initialize();
    var outcome := s.Analyze(doc, conn);
    assert outcome == Completed && s.currentText == Some(doc) && s.results == Some(map[]);
    if s.riskHeader.value != "" {
      s.Initialize();
      outcome := s.OpenTab(AlertsTab, conn);
      assert s.results.value.Keys == {CriticalAlerts};
      s.Initialize();
      s.Back();
      assert s.page == Some(Landing) && CriticalAlerts in s.results.value;
    }
  }
}
