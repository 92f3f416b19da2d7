/** The application's two helpers around the remote analysis table: reading one
    column of the analysis row (`fetch_analysis_column`) and choosing what goes
    into the exported report (`generate_pdf`). */
module Utils {
  import opened Wrappers
  import opened Text

  // ---------------------------------------------------------------------------
  // The remote analysis table, as the application sees it

  /** One output column of an analysis row. */
  datatype Column = Column(name: string, value: string)

  datatype Row = Row(columns: seq<Column>)

  /** What adding a row to the analysis table gives back: the row(s) the
      service computed, or an exception with its message. */
  datatype AddRowsReply = Raised(message: string) | Response(rows: seq<Row>)

  /** The client the application builds from its configured credentials. Building
      it can itself raise (a missing secret, say); once built, adding a row for a
      document is a call whose answer the application does not control. */
  datatype Connection =
    | Unavailable(message: string)
    | Connected(addRow: string -> AddRowsReply)

  const CriticalAlerts: string := "critical_alerts"
  const NoDataFound: string := "No data found."
  const ConnectionErrorPrefix: string := "Error connecting to JamAI: "
  const NoRowsError: string := "Error: Could not retrieve analysis."

  /** The warning sign emoji: U+26A0 followed by the emoji variation selector U+FE0F. */
  const Warning: string := ['\U{26A0}', '\U{FE0F}']
  const WarningBullet: string := Warning + " "
  const DashBullet: string := "- "
  const StarBullet: string := "* "

  // ---------------------------------------------------------------------------
  // fetch_analysis_column

  /** Column `i` is the first whose name is `name`. */
  ghost predicate FirstMatch(columns: seq<Column>, name: string, i: int) {
    0 <= i < |columns| && columns[i].name == name
    && forall j :: 0 <= j < i ==> columns[j].name != name
  }

  /** The value of the first column called `name`, if any (the generator lookup). */
  function FirstValue(columns: seq<Column>, name: string): (r: Option<string>)
    ensures r.None? <==> forall i :: 0 <= i < |columns| ==> columns[i].name != name
    ensures r.Some? ==> exists i :: FirstMatch(columns, name, i) && columns[i].value == r.value
  {
    if columns == [] then None
    else if columns[0].name == name then
      assert FirstMatch(columns, name, 0);
      Some(columns[0].value)
    else
      var r := FirstValue(columns[1..], name);
      FirstMatchShift(columns, name, r);
      r
  }

  lemma FirstMatchShift(columns: seq<Column>, name: string, r: Option<string>)
    requires columns != [] && columns[0].name != name
    requires r.Some? ==> exists i :: FirstMatch(columns[1..], name, i) && columns[1..][i].value == r.value
    ensures r.Some? ==> exists i :: FirstMatch(columns, name, i) && columns[i].value == r.value
  {
    if r.Some? {
      var i :| FirstMatch(columns[1..], name, i) && columns[1..][i].value == r.value;
      assert FirstMatch(columns, name, i + 1);
    }
  }

  /** The critical-alerts rewrite: every "- ", then every "* ", anywhere in the
      text (not only at line starts), becomes the warning sign and a space. */
  function AlertRewrite(s: string): (r: string)
    ensures !Contains(r, DashBullet) && !Contains(r, StarBullet)
  {
    ConstantsInert();
    var once := Replace(s, DashBullet, WarningBullet);
    ReplaceRemovesAll(s, DashBullet, WarningBullet);
    var twice := Replace(once, StarBullet, WarningBullet);
    ReplaceRemovesAll(once, StarBullet, WarningBullet);
    ReplaceKeepsAbsent(once, StarBullet, WarningBullet, DashBullet);
    twice
  }

  /** The constant texts involved hold none of the patterns that get replaced,
      and the replacements cannot form one. */
  lemma ConstantsInert()
    ensures Inert(WarningBullet, DashBullet) && Inert(WarningBullet, StarBullet)
    ensures Inert(WarningReplacement, DashBullet) && Inert(WarningReplacement, StarBullet)
    ensures Inert(WarningReplacement, Warning)
    ensures !Contains(NoDataFound, DashBullet) && !Contains(NoDataFound, StarBullet)
    ensures !Contains(Placeholder, Warning) && !Contains(StarBullet, DashBullet)
  {
    NoAdjacentPair(WarningBullet, DashBullet);
    NoAdjacentPair(WarningBullet, StarBullet);
    NoAdjacentPair(WarningReplacement, DashBullet);
    NoAdjacentPair(WarningReplacement, StarBullet);
    NoAdjacentPair(WarningReplacement, Warning);
    NoAdjacentPair(NoDataFound, DashBullet);
    NoAdjacentPair(NoDataFound, StarBullet);
    NoAdjacentPair(Placeholder, Warning);
    NoAdjacentPair(StarBullet, DashBullet);
  }

  /** The text returned for a found (or defaulted) column value. */
  function Formatted(value: string, columnName: string): string {
    if columnName == CriticalAlerts then AlertRewrite(value) else value
  }

  /** `fetch_analysis_column(tnc_text, column_name)`. `Failure` is an exception
      that escapes to the caller: only building the client can raise one, since
      that happens before the guarded block. Every failure of the row call itself
      becomes an error text. */
  function FetchAnalysisColumn(conn: Connection, tncText: string, columnName: string): (r: Result<string, string>)
    ensures conn.Unavailable? ==> r == Failure(conn.message)
    ensures conn.Connected? ==> r.Success?
    ensures conn.Connected? && conn.addRow(tncText).Raised? ==>
              r.value == ConnectionErrorPrefix + conn.addRow(tncText).message
    ensures conn.Connected? && conn.addRow(tncText) == Response([]) ==> r.value == NoRowsError
    ensures conn.Connected? && conn.addRow(tncText).Response? && conn.addRow(tncText).rows != [] ==>
              var columns := conn.addRow(tncText).rows[0].columns;
              && ((forall i :: 0 <= i < |columns| ==> columns[i].name != columnName) ==> r.value == NoDataFound)
              && (forall i :: FirstMatch(columns, columnName, i) ==>
                    r.value == Formatted(columns[i].value, columnName))
  {
    match conn
    case Unavailable(message) => Failure(message)
    case Connected(addRow) =>
      match addRow(tncText)
      case Raised(message) => Success(ConnectionErrorPrefix + message)
      case Response(rows) =>
        if rows == [] then Success(NoRowsError)
        else
          var columns := rows[0].columns;
          FirstMatchUnique(columns, columnName);
          ConstantsInert();
          ReplaceIdentity(NoDataFound, DashBullet, WarningBullet);
          ReplaceIdentity(NoDataFound, StarBullet, WarningBullet);
          Success(Formatted(FirstValue(columns, columnName).GetOr(NoDataFound), columnName))
  }

  /** At most one column is the first of a given name. */
  lemma FirstMatchUnique(columns: seq<Column>, name: string)
    ensures forall i, j :: FirstMatch(columns, name, i) && FirstMatch(columns, name, j) ==> i == j
  {
  }

  /** Apart from the critical alerts, a found value is handed back exactly as the
      service wrote it. */
  lemma OtherColumnsUnchanged(conn: Connection, tncText: string, columnName: string, columns: seq<Column>, i: int)
    requires conn.Connected? && columnName != CriticalAlerts
    requires conn.addRow(tncText).Response? && conn.addRow(tncText).rows != []
    requires conn.addRow(tncText).rows[0].columns == columns
    requires FirstMatch(columns, columnName, i)
    ensures FetchAnalysisColumn(conn, tncText, columnName) == Success(columns[i].value)
  {
  }

  /** The critical alerts keep no list marker, and a text without markers is kept as is. */
  lemma {:induction false} AlertRewriteKeepsPlainText(s: string)
    requires !Contains(s, DashBullet) && !Contains(s, StarBullet)
    ensures AlertRewrite(s) == s
  {
    ReplaceIdentity(s, DashBullet, WarningBullet);
    ReplaceIdentity(s, StarBullet, WarningBullet);
  }

  /** Each rewrite step is Python's `warning.join(text.split(marker))`: every
      occurrence of the marker anywhere is replaced and nothing between them changes. */
  lemma {:induction false} AlertRewriteIsSplitJoin(s: string)
    ensures AlertRewrite(s) ==
              Join(Split(Join(Split(s, DashBullet), WarningBullet), StarBullet), WarningBullet)
  {
    ReplaceIsSplitJoin(s, DashBullet, WarningBullet);
    ReplaceIsSplitJoin(Replace(s, DashBullet, WarningBullet), StarBullet, WarningBullet);
  }

  /** The answer is empty only when the service wrote an empty value for the column:
      every error path yields a visible message. */
  lemma {:induction false} EmptyOnlyFromEmptyValue(conn: Connection, tncText: string, columnName: string)
    requires FetchAnalysisColumn(conn, tncText, columnName) == Success("")
    ensures conn.Connected? && conn.addRow(tncText).Response? && conn.addRow(tncText).rows != []
    ensures exists i :: FirstMatch(conn.addRow(tncText).rows[0].columns, columnName, i)
                        && conn.addRow(tncText).rows[0].columns[i].value == ""
  {
    var columns := conn.addRow(tncText).rows[0].columns;
    var found := FirstValue(columns, columnName);
    if found.Some? && columnName == CriticalAlerts {
      NonEmptyAfterRewrite(found.value);
    }
  }

  lemma {:induction false} NonEmptyAfterRewrite(s: string)
    ensures s != [] ==> AlertRewrite(s) != []
  {
    if s != [] {
      ReplaceHead(s, DashBullet, WarningBullet);
      ReplaceHead(Replace(s, DashBullet, WarningBullet), StarBullet, WarningBullet);
    }
  }

  // ---------------------------------------------------------------------------
  // generate_pdf: the content handed to the document renderer

  const ReportTitle: string := "BeforeYouAccept: Risk Report"
  const Placeholder: string := "No analysis performed for this section."
  const WarningReplacement: string := "!!"

  /** The report's sections as (heading, result key), in the order they are written. */
  const ReportSections: seq<(string, string)> := [
    ("Summary", "analysis_summary"),
    ("Critical Alerts", CriticalAlerts),
    ("Long Term Implications", "long_term_implications")
  ]

  datatype Section = Section(title: string, body: string)

  /** The document content: its title and the sections in order. The render
      date, fonts, colours and layout are not part of it. */
  datatype Report = Report(title: string, sections: seq<Section>)

  /** The one sanitisation applied to a body: every warning sign becomes "!!". */
  function CleanBody(s: string): (r: string)
    ensures !Contains(r, Warning)
  {
    ConstantsInert();
    ReplaceRemovesAll(s, Warning, WarningReplacement);
    Replace(s, Warning, WarningReplacement)
  }

  /** The section written for one (heading, key) pair. */
  function SectionFor(results: map<string, string>, entry: (string, string)): Section {
    Section(entry.0, CleanBody(if entry.1 in results then results[entry.1] else Placeholder))
  }

  /** What `generate_pdf(results)` renders. */
  function ReportContent(results: map<string, string>): (r: Report)
    ensures r.title == ReportTitle && |r.sections| == 3
    ensures r.sections[0].title == "Summary"
    ensures r.sections[1].title == "Critical Alerts"
    ensures r.sections[2].title == "Long Term Implications"
    ensures forall i :: 0 <= i < 3 && ReportSections[i].1 !in results ==> r.sections[i].body == Placeholder
    ensures forall i :: 0 <= i < 3 && ReportSections[i].1 in results ==>
              r.sections[i].body == CleanBody(results[ReportSections[i].1])
  {
    ConstantsInert();
    ReplaceIdentity(Placeholder, Warning, WarningReplacement);
    Report(ReportTitle, seq(|ReportSections|, i requires 0 <= i < |ReportSections| => SectionFor(results, ReportSections[i])))
  }

  /** `generate_pdf`: writes the title, then each section in turn. */
  method GeneratePdf(results: map<string, string>) returns (report: Report)
    ensures report == ReportContent(results)
  {
    var sections: seq<Section> := [];
    for k := 0 to |ReportSections|
      invariant |sections| == k
      invariant forall j :: 0 <= j < k ==> sections[j] == SectionFor(results, ReportSections[j])
    {
      var (title, key) := ReportSections[k];
      var content := if key in results then results[key] else Placeholder;
      sections := sections + [Section(title, CleanBody(content))];
    }
    report := Report(ReportTitle, sections);
  }

  /** Keys other than the three section keys, `risk_scoring` among them, play no part. */
  lemma ReportIgnoresOtherKeys(a: map<string, string>, b: map<string, string>)
    requires forall i :: 0 <= i < 3 ==>
               (ReportSections[i].1 in a <==> ReportSections[i].1 in b)
               && (ReportSections[i].1 in a ==> a[ReportSections[i].1] == b[ReportSections[i].1])
    ensures ReportContent(a) == ReportContent(b)
  {
    assert ReportContent(a).sections == ReportContent(b).sections;
  }

  /** The clean-up is Python's `"!!".join(text.split(warning))`: it replaces every
      warning sign and changes nothing else. */
  lemma {:induction false} CleanBodyIsSplitJoin(s: string)
    ensures CleanBody(s) == Join(Split(s, Warning), WarningReplacement)
  {
    ReplaceIsSplitJoin(s, Warning, WarningReplacement);
  }

  /** Cleaning twice is cleaning once. */
  lemma {:induction false} CleanBodyIdempotent(s: string)
    ensures CleanBody(CleanBody(s)) == CleanBody(s)
  {
    ReplaceIdentity(CleanBody(s), Warning, WarningReplacement);
  }

  /** A critical alert as exported: its markers, already rewritten to the warning
      sign, reach the report as "!! ", and no marker or warning sign is left. */
  lemma {:induction false} ExportedAlert(s: string)
    ensures !Contains(CleanBody(AlertRewrite(s)), DashBullet)
    ensures !Contains(CleanBody(AlertRewrite(s)), StarBullet)
    ensures !Contains(CleanBody(AlertRewrite(s)), Warning)
  {
    ConstantsInert();
    ReplaceKeepsAbsent(AlertRewrite(s), Warning, WarningReplacement, DashBullet);
    ReplaceKeepsAbsent(AlertRewrite(s), Warning, WarningReplacement, StarBullet);
  }

  /** The alert rewrite turns a leading bullet "- " or "* " into the warning
      bullet, for any item text free of markers. */
  lemma {:induction false} AlertBullet(marker: string, x: string)
    requires marker == DashBullet || marker == StarBullet
    requires !Contains(x, DashBullet) && !Contains(x, StarBullet)
    ensures AlertRewrite(marker + x) == WarningBullet + x
  {
    ConstantsInert();
    if marker == DashBullet {
      ReplaceAtPattern(x, DashBullet, WarningBullet);
      ReplaceIdentity(x, DashBullet, WarningBullet);
      ReplaceAfterFreePrefix(WarningBullet, x, StarBullet, WarningBullet);
      ReplaceIdentity(x, StarBullet, WarningBullet);
    } else {
      ReplaceAfterFreePrefix(marker, x, DashBullet, WarningBullet);
      ReplaceIdentity(x, DashBullet, WarningBullet);
      ReplaceAtPattern(x, StarBullet, WarningBullet);
      ReplaceIdentity(x, StarBullet, WarningBullet);
    }
  }

  /** The clean-up turns the warning bullet into "!! ". */
  lemma {:induction false} CleanWarningBullet(x: string)
    requires !Contains(x, Warning)
    ensures CleanBody(WarningBullet + x) == "!! " + x
  {
    assert WarningBullet + x == Warning + (" " + x);
    ReplaceAtPattern(" " + x, Warning, WarningReplacement);
    NotInSingle(' ', Warning);
    ReplaceAfterFreePrefix(" ", x, Warning, WarningReplacement);
    ReplaceIdentity(x, Warning, WarningReplacement);
  }

  /** A bullet item "- x" or "* x" ends up in the report as "!! x", for any
      item text `x` free of markers and warning signs. */
  lemma ExportedBullet(marker: string, x: string)
    requires marker == DashBullet || marker == StarBullet
    requires !Contains(x, DashBullet) && !Contains(x, StarBullet) && !Contains(x, Warning)
    ensures CleanBody(AlertRewrite(marker + x)) == "!! " + x
  {
    AlertBullet(marker, x);
    CleanWarningBullet(x);
  }
}
