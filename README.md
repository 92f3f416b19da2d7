# BeforeYouAccept — a Dafny model of its session logic and text handling

BeforeYouAccept is a small Streamlit application. The user pastes a Terms &
Conditions document. The application adds a row holding that text to a hosted
JamAI "Analyzer" action table and reads back the generated columns:
`risk_scoring`, `analysis_summary`, `critical_alerts` and
`long_term_implications`. It shows them section by section and can export them
as a PDF report.

The model has four modules:

- `Wrappers` (`wrappers.dfy`): `Option` and `Result`.
- `Text` (`text.dfy`): the Python string operations the application relies on,
  over `seq<char>`.
  - `str.replace` (`Replace`), `str.split` (`Split`), `str.join` (`Join`).
  - `str.title` (`Title`), for ASCII letters.
  - Facts about them: text without the pattern is unchanged; no occurrence
    survives a replacement; a replacement cannot create an occurrence of
    another pattern; and Python's identity `s.replace(p, r) == r.join(s.split(p))`.
- `Utils` (`utils.dfy`): `fetch_analysis_column` and the content of `generate_pdf`.
  - The remote service is a `Connection` value. `Unavailable(msg)` means that
    building the client raised. `Connected(addRow)` wraps an arbitrary function
    from the document text to the add-rows reply: either a raised exception or
    the returned rows.
  - `FetchAnalysisColumn` returns `Failure(msg)` only for the exception that
    escapes. It escapes because the client is built before the `try`.
  - The report is modelled as its title plus the ordered (heading, body)
    pairs handed to the renderer.
- `App` (`app.dfy`): `st.session_state` as the class `SessionState`.
  - Each field is `Option`-valued. It stays `None` until the script first
    writes it.
  - There is one method per rerun step: `Initialize` (run at the top of every
    rerun), then at most one of `Start`, `Analyze`, `OpenTab`, `Back`.
  - `Render` gives what that rerun displays: the risk header, the fetched
    sections in display order, and the report offered for download.
  - Each event method requires that its widget is on screen in that rerun. The
    start button exists only on the landing page. The input box, analyze and
    back buttons exist only on the execution page. The tab buttons exist only
    while the risk header is non-empty.
  - When building the client raises, the rerun ends before any session field is
    written. The event then returns `Aborted` and leaves the state unchanged.
  - `Invariant` holds of every session, fresh or initialised. A non-empty risk
    header implies that the analysed text is stored and non-empty. Fetched
    sections imply a non-empty risk header. Stored keys are among the three
    section keys.

A session walked through its main path (`App.Walkthrough`) shows how the
methods compose: a fresh session, initialisation, start, analyze, one tab and
back, with the state after each rerun fixed by the contracts alone.

## Behaviour worth noting

- The critical-alerts rewrite replaces every `"- "` and every `"* "` anywhere
  in the text, in the middle of a line as well as at its start.
- The report has three sections: Summary, Critical Alerts, Long Term
  Implications. The risk score is not part of it.
- The only clean-up before the report is the warning sign U+26A0 U+FE0F
  becoming `"!!"`. Every other character, dashes and quotes included, is
  written as it is.
- Each fetch reads a single column, so every tab makes its own remote call.
- Returning to the landing page keeps the fetched results.
- A section heading is its key with underscores turned into spaces and each
  word capitalised: "Analysis Summary", "Critical Alerts", "Long Term
  Implications".

## Model

| member | source | states |
|---|---|---|
| `Utils.FetchAnalysisColumn` | src/utils.py:23-54 | A client that cannot be built raises out of the call; any other outcome is a text: `"Error connecting to JamAI: " + msg` when adding the row raised, `"Error: Could not retrieve analysis."` when no row came back, `"No data found."` when no column has the name, otherwise the first matching column's value (alert-rewritten for `critical_alerts`) |
| `Utils.FirstValue` | src/utils.py:44-45 | The lookup finds nothing exactly when no column has the name; otherwise it returns the value of the first column with that name |
| `Utils.OtherColumnsUnchanged` | src/utils.py:45-51 | For every column other than `critical_alerts` the first matching value is returned exactly as the service wrote it |
| `Utils.EmptyOnlyFromEmptyValue` | src/utils.py:41-54 | The answer is empty only when the service returned rows whose first matching column holds the empty text; every error path yields a non-empty message |
| `Utils.AlertRewrite` | src/utils.py:48-49 | After the critical-alerts rewrite the text contains neither `"- "` nor `"* "` anywhere |
| `Utils.AlertRewriteIsSplitJoin` | src/utils.py:49 | The rewrite is `warning.join(text.split("- "))` followed by the same for `"* "`: every occurrence is replaced, wherever it stands, and the text between occurrences is untouched |
| `Utils.AlertRewriteKeepsPlainText` | src/utils.py:49 | Text containing no list marker comes back from the rewrite unchanged |
| `Utils.NonEmptyAfterRewrite` | src/utils.py:49 | The rewrite maps non-empty text to non-empty text |
| `Utils.AlertBullet` | src/utils.py:49 | A bullet `"- x"` or `"* x"` becomes the warning sign, a space and `x`, for marker-free `x` |
| `Utils.CleanBody` | src/utils.py:96 | The cleaned body holds no warning sign U+26A0 U+FE0F |
| `Utils.CleanBodyIsSplitJoin` | src/utils.py:96 | The clean-up is `"!!".join(body.split(warning))`: it replaces every warning sign and changes nothing else |
| `Utils.CleanBodyIdempotent` | src/utils.py:96 | Cleaning twice gives the same text as cleaning once |
| `Utils.CleanWarningBullet` | src/utils.py:96 | The warning bullet reaches the report as `"!! "`, with the rest of the text unchanged |
| `Utils.ExportedBullet` | src/utils.py:96 | Rewriting an alert and then cleaning it turns `"- x"` and `"* x"` into `"!! x"` for any `x` free of markers and warning signs |
| `Utils.ExportedAlert` | src/utils.py:96 | An exported critical-alerts body contains no `"- "`, no `"* "` and no warning sign |
| `Utils.ReportContent` | src/utils.py:76-98 | The report has the fixed title and exactly three sections, Summary, Critical Alerts and Long Term Implications, in that order; an absent key gives `"No analysis performed for this section."`, a present key gives its cleaned text |
| `Utils.GeneratePdf` | src/utils.py:56-101 | The section loop writes exactly the report content above, one section per (heading, key) pair in order |
| `Utils.ReportIgnoresOtherKeys` | src/utils.py:76-93 | Two result maps that agree on the three section keys give the same report; `risk_scoring` and any other key play no part |
| `Text.Replace` | src/utils.py:49 | `str.replace` with a non-empty pattern, scanning left to right without overlap; a replacement as long as the pattern keeps the text's length. Its other properties are the lemmas below |
| `Text.Split` | src/utils.py:49 | `str.split` by a non-empty pattern always gives at least one piece. That its pieces join back to the text and hold no occurrence is proved in `Text.JoinSplit` and `Text.SplitPiecesFree` |
| `Text.Join` | src/utils.py:49 | `sep.join(parts)` of a non-empty list starts with the first part |
| `Text.ReplaceIdentity` | src/utils.py:96 | `str.replace` leaves a text that contains no occurrence of the pattern unchanged |
| `Text.ReplaceRemovesAll` | src/utils.py:49 | After `str.replace` of a two-character pattern by a text that cannot form it, no occurrence remains |
| `Text.ReplaceKeepsAbsent` | src/utils.py:49 | `str.replace` cannot create an occurrence of a two-character string that the replacement cannot form |
| `Text.ReplaceIsSplitJoin` | src/utils.py:49 | For a two-character pattern of distinct characters, `s.replace(p, r) == r.join(s.split(p))` |
| `Text.JoinSplit` | src/utils.py:49 | Joining the pieces of a split with the same separator gives back the text |
| `Text.SplitPiecesFree` | src/utils.py:49 | No piece of a split by a two-character pattern contains the pattern |
| `Text.ReplaceJoin` | src/utils.py:49 | Replacing the separator in a join of pattern-free pieces gives the join with the replacement |
| `Text.ReplaceAfterFreePrefix` | src/utils.py:49 | A pattern-free prefix that cannot complete an occurrence with what follows is copied through unchanged |
| `Text.ReplaceChar` | src/app.py:163 | Replacing one character by another (`"_"` by `" "`) keeps the length and works position by position |
| `Text.Title` | src/app.py:163 | `str.title` keeps the length; a letter is upper-cased when the character before it is not a letter, lower-cased otherwise; other characters are kept |
| `App.Label` | src/app.py:163 | A section heading has the key's length; underscores become spaces and the letter starting each word is upper-cased, the rest lower-cased |
| `App.LabelWord` | src/app.py:163 | A key that is one lower-case word is shown with its first letter upper-cased |
| `App.LabelAppend` | src/app.py:163 | The heading of two texts placed side by side, where no letter meets a letter, is the two headings side by side |
| `App.LabelSeam` | src/app.py:163 | An underscore becomes a space and starts a new word: the heading of `u_v` is the heading of `u`, a space, and the heading of `v` |
| `App.LabelJoin` | src/app.py:163 | A key made of lower-case words joined by `"_"` is shown as those words, each capitalised, joined by `" "` |
| `App.SummaryHeading` | src/app.py:161-164 | The section under `analysis_summary` is headed "Analysis Summary" |
| `App.AlertsHeading` | src/app.py:161-164 | The section under `critical_alerts` is headed "Critical Alerts" |
| `App.ImplicationsHeading` | src/app.py:161-164 | The section under `long_term_implications` is headed "Long Term Implications" |
| `App.Tab.Key` | src/app.py:144-156 | Each tab button stores under one of the three section keys |
| `App.DisplayEntries` | src/app.py:161-166 | Displayed sections are exactly the display keys present in the results, each with its heading and stored text |
| `App.DisplayEntriesInOrder` | src/app.py:161-166 | Displayed sections follow the fixed order summary, alerts, implications |
| `App.DisplayArea` | src/app.py:161-166 | The display loop produces exactly those displayed sections |
| `App.SessionState.Invariant` | src/app.py:119-156 | Holds of every session, and every event keeps it. A non-empty risk header comes with a stored, non-empty document text, which the tabs send. Fetched sections come only after a non-empty risk header. Sections are stored only under the three section keys |
| `App.SessionState.constructor` | src/app.py:67-73 | A new session stores nothing, and the session invariant holds |
| `App.SessionState.Initialize` | src/app.py:68-73 | `page`, `results` and `risk_header` get `landing`, `{}` and `""` only when absent; present values and the stored text are kept |
| `App.SessionState.Start` | src/app.py:90-92 | The start button sets the page to execution and changes nothing else |
| `App.SessionState.Analyze` | src/app.py:103-127 | Empty input changes nothing. Otherwise the risk header becomes the `risk_scoring` fetch for the text, the results are cleared and the text is remembered; if the client cannot be built, nothing changes and the rerun aborts. The invariant is preserved |
| `App.SessionState.OpenTab` | src/app.py:136-156 | A tab, offered only with a non-empty risk header, sets only `results[key]` to the fetch for the remembered text; other keys, the header, the text and the page are unchanged |
| `App.SessionState.Back` | src/app.py:182-184 | Back sets the page to landing and keeps results, risk header and text |
| `App.SessionState.Render` | src/app.py:136-179 | The header, tabs and sections appear only on the execution page with a non-empty risk header; sections come in display order; the export is offered exactly when on the execution page with at least one fetched section, and it is the report built from the results |

## Left out

- Streamlit rendering, CSS, images, columns, spinner and status widgets, the scroll script and `st.rerun`. These are user-interface plumbing. A rerun is modelled as `Initialize` followed by at most one event.
- The "Upload PDF" input branch. It only shows a warning and leaves the input empty, so it is the empty-input case of `Analyze`.
- The JamAI client, the secrets lookup and the network call. They are replaced by the `Connection` value passed to each event. Its answer is arbitrary and may differ between calls.
- FPDF layout: fonts, colours, coordinates, `cell`, `line` and `multi_cell`. These are foreign library calls.
- The "Generated on" timestamp line. It reads the clock.
- The final `.encode('latin-1')` of the PDF. It raises for any character outside Latin-1 other than the replaced warning sign, and the code does not handle that.
- The base64 file readers. They are file I/O.
- Text.Title: only ASCII letters are cased, where Python's `str.title` cases every Unicode letter. The three section keys are ASCII.
- Text.Replace: requires a non-empty pattern. Python's behaviour for an empty pattern is not modelled, and the application never uses one.
- App.SessionState.Render: what Streamlit shows for an exception that aborts a rerun is not modelled. `Analyze` and `OpenTab` only report it as `Aborted`. Because the latin-1 encode is left out, `Render` always offers the export once a section is stored. In the application, `generate_pdf` runs (src/app.py:172) before the back button is drawn (src/app.py:182). So when a stored section holds a character outside Latin-1, every rerun of the execution page raises at the export: no download is offered, the back button never appears, and only a new analysis clears the stored sections. The model's `Render` offers the export and `Back` stays enabled in that state.
