# Equity research site: report store and view rules

This project models the logic of the equity research web site's three pages
that do more than render:

- **Admin dashboard** (`AdminDashboard`, with `FormState` and `Reports`). An
  administrator fills a form that describes a research report and submits it.
  Submitting creates a record or replaces the record being edited. The
  dashboard can also open a report in an edit dialog and save it, and it can
  delete records. Records live in a collection keyed by an integer `id`. The
  page keeps two copies of that collection: the one it shows, and the one in
  the browser's storage. The class `AdminDashboard.Dashboard` holds the
  page's state variables as fields. It has one method per handler. The record
  a save builds, and the way the collection changes, are pure functions with
  their own lemmas.
- **Research list** (`Research`). This is the public list of reports. It has
  sector chips (an "all" chip, then each sector once), the sector filter, the
  links and forced downloads of each card's buttons, the message shown when
  the filter leaves nothing, and the route a card opens.
- **Analysis detail** (`AnalysisDetail`). This page finds the report named by
  the route, reading the route's id segment the way `parseInt` does. It also
  decides the colours of the upside figure and of the recommendation chip, the
  names the attachments download under, and the avatar letter.

The supporting modules are:

- `Strings`: the ASCII string built-ins the pages use (upper and lower case,
  trim, `startsWith`, `includes`, `split`).
- `Sequences`: `filter`, de-duplication and sub-sequences.
- `Routes`: `parseInt` and the decimal text of an id.
- `Wrappers`: an `Option` type.

## Model

| member | source | states |
|---|---|---|
| Reports.Load | src/pages/Research.jsx:26-31 | With no stored collection the list is empty; otherwise it is the stored collection |
| Reports.ReplaceById | src/pages/AdminDashboard.jsx:285-287 | Length is kept; each record with the id becomes the new record and every other record stays at its position |
| Reports.RemoveById | src/pages/AdminDashboard.jsx:319-320 | Never longer than before; no record with the id survives |
| Reports.FindById | src/pages/AnalysisDetail.jsx:29 | None exactly when no record has the id; otherwise the record at the first position with that id |
| Reports.FindUnique | src/pages/AnalysisDetail.jsx:29 | When ids are unique, looking up a member's id finds that member |
| Reports.AppendFresh | src/pages/AdminDashboard.jsx:223-225 | Appending a record with a fresh id adds one record at the end, keeps the earlier ones in order, keeps ids unique, and the new record is found by its id |
| Reports.ReplaceAbsent | src/pages/AdminDashboard.jsx:285-287 | Replacing an id that no record has changes nothing |
| Reports.ReplaceKeepsId | src/pages/AdminDashboard.jsx:285-287 | Replacing a present id with a record that keeps the id keeps ids unique, and the lookup then finds the new record |
| Reports.RemoveSpec | src/pages/AdminDashboard.jsx:319-320 | Delete keeps exactly the records with another id, each as often as before and in the same order; the length drops by the number of records with the id; the id is no longer found |
| Reports.KeepSplit | src/pages/AdminDashboard.jsx:311 | Every record is either kept by the delete or has the deleted id |
| Reports.RemoveAbsent | src/pages/AdminDashboard.jsx:309-311 | Deleting an id that no record has changes nothing |
| Reports.RemoveUnique | src/pages/AdminDashboard.jsx:309-311 | With unique ids, deleting a present id removes exactly one record and keeps ids unique |
| Reports.KeepUnique | src/pages/AdminDashboard.jsx:311 | Filtering a collection with unique ids keeps them unique |
| FormState.EmptyFormFields | src/pages/AdminDashboard.jsx:81-96 | The blank form has the thirteen fields: `id` is null and every other field is the empty string |
| FormState.TextOf | src/pages/AdminDashboard.jsx:203 | A field reads as its string, or as "" when it is missing or not a string |
| FormState.AddressedPath | src/pages/AdminDashboard.jsx:132-133 | A dot-free name addresses itself alone; a dotted name addresses the first two pieces of its `split('.')`, plus the third when that is non-empty; never more than three keys |
| FormState.AddressedPathOfJoin | src/pages/AdminDashboard.jsx:132-133 | A name made of one to three dot-free parts joined by dots, the third non-empty, addresses exactly those parts |
| FormState.ChangedPath | src/pages/AdminDashboard.jsx:120-133 | The rich-text editor's event addresses `methodology`; a named input's event addresses the path its name denotes |
| FormState.ApplyChange | src/pages/AdminDashboard.jsx:120-151 | The changed form has the old top-level fields plus the addressed one |
| FormState.ChangeSetsAddressed | src/pages/AdminDashboard.jsx:120-151 | After a change, the addressed path (rich-text `methodology`, a flat name, or a dotted name of two or three parts) holds the new text |
| FormState.ChangeFrame | src/pages/AdminDashboard.jsx:120-151 | A change leaves every path that parts from the addressed one as it was |
| FormState.FirstStepSame | src/pages/AdminDashboard.jsx:134-137 | Objects that agree on a path's first key agree on the whole path, so spreading the untouched fields keeps them |
| FormState.SetItem | src/pages/AdminDashboard.jsx:154-159 | The form keeps its fields and the field stays an array |
| FormState.AddItem | src/pages/AdminDashboard.jsx:161-166 | The form keeps its fields and the field stays an array |
| FormState.RemoveItem | src/pages/AdminDashboard.jsx:168-173 | The form keeps its fields and the field stays an array |
| FormState.DropAt | src/pages/AdminDashboard.jsx:171 | Filtering out one index removes exactly that element when the index is in range, and nothing otherwise |
| FormState.ArrayHandlers | src/pages/AdminDashboard.jsx:154-173 | Setting an index keeps the length and changes only that item; adding appends one `''`; removing drops one in-range index; every other field is unchanged |
| FormState.AddThenRemove | src/pages/AdminDashboard.jsx:161-173 | Removing the item just added gives back the form |
| Strings.Upper | src/pages/AdminDashboard.jsx:205 | `toUpperCase` keeps the length, leaves no lower-case letter and maps each character on its own |
| Strings.Trim | src/pages/AdminDashboard.jsx:205 | `trim` gives a slice of the input, between whitespace, with no whitespace at either end |
| Strings.TrimUpperCommute | src/pages/AdminDashboard.jsx:205 | Trimming and upper-casing can be done in either order |
| Strings.IncludesIff | src/pages/AnalysisDetail.jsx:180-208 | `includes` succeeds exactly when the text occurs at some position |
| Strings.IncludesChar | src/pages/AnalysisDetail.jsx:180 | Searching for a one-character string is asking whether the character occurs |
| Strings.Lower | src/pages/AnalysisDetail.jsx:205-207 | `toLowerCase` keeps the length, maps each character on its own and leaves no upper-case letter |
| Strings.StartsWithIff | src/pages/Research.jsx:162 | `startsWith` holds exactly when the prefix fits and agrees with the text character by character |
| Strings.LowerOfUpper | src/pages/AnalysisDetail.jsx:205-207 | Lower-casing forgets any earlier upper-casing |
| Strings.SplitJoin | src/pages/AdminDashboard.jsx:133 | Splitting dot-free parts joined with dots gives back the parts, which is how a dotted input name is taken apart |
| Strings.SplitCount | src/pages/AdminDashboard.jsx:132-133 | A name splits into more than one part exactly when it contains a dot |
| Sequences.Keep | src/pages/Research.jsx:46 | `filter` keeps only elements that pass and is never longer |
| Sequences.KeepMembers | src/pages/Research.jsx:46 | An element is kept exactly when it occurs and passes |
| Sequences.KeepCount | src/pages/Research.jsx:46 | Each passing element is kept as often as it occurs; failing ones are dropped |
| Sequences.KeepSubsequence | src/pages/Research.jsx:46 | `filter` keeps the original order |
| Sequences.Distinct | src/pages/Research.jsx:34 | `new Set` keeps every element once, and only elements of the input |
| Sequences.DistinctOrder | src/pages/Research.jsx:34 | The de-duplicated elements come in the order of their first occurrence |
| AdminDashboard.NewData | src/pages/AdminDashboard.jsx:207-209 | `file?.data` is used only when a file is held and its data is a non-empty string |
| AdminDashboard.NormalizeTicker | src/pages/AdminDashboard.jsx:205 | The saved ticker has no surrounding whitespace and no lower-case letter, and is no longer than the input |
| AdminDashboard.NormalizeIsUpperOfTrim | src/pages/AdminDashboard.jsx:205 | Normalising equals upper-casing the trimmed input |
| AdminDashboard.NormalizeIdempotent | src/pages/AdminDashboard.jsx:205 | Normalising twice gives the same ticker as once |
| AdminDashboard.DefaultDate | src/pages/AdminDashboard.jsx:206 | The form's date when it is non-empty, else today's; never empty when today's date is not |
| AdminDashboard.SubmittedReport | src/pages/AdminDashboard.jsx:202-217 | A record is built exactly when the form's ticker is a string. It keeps the edited id or takes the clock's. Its title, description, sector, summary and three metrics are the form's as typed, with the metrics mirrored under `valuation.metrics`. Its ticker is trimmed with no lower case. Its date is defaulted. Each attachment is the new file's data or "" |
| AdminDashboard.SubmittedTicker | src/pages/AdminDashboard.jsx:205 | The submitted ticker is exactly the form's ticker trimmed and upper-cased |
| AdminDashboard.EditedReport | src/pages/AdminDashboard.jsx:270-283 | The edited record keeps the edited id. Its title, description, sector, summary and three metrics are the form's as typed, with the metrics mirrored. Its ticker and date are taken from the form unnormalised. Each attachment falls back to the stored URL when no new data is present |
| AdminDashboard.EditForm | src/pages/AdminDashboard.jsx:252-264 | The edit form has the nine text fields: title, ticker, description, sector, date and methodology copied from the report, and the metrics read from `valuation.metrics` |
| AdminDashboard.EditRoundTrip | src/pages/AdminDashboard.jsx:252-283 | Opening a report in the dialog and saving with no new file gives back the same report |
| AdminDashboard.SubmitWhileEditing | src/pages/AdminDashboard.jsx:202-209 | Submitting the main form while a report is still being edited keeps its id, normalises its ticker, and empties every attachment not chosen again |
| AdminDashboard.Saved | src/pages/AdminDashboard.jsx:223-225 | Create appends the record, adding one and keeping the earlier records in order; edit keeps the length and replaces exactly the records with the edited id |
| AdminDashboard.SavedKeepsUnique | src/pages/AdminDashboard.jsx:202-225 | A create with a fresh id or an edit keeping the id keeps ids unique, and the saved record is then found by its id |
| AdminDashboard.Dashboard.constructor | src/pages/AdminDashboard.jsx:76-102 | The page starts on the first tab with a blank form and no files, holding the stored collection (empty when none) |
| AdminDashboard.Dashboard.HandleTabChange | src/pages/AdminDashboard.jsx:116-118 | Only the tab changes |
| AdminDashboard.Dashboard.HandleInputChange | src/pages/AdminDashboard.jsx:120-152 | Only the form changes: the addressed path takes the new text |
| AdminDashboard.Dashboard.HandleArrayInputChange | src/pages/AdminDashboard.jsx:154-159 | Only the form changes: one array item is set |
| AdminDashboard.Dashboard.HandleAddArrayItem | src/pages/AdminDashboard.jsx:161-166 | Only the form changes: `''` is appended to the array |
| AdminDashboard.Dashboard.HandleRemoveArrayItem | src/pages/AdminDashboard.jsx:168-173 | Only the form changes: one index is dropped from the array |
| AdminDashboard.Dashboard.HandleFileLoaded | src/pages/AdminDashboard.jsx:180-192 | A finished read fills the slot of its kind with the name and data; a logo also sets the preview; nothing else changes |
| AdminDashboard.Dashboard.ResetForm | src/pages/AdminDashboard.jsx:232-237 | Afterwards the form is blank, nothing is being edited, and no file or preview is held |
| AdminDashboard.Dashboard.Publish | src/pages/AdminDashboard.jsx:228-229 | The shown and stored collections both become the new collection |
| AdminDashboard.Dashboard.HandleSubmit | src/pages/AdminDashboard.jsx:197-250 | On success, the stored collection gets the record, the page shows it, the form is reset, the message says created or updated, and the list tab opens. On failure, only the message changes, to the error text |
| AdminDashboard.Dashboard.HandleEditClick | src/pages/AdminDashboard.jsx:252-267 | The report becomes the one edited, the form holds its fields, the preview is its logo, and the dialog opens |
| AdminDashboard.Dashboard.HandleEditSave | src/pages/AdminDashboard.jsx:269-301 | The page's collection has the edited id's records replaced and is stored; the dialog closes; the form is reset; the message says updated |
| AdminDashboard.Dashboard.CloseEditDialog | src/pages/AdminDashboard.jsx:756-767 | Only the dialog closes |
| AdminDashboard.Dashboard.HandleDeleteReport | src/pages/AdminDashboard.jsx:309-317 | When confirmed, the id's records are removed from both copies and the message says deleted; otherwise nothing changes |
| AdminDashboard.Dashboard.HandleDelete | src/pages/AdminDashboard.jsx:319-325 | The id's records are always removed from both copies, and the message says deleted |
| Routes.ParseInt | src/pages/AnalysisDetail.jsx:30 | `parseInt` of blank text is no number, and a negative result needs a leading minus sign after the whitespace |
| Routes.ParseIntSkipsSpace | src/pages/AnalysisDetail.jsx:30 | `parseInt` ignores leading whitespace |
| Routes.ParseIntHex | src/pages/AnalysisDetail.jsx:30 | `parseInt` reads `0x` followed by hexadecimal digits in base 16 |
| Routes.ParseIntIgnoresTrailing | src/pages/AnalysisDetail.jsx:30 | `parseInt` reads decimal digits up to the first other character and ignores the rest, unless a lone `0` before `x` starts a hexadecimal number |
| Routes.IdSegment | src/pages/Research.jsx:37 | `${id}` of a safe integer is non-empty, starts with a minus sign exactly for a negative id, and is otherwise made of decimal digits |
| Routes.ParseIdSegment | src/pages/AnalysisDetail.jsx:30 | `parseInt` of the decimal text written for an id gives that id back |
| Routes.ParseSignedDigits | src/pages/AnalysisDetail.jsx:30 | `parseInt` of an optional minus sign followed by decimal digits is the signed value of the digits |
| Routes.NatDigitsValue | src/pages/Research.jsx:37 | The decimal text of a number denotes that number |
| Research.Sectors | src/pages/Research.jsx:34 | One sector per report, position by position |
| Research.SectorChips | src/pages/Research.jsx:34 | "all" comes first; every report's sector appears after it exactly once; nothing else appears |
| Research.SectorChipsOrder | src/pages/Research.jsx:34 | The chips after "all" follow the order in which their sectors first occur |
| Research.SectorChipsUnique | src/pages/Research.jsx:34 | When no report is filed under "all", no chip repeats |
| Research.FilterBySector | src/pages/Research.jsx:44-46 | Never longer than the list; for a sector other than "all", only that sector's reports |
| Research.FilterSpec | src/pages/Research.jsx:44-46 | "all" gives the list unchanged. Any other sector gives exactly its reports, each as often as it occurs and in the original order |
| Research.ChipsSelectSomething | src/pages/Research.jsx:34-46 | Every chip after "all" selects at least one report |
| Research.Href | src/pages/Research.jsx:162 | A `data:` URL is used as it is; any other URL gets a leading `/` |
| Research.HrefKeepsUrl | src/pages/Research.jsx:162 | The link ends with the stored URL and is a `data:` URL exactly when that URL is |
| Research.CardDownload | src/pages/Research.jsx:165-190 | A click forces a download of the URL exactly for `data:` URLs, under the given name |
| Research.ButtonClick | src/pages/Research.jsx:159-190 | The report button downloads a `data:` PDF URL as `report.pdf` and the model button a `data:` workbook URL as `model.xlsx`; any other URL is not downloaded |
| Research.ButtonsSaveApart | src/pages/Research.jsx:170-187 | The two buttons of one card never save under the same name |
| Research.EmptyStateMessage | src/pages/Research.jsx:200-216 | A message is shown exactly when the filter leaves nothing: the generic note for "all", else one naming the sector |
| Research.EmptyStateForAll | src/pages/Research.jsx:200-216 | With "all" selected, the empty state appears exactly when there are no reports |
| Research.ChipNeverEmpty | src/pages/Research.jsx:200-216 | Selecting a chip after "all" never shows the empty state |
| Research.CardRoute | src/pages/Research.jsx:36-38 | A card opens a route under `/research/` whose last segment `parseInt` reads back as the card's id |
| AnalysisDetail.LookupReport | src/pages/AnalysisDetail.jsx:28-33 | Not found exactly when the segment is not a number or no report has that id; otherwise the first report with the parsed id |
| AnalysisDetail.CardRouteFindsReport | src/pages/AnalysisDetail.jsx:28-33 | With unique ids, the detail page opened from a card's route shows that card's report |
| AnalysisDetail.UnknownIdNotFound | src/pages/AnalysisDetail.jsx:42-55 | An id no report has leads to "Analysis not found" |
| AnalysisDetail.UpsideColour | src/pages/AnalysisDetail.jsx:180 | The upside is red exactly when it contains a minus sign, else green |
| AnalysisDetail.RecommendationColour | src/pages/AnalysisDetail.jsx:204-210 | Any text mentioning "buy" in any letter case is green, whatever else it says |
| AnalysisDetail.RecommendationIgnoresCase | src/pages/AnalysisDetail.jsx:204-210 | The colour is the same for the text upper-cased |
| AnalysisDetail.MissingFirstLetter | src/pages/AnalysisDetail.jsx:205-207 | Text without the first letter of a word does not include the word |
| AnalysisDetail.BuyIsSuccess | src/pages/AnalysisDetail.jsx:204-210 | "Strong Buy" and "Buy" are green |
| AnalysisDetail.HoldIsWarning | src/pages/AnalysisDetail.jsx:204-210 | "Hold" is amber |
| AnalysisDetail.SellIsError | src/pages/AnalysisDetail.jsx:204-210 | "Sell" is red |
| AnalysisDetail.StrongSellIsError | src/pages/AnalysisDetail.jsx:204-210 | "Strong Sell" is red: it mentions "sell" and not "buy" |
| AnalysisDetail.ReportFileName | src/pages/AnalysisDetail.jsx:323 | The PDF's name is the title followed by ` - Research Report.pdf` |
| AnalysisDetail.ModelFileName | src/pages/AnalysisDetail.jsx:296 | The workbook's name is the title followed by ` - Financial Model.xlsx` |
| AnalysisDetail.FileNamesDistinct | src/pages/AnalysisDetail.jsx:296-336 | Different titles give different names, and a PDF never shares its name with a workbook |
| AnalysisDetail.AvatarInitial | src/pages/AnalysisDetail.jsx:102 | The avatar shows the title's first character, or nothing for an empty title |

## Left out

- Browser storage and JSON. The stored collection is the `stored` field, an already-decoded `seq<Report>`. `JSON.parse` and its exceptions are not modelled, and a missing entry is `None`.
- The one storage failure modelled is the write in `handleSubmit`, passed in as `writeOk`. That is the only handler whose write sits inside a `try`.
- `FileReader`. Reading a file is asynchronous and done by the browser. Only the completion step is modelled (`HandleFileLoaded`); the data URL arrives as a parameter.
- The message-clearing `setTimeout`, `navigate` calls, `handleLogout` and the authentication effect. These are timing and navigation with nothing to state.
- `window.confirm`. Its answer is the `confirmed` parameter.
- `Date.now()` and `new Date().toISOString()`. Both are parameters (`now`, `today`).
- Research page rendering: the chips are shown only when there are reports, and the card avatar uses the same first-character rule as `AnalysisDetail.AvatarInitial`.
- Detail page loading: the lookup reads storage, so a JSON error leaves the page at "Analysis not found". This is the `None` of `LookupReport`.
- Unicode. Upper-casing, lower-casing and trimming cover ASCII letters and ASCII whitespace only. Strings are sequences of Unicode scalar values, not UTF-16 code units, so lengths and positions differ for characters outside the Basic Multilingual Plane.
- AnalysisDetail.AvatarInitial: for a title starting with such a character (an emoji, say) the model gives the whole character, where `charAt(0)` gives a lone surrogate.
- `parseInt` digit limits. Route ids are parsed exactly, with no double-precision rounding of very long digit strings.
- Routes.IdSegment, Routes.ParseIdSegment, Research.CardRoute and AnalysisDetail.CardRouteFindsReport: ids are unbounded integers here, so these hold for every id. In the pages an id is a JavaScript number, and printing and parsing are exact only for safe integers (below 2^53 in magnitude), such as the `Date.now()` values the dashboard assigns. From 10^21 up, `${id}` writes exponent form (`1e+21`), which `parseInt` reads back as 1.
- Form fields that are not strings are read as `""` wherever a saved record needs a string.
- The saved record. The pages spread every form key into it; here it is a typed record with the fourteen fields the pages read.
- AdminDashboard.NormalizeTicker: its contract states the shape of the ticker only (trimmed, no lower case). The exact value `Upper(Trim(s))` is in `NormalizeIsUpperOfTrim`.
- AdminDashboard.SubmittedReport: its contract states that the ticker is trimmed and has no lower case, not its exact value. The exact value is in `SubmittedTicker`; stating it in the contract made the handler proofs too costly.
- AnalysisDetail.RecommendationColour: its contract states only the priority of "buy". The red and amber cases are stated for the five offered recommendations by `SellIsError`, `StrongSellIsError` and `HoldIsWarning`.
- FormState.ApplyChange: object spread of a string or an array parent copies its indexed entries in the page (`{..."ab"}` has keys `0` and `1`); the model's `Spread` copies nothing from them, so a dotted change under a string or array field keeps only the new entry. No input the dashboard renders has a dotted name.
- FormState.NamedChangeDefined: a three-part name whose parent field is missing or null makes the page throw a TypeError; `ApplyChange` and `HandleInputChange` require that this does not happen instead of modelling the error.
- FormState.SetItem, FormState.AddItem, FormState.RemoveItem and the three array handlers of `AdminDashboard.Dashboard` require the field to hold an array. In the page, `[...prev[field], '']` also accepts a string field (spreading its characters), and `.map`/`.filter` throw on anything that is not an array. The page renders no control that calls these handlers, and no form it builds holds an array.
- AdminDashboard.Dashboard.HandleEditSave: requires a report being edited; reading `editingReport.id` with nothing edited throws a TypeError in the page, which the model does not represent.
- The login page and all other pages and components. These are presentation only.
