/**
 * The admin dashboard: how a saved record is built from the form, how the
 * stored collection changes on create, edit and delete, and the handlers that
 * move the page's state from one screen to the next.
 */
module AdminDashboard {
  import opened Wrappers
  import opened Strings
  import opened Sequences
  import opened Reports
  import opened FormState

  /** A chosen file once read: its name and the data URL the reader produced (null on a failed read). */
  datatype Attachment = Attachment(name: string, data: Option<string>)

  const CreatedMessage := "Report created successfully!"
  const UpdatedMessage := "Report updated successfully!"
  const DeletedMessage := "Report deleted successfully!"
  const SaveErrorMessage := "Error saving report. Please try again."

  /** `file?.data`, kept only when truthy: no file, a null result and "" all fall through to `||`. */
  function NewData(file: Option<Attachment>): (d: Option<string>)
    ensures d.Some? ==> file.Some? && file.value.data == d && d.value != ""
    ensures d.None? ==> file.None? || file.value.data in {None, Some("")}
  {
    match file
    case Some(Attachment(_, Some(data))) => if data != "" then Some(data) else None
    case _ => None
  }

  /** `ticker.toUpperCase().trim()`. */
  function NormalizeTicker(s: string): (t: string)
    ensures Trimmed(t) && NoLower(t)
    ensures |t| <= |s|
  {
    TrimKeepsNoLower(Upper(s));
    Trim(Upper(s))
  }

  /** Normalising is the same as trimming first and upper-casing after. */
  lemma NormalizeIsUpperOfTrim(s: string)
    ensures NormalizeTicker(s) == Upper(Trim(s))
  {
    TrimUpperCommute(s);
  }

  /** Normalising a normalised ticker changes nothing. */
  lemma NormalizeIdempotent(s: string)
    ensures NormalizeTicker(NormalizeTicker(s)) == NormalizeTicker(s)
  {
    var t := NormalizeTicker(s);
    UpperOfNoLower(t);
    TrimOfTrimmed(t);
  }

  /** `formData.date || today`: the form's date when it is a non-empty string, else today's. */
  function DefaultDate(form: Form, today: string): (d: string)
    ensures TextOf(form, "date") != "" ==> d == TextOf(form, "date")
    ensures TextOf(form, "date") == "" ==> d == today
    ensures today != "" ==> d != ""
  {
    if TextOf(form, "date") != "" then TextOf(form, "date") else today
  }

  /** The form holds a string ticker, so `toUpperCase` can be called on it. */
  predicate HasTextTicker(form: Form) {
    "ticker" in form && form["ticker"].Text?
  }

  /**
   * The record carries the form's title, description, sector, executive
   * summary and the three metrics exactly as typed.
   */
  predicate CarriesFormText(form: Form, r: Report) {
    && r.title == TextOf(form, "title")
    && r.description == TextOf(form, "description")
    && r.sector == TextOf(form, "sector")
    && r.methodology == TextOf(form, "methodology")
    && r.targetPrice == TextOf(form, "targetPrice")
    && r.upside == TextOf(form, "upside")
    && r.recommendation == TextOf(form, "recommendation")
  }

  /**
   * The record `handleSubmit` builds: the form's fields, the id kept from the
   * report being edited or taken from the clock, the ticker normalised, the
   * date defaulted, each attachment slot filled from its chosen file or left
   * empty, and the metrics copied under `valuation`. A ticker that is not a
   * string makes the build throw.
   */
  function SubmittedReport(form: Form, editing: Option<Report>, now: int, today: string,
                           pdf: Option<Attachment>, excel: Option<Attachment>, logo: Option<Attachment>)
    : (r: Option<Report>)
    ensures r.Some? <==> HasTextTicker(form)
    ensures r.Some? ==> MetricsMirrored(r.value)
    ensures r.Some? ==> r.value.id == (if editing.Some? then editing.value.id else now)
    ensures r.Some? ==> Trimmed(r.value.ticker) && NoLower(r.value.ticker)
    ensures r.Some? ==> r.value.date == DefaultDate(form, today)
    ensures r.Some? ==> CarriesFormText(form, r.value)
    ensures r.Some? ==> && r.value.pdfUrl == NewData(pdf).GetOr("")
                        && r.value.excelUrl == NewData(excel).GetOr("")
                        && r.value.logoUrl == NewData(logo).GetOr("")
  {
    if !HasTextTicker(form) then None
    else
      var targetPrice, upside, recommendation :=
        TextOf(form, "targetPrice"), TextOf(form, "upside"), TextOf(form, "recommendation");
      Some(Report(
        id := if editing.Some? then editing.value.id else now,
        title := TextOf(form, "title"),
        ticker := NormalizeTicker(form["ticker"].s),
        description := TextOf(form, "description"),
        sector := TextOf(form, "sector"),
        date := DefaultDate(form, today),
        methodology := TextOf(form, "methodology"),
        recommendation := recommendation,
        targetPrice := targetPrice,
        upside := upside,
        pdfUrl := NewData(pdf).GetOr(""),
        excelUrl := NewData(excel).GetOr(""),
        logoUrl := NewData(logo).GetOr(""),
        valuation := Metrics(targetPrice, upside, recommendation)))
  }

  /** The saved ticker is the form's ticker, trimmed and upper-cased (in either order). */
  lemma SubmittedTicker(form: Form, editing: Option<Report>, now: int, today: string,
                        pdf: Option<Attachment>, excel: Option<Attachment>, logo: Option<Attachment>)
    requires HasTextTicker(form)
    ensures SubmittedReport(form, editing, now, today, pdf, excel, logo).value.ticker
            == Upper(Trim(form["ticker"].s))
  {
    NormalizeIsUpperOfTrim(form["ticker"].s);
  }

  /**
   * The record `handleEditSave` builds: the form's fields as typed (ticker not
   * normalised, date not defaulted), the edited report's id, each attachment
   * slot from a newly chosen file or else the edited report's stored URL, and
   * the metrics copied under `valuation`.
   */
  function EditedReport(form: Form, editing: Report,
                        pdf: Option<Attachment>, excel: Option<Attachment>, logo: Option<Attachment>)
    : (r: Report)
    ensures r.id == editing.id
    ensures MetricsMirrored(r) && CarriesFormText(form, r)
    ensures r.ticker == TextOf(form, "ticker") && r.date == TextOf(form, "date")
    ensures r.pdfUrl == (if NewData(pdf).Some? then NewData(pdf).value else editing.pdfUrl)
    ensures r.excelUrl == (if NewData(excel).Some? then NewData(excel).value else editing.excelUrl)
    ensures r.logoUrl == (if NewData(logo).Some? then NewData(logo).value else editing.logoUrl)
  {
    var targetPrice, upside, recommendation :=
      TextOf(form, "targetPrice"), TextOf(form, "upside"), TextOf(form, "recommendation");
    Report(
      id := editing.id,
      title := TextOf(form, "title"),
      ticker := TextOf(form, "ticker"),
      description := TextOf(form, "description"),
      sector := TextOf(form, "sector"),
      date := TextOf(form, "date"),
      methodology := TextOf(form, "methodology"),
      recommendation := recommendation,
      targetPrice := targetPrice,
      upside := upside,
      pdfUrl := NewData(pdf).GetOr(editing.pdfUrl),
      excelUrl := NewData(excel).GetOr(editing.excelUrl),
      logoUrl := NewData(logo).GetOr(editing.logoUrl),
      valuation := Metrics(targetPrice, upside, recommendation))
  }

  /**
   * The form `handleEditClick` loads: the report's text fields and its
   * metrics read from `valuation`; no id and no attachment slots.
   */
  function EditForm(r: Report): (form: Form)
    ensures form.Keys == {"title", "ticker", "description", "sector", "date", "methodology",
                          "targetPrice", "upside", "recommendation"}
    ensures forall k :: k in form ==> form[k].Text?
    ensures TextOf(form, "title") == r.title && TextOf(form, "ticker") == r.ticker
    ensures TextOf(form, "description") == r.description && TextOf(form, "sector") == r.sector
    ensures TextOf(form, "date") == r.date && TextOf(form, "methodology") == r.methodology
    ensures TextOf(form, "targetPrice") == r.valuation.targetPrice
    ensures TextOf(form, "upside") == r.valuation.upside
    ensures TextOf(form, "recommendation") == r.valuation.recommendation
  {
    map["title" := Text(r.title), "ticker" := Text(r.ticker), "description" := Text(r.description),
        "sector" := Text(r.sector), "date" := Text(r.date), "methodology" := Text(r.methodology),
        "targetPrice" := Text(r.valuation.targetPrice), "upside" := Text(r.valuation.upside),
        "recommendation" := Text(r.valuation.recommendation)]
  }

  /** Opening a report for editing and saving at once, with no new files, gives back the report. */
  lemma EditRoundTrip(r: Report)
    requires MetricsMirrored(r)
    ensures EditedReport(EditForm(r), r, None, None, None) == r
  {
  }

  /**
   * Opening a report for editing and then saving it from the main form (the
   * report stays the one being edited after the dialog is cancelled) keeps the
   * id but empties every attachment slot no new file was chosen for, and
   * normalises the ticker.
   */
  lemma SubmitWhileEditing(r: Report, now: int, today: string)
    ensures var saved := SubmittedReport(EditForm(r), Some(r), now, today, None, None, None);
      && saved.Some? && saved.value.id == r.id
      && saved.value.pdfUrl == "" && saved.value.excelUrl == "" && saved.value.logoUrl == ""
      && saved.value.ticker == NormalizeTicker(r.ticker)
  {
    var form := EditForm(r);
    assert HasTextTicker(form) && form["ticker"].s == r.ticker;
  }

  /** The collection after a save: the record replaces the edited id's records, or is appended. */
  function Saved(stored: seq<Report>, editing: Option<Report>, r: Report): (out: seq<Report>)
    ensures editing.None? ==> |out| == |stored| + 1 && out[..|stored|] == stored && out[|stored|] == r
    ensures editing.Some? ==> |out| == |stored|
    ensures editing.Some? ==>
      forall i :: 0 <= i < |stored| ==> out[i] == (if stored[i].id == editing.value.id then r else stored[i])
  {
    if editing.Some? then ReplaceById(stored, editing.value.id, r) else stored + [r]
  }

  /**
   * Saves keep ids unique: a create with a fresh id, or an edit whose record
   * keeps the edited id, and looking the id up afterwards finds the new record.
   */
  lemma SavedKeepsUnique(stored: seq<Report>, editing: Option<Report>, r: Report)
    requires UniqueIds(stored)
    requires editing.None? ==> !HasId(stored, r.id)
    requires editing.Some? ==> r.id == editing.value.id && HasId(stored, r.id)
    ensures UniqueIds(Saved(stored, editing, r))
    ensures FindById(Saved(stored, editing, r), r.id) == Some(r)
  {
    if editing.None? {
      AppendFresh(stored, r);
    } else {
      ReplaceKeepsId(stored, r);
    }
  }

  /**
   * The dashboard page's state: the open tab, the report being edited, whether
   * the edit dialog is open, the collection shown, the collection in storage,
   * the form, the chosen files, the logo preview and the status message.
   */
  class Dashboard {
    var tabValue: int
    var editingReport: Option<Report>
    var isEditDialogOpen: bool
    var reports: seq<Report>
    var stored: seq<Report>
    var formData: Form
    var pdfFile: Option<Attachment>
    var excelFile: Option<Attachment>
    var logoFile: Option<Attachment>
    var logoPreview: Option<string>
    var successMessage: string

    /** The page once mounted: the stored collection loaded, everything else at its initial value. */
    constructor(saved: Option<seq<Report>>)
      ensures reports == Load(saved) && stored == Load(saved)
      ensures tabValue == 0 && editingReport.None? && !isEditDialogOpen
      ensures formData == EmptyForm()
      ensures pdfFile.None? && excelFile.None? && logoFile.None? && logoPreview.None?
      ensures successMessage == ""
    {
      tabValue := 0;
      editingReport := None;
      isEditDialogOpen := false;
      reports := Load(saved);
      stored := Load(saved);
      formData := EmptyForm();
      pdfFile, excelFile, logoFile := None, None, None;
      logoPreview := None;
      successMessage := "";
    }

    method HandleTabChange(newValue: int)
      modifies this`tabValue
      ensures tabValue == newValue
    {
      tabValue := newValue;
    }

    /** `handleInputChange`: the addressed field takes the new text. */
    method HandleInputChange(e: ChangeEvent)
      requires ChangeDefined(formData, e)
      modifies this`formData
      ensures formData == ApplyChange(old(formData), e)
      ensures GetPath(formData, ChangedPath(e)) == Some(Text(NewText(e)))
    {
      ChangeSetsAddressed(formData, e);
      formData := ApplyChange(formData, e);
    }

    method HandleArrayInputChange(index: int, field: string, value: string)
      requires IsList(formData, field)
      modifies this`formData
      ensures formData == SetItem(old(formData), index, field, value)
    {
      formData := SetItem(formData, index, field, value);
    }

    method HandleAddArrayItem(field: string)
      requires IsList(formData, field)
      modifies this`formData
      ensures formData == AddItem(old(formData), field)
    {
      formData := AddItem(formData, field);
    }

    method HandleRemoveArrayItem(field: string, index: int)
      requires IsList(formData, field)
      modifies this`formData
      ensures formData == RemoveItem(old(formData), field, index)
    {
      formData := RemoveItem(formData, field, index);
    }

    /**
     * The reader's completion for a chosen file: the attachment goes to the
     * slot the input names; a logo also becomes the preview. Any other kind
     * changes nothing.
     */
    method HandleFileLoaded(kind: string, name: string, result: Option<string>)
      modifies this`pdfFile, this`excelFile, this`logoFile, this`logoPreview
      ensures pdfFile == (if kind == "pdf" then Some(Attachment(name, result)) else old(pdfFile))
      ensures excelFile == (if kind == "excel" then Some(Attachment(name, result)) else old(excelFile))
      ensures logoFile == (if kind == "logo" then Some(Attachment(name, result)) else old(logoFile))
      ensures logoPreview == (if kind == "logo" then result else old(logoPreview))
    {
      if kind == "pdf" {
        pdfFile := Some(Attachment(name, result));
      } else if kind == "excel" {
        excelFile := Some(Attachment(name, result));
      } else if kind == "logo" {
        logoFile := Some(Attachment(name, result));
        logoPreview := result;
      }
    }

    /** The form is blank, nothing is being edited and no file or preview is held. */
    predicate Cleared()
      reads this
    {
      && formData == EmptyForm() && editingReport.None?
      && pdfFile.None? && excelFile.None? && logoFile.None? && logoPreview.None?
    }

    /** The reset both save handlers end with. */
    method ResetForm()
      modifies this`formData, this`editingReport, this`pdfFile, this`excelFile, this`logoFile,
               this`logoPreview
      ensures Cleared()
    {
      formData := EmptyForm();
      editingReport := None;
      pdfFile, excelFile, logoFile := None, None, None;
      logoPreview := None;
    }

    /** `setReports(updated)` and the write of the same collection to storage. */
    method Publish(updated: seq<Report>)
      modifies this`reports, this`stored
      ensures reports == updated && stored == updated
    {
      reports := updated;
      stored := updated;
    }

    /**
     * `handleSubmit`. When the record can be built and storage accepts the
     * write, the saved collection (read from storage, not from the page) gets
     * the record, the form and files are reset and the list tab opens; a
     * failure leaves everything but the message as it was.
     */
    method HandleSubmit(now: int, today: string, writeOk: bool)
      modifies this`reports, this`stored, this`formData, this`editingReport, this`pdfFile,
               this`excelFile, this`logoFile, this`logoPreview, this`successMessage, this`tabValue
      ensures var built := SubmittedReport(old(formData), old(editingReport), now, today,
                                           old(pdfFile), old(excelFile), old(logoFile));
        if built.Some? && writeOk then
          && stored == Saved(old(stored), old(editingReport), built.value)
          && reports == stored
          && Cleared()
          && successMessage == (if old(editingReport).Some? then UpdatedMessage else CreatedMessage)
          && tabValue == 1
        else
          && successMessage == SaveErrorMessage
          && unchanged(this`reports, this`stored, this`formData, this`editingReport, this`pdfFile,
                       this`excelFile, this`logoFile, this`logoPreview, this`tabValue)
    {
      var built := SubmittedReport(formData, editingReport, now, today, pdfFile, excelFile, logoFile);
      if built.None? || !writeOk {
        successMessage := SaveErrorMessage;
        return;
      }
      successMessage := if editingReport.Some? then UpdatedMessage else CreatedMessage;
      tabValue := 1;
      Publish(Saved(stored, editingReport, built.value));
      ResetForm();
    }

    /** `handleEditClick`: the report becomes the one edited, loaded into the form, and the dialog opens. */
    method HandleEditClick(report: Report)
      modifies this`editingReport, this`formData, this`logoPreview, this`isEditDialogOpen
      ensures editingReport == Some(report) && formData == EditForm(report)
      ensures logoPreview == Some(report.logoUrl) && isEditDialogOpen
    {
      editingReport := Some(report);
      formData := EditForm(report);
      logoPreview := Some(report.logoUrl);
      isEditDialogOpen := true;
    }

    /**
     * `handleEditSave`: the page's collection has the edited id's records
     * replaced and is written to storage; the dialog closes and the form and
     * files are reset. Reading `editingReport.id` throws when nothing is being
     * edited.
     */
    method HandleEditSave()
      requires editingReport.Some?
      modifies this`reports, this`stored, this`isEditDialogOpen, this`formData, this`editingReport,
               this`pdfFile, this`excelFile, this`logoFile, this`logoPreview, this`successMessage
      ensures var edited := EditedReport(old(formData), old(editingReport).value,
                                         old(pdfFile), old(excelFile), old(logoFile));
        && reports == ReplaceById(old(reports), old(editingReport).value.id, edited)
        && stored == reports
      ensures !isEditDialogOpen && Cleared()
      ensures successMessage == UpdatedMessage
    {
      var edited := EditedReport(formData, editingReport.value, pdfFile, excelFile, logoFile);
      isEditDialogOpen := false;
      successMessage := UpdatedMessage;
      Publish(ReplaceById(reports, editingReport.value.id, edited));
      ResetForm();
    }

    /** Cancel or closing the dialog: only the dialog closes; the report stays the one being edited. */
    method CloseEditDialog()
      modifies this`isEditDialogOpen
      ensures !isEditDialogOpen
    {
      isEditDialogOpen := false;
    }

    /** `handleDeleteReport`: removes the id's records when the user confirms, else changes nothing. */
    method HandleDeleteReport(reportId: int, confirmed: bool)
      modifies this`reports, this`stored, this`successMessage
      ensures confirmed ==> reports == RemoveById(old(reports), reportId) && stored == reports
                            && successMessage == DeletedMessage
      ensures !confirmed ==> reports == old(reports) && stored == old(stored)
                             && successMessage == old(successMessage)
    {
      if confirmed {
        HandleDelete(reportId);
      }
    }

    /** `handleDelete`: removes the id's records from the page's collection and writes it to storage. */
    method HandleDelete(reportId: int)
      modifies this`reports, this`stored, this`successMessage
      ensures reports == RemoveById(old(reports), reportId) && stored == reports
      ensures successMessage == DeletedMessage
    {
      reports := RemoveById(reports, reportId);
      stored := reports;
      successMessage := DeletedMessage;
    }
  }
}
