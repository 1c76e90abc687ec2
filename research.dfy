/**
 * The public research list: the sector chips, the sector filter, the links
 * of each report card and the message shown when no card is left.
 */
module Research {
  import opened Wrappers
  import opened Strings
  import opened Sequences
  import opened Reports
  import opened Routes

  /** The chip that selects every report. */
  const AllSectors := "all"

  /** `reports.map(report => report.sector)`. */
  function Sectors(rs: seq<Report>): (ss: seq<string>)
    ensures |ss| == |rs|
    ensures forall i :: 0 <= i < |rs| ==> ss[i] == rs[i].sector
  {
    seq(|rs|, i requires 0 <= i < |rs| => rs[i].sector)
  }

  /**
   * `['all', ...new Set(sectors)]`: the "all" chip, then each report's sector
   * once, every chip after the first naming the sector of some report.
   */
  function SectorChips(rs: seq<Report>): (chips: seq<string>)
    ensures |chips| >= 1 && chips[0] == AllSectors
    ensures forall i :: 0 <= i < |rs| ==> rs[i].sector in chips[1..]
    ensures forall i :: 1 <= i < |chips| ==> chips[i] in Sectors(rs)
    ensures NoDuplicates(chips[1..])
  {
    var ds := Distinct(Sectors(rs));
    assert ([AllSectors] + ds)[1..] == ds;
    [AllSectors] + ds
  }

  /** The chips after "all" follow the order in which their sectors first occur in the list. */
  lemma SectorChipsOrder(rs: seq<Report>)
    ensures forall i, j :: 1 <= i < j < |SectorChips(rs)| ==>
      FirstIndex(Sectors(rs), SectorChips(rs)[i]) < FirstIndex(Sectors(rs), SectorChips(rs)[j])
  {
    var ds := Distinct(Sectors(rs));
    DistinctOrder(Sectors(rs));
    assert forall i :: 1 <= i < |SectorChips(rs)| ==> SectorChips(rs)[i] == ds[i - 1];
  }

  /** When no report is filed under "all", no chip appears twice. */
  lemma SectorChipsUnique(rs: seq<Report>)
    requires forall i :: 0 <= i < |rs| ==> rs[i].sector != AllSectors
    ensures NoDuplicates(SectorChips(rs))
  {
    var chips := SectorChips(rs);
    forall i, j | 0 <= i < j < |chips| ensures chips[i] != chips[j] {
      if i == 0 {
        assert chips[j] in Sectors(rs);
      } else {
        assert chips[1..][i - 1] == chips[i] && chips[1..][j - 1] == chips[j];
      }
    }
  }

  /** `filteredReports`: every report for "all", otherwise the reports filed under the selected sector. */
  function FilterBySector(rs: seq<Report>, selected: string): (shown: seq<Report>)
    ensures |shown| <= |rs|
    ensures selected != AllSectors ==> forall i :: 0 <= i < |shown| ==> shown[i].sector == selected
  {
    if selected == AllSectors then rs else Keep(rs, (r: Report) => r.sector == selected)
  }

  /**
   * Filtering by a sector keeps exactly the reports filed under it, each as
   * often as it occurs and in the original order; "all" keeps the list as it is.
   */
  lemma FilterSpec(rs: seq<Report>, selected: string)
    ensures selected == AllSectors ==> FilterBySector(rs, selected) == rs
    ensures forall r :: r in FilterBySector(rs, selected) <==> r in rs && (selected == AllSectors || r.sector == selected)
    ensures forall r :: selected != AllSectors ==>
      multiset(FilterBySector(rs, selected))[r] == if r.sector == selected then multiset(rs)[r] else 0
    ensures Subsequence(FilterBySector(rs, selected), rs)
  {
    var p := (r: Report) => r.sector == selected;
    if selected == AllSectors {
      KeepAll(rs, (r: Report) => true);
      KeepSubsequence(rs, (r: Report) => true);
    } else {
      forall r ensures r in FilterBySector(rs, selected) <==> r in rs && r.sector == selected {
        KeepMembers(rs, p, r);
      }
      forall r ensures multiset(FilterBySector(rs, selected))[r] == if r.sector == selected then multiset(rs)[r] else 0 {
        KeepCount(rs, p, r);
      }
      KeepSubsequence(rs, p);
    }
  }

  /** Every chip other than "all" selects at least one report. */
  lemma ChipsSelectSomething(rs: seq<Report>, i: int)
    requires 1 <= i < |SectorChips(rs)|
    ensures FilterBySector(rs, SectorChips(rs)[i]) != []
  {
    var sector := SectorChips(rs)[i];
    var k :| 0 <= k < |Sectors(rs)| && Sectors(rs)[k] == sector;
    FilterSpec(rs, sector);
    assert rs[k] in FilterBySector(rs, sector);
  }

  /** The card button's link: a `data:` URL as it is, any other URL made absolute with a leading slash. */
  function Href(url: string): (h: string)
    ensures StartsWith(url, "data:") ==> h == url
    ensures !StartsWith(url, "data:") ==> h == "/" + url
  {
    if StartsWith(url, "data:") then url else "/" + url
  }

  /** The link always ends with the stored URL, and is a `data:` URL exactly when the stored one is. */
  lemma HrefKeepsUrl(url: string)
    ensures |Href(url)| >= |url| && Href(url)[|Href(url)| - |url|..] == url
    ensures StartsWith(Href(url), "data:") <==> StartsWith(url, "data:")
  {
    if !StartsWith(url, "data:") {
      assert Href(url)[0] == '/';
    }
  }

  /** A forced download: the link and the file name it is saved under. */
  datatype Download = Download(href: string, fileName: string)

  /**
   * A card button's click: for a `data:` URL, a download of the URL under the
   * button's fixed file name; otherwise nothing beyond following the link.
   */
  function CardDownload(url: string, fileName: string): (d: Option<Download>)
    ensures d.Some? <==> StartsWith(url, "data:")
    ensures d.Some? ==> d.value == Download(Href(url), fileName)
  {
    if StartsWith(url, "data:") then Some(Download(url, fileName)) else None
  }

  /** The two buttons of a report card. */
  datatype Button = ViewReport | ViewModel

  /** The stored URL a button links to. */
  function ButtonUrl(r: Report, b: Button): string {
    match b
    case ViewReport => r.pdfUrl
    case ViewModel => r.excelUrl
  }

  /** The fixed name a button saves a `data:` URL under. */
  function ButtonFileName(b: Button): string {
    match b
    case ViewReport => "report.pdf"
    case ViewModel => "model.xlsx"
  }

  /**
   * Clicking a card's button: the report button downloads a `data:` PDF as
   * `report.pdf`, the model button a `data:` workbook as `model.xlsx`; other
   * URLs are only followed.
   */
  function ButtonClick(r: Report, b: Button): (d: Option<Download>)
    ensures d.Some? <==> StartsWith(ButtonUrl(r, b), "data:")
    ensures d.Some? ==> d.value.href == ButtonUrl(r, b)
    ensures d.Some? && b == ViewReport ==> d.value.fileName == "report.pdf"
    ensures d.Some? && b == ViewModel ==> d.value.fileName == "model.xlsx"
  {
    CardDownload(ButtonUrl(r, b), ButtonFileName(b))
  }

  /** The two buttons of one card never save under the same name. */
  lemma ButtonsSaveApart(r: Report)
    requires ButtonClick(r, ViewReport).Some? && ButtonClick(r, ViewModel).Some?
    ensures ButtonClick(r, ViewReport).value.fileName != ButtonClick(r, ViewModel).value.fileName
  {
    assert "report.pdf"[0] != "model.xlsx"[0];
  }

  /**
   * The text under "No Reports Found", shown only when the filter leaves no
   * report: a generic note for "all", otherwise one naming the sector.
   */
  function EmptyStateMessage(rs: seq<Report>, selected: string): (m: Option<string>)
    ensures m.Some? <==> FilterBySector(rs, selected) == []
    ensures m.Some? && selected == AllSectors ==> m.value == "Research reports and analysis will be added shortly"
    ensures m.Some? && selected != AllSectors ==>
      m.value == "No reports available in the " + selected + " sector"
  {
    if FilterBySector(rs, selected) != [] then None
    else if selected == AllSectors then Some("Research reports and analysis will be added shortly")
    else Some("No reports available in the " + selected + " sector")
  }

  /** With "all" selected the empty state appears exactly when there are no reports. */
  lemma EmptyStateForAll(rs: seq<Report>)
    ensures EmptyStateMessage(rs, AllSectors).Some? <==> rs == []
  {
  }

  /** Selecting any chip after "all" never shows the empty state. */
  lemma ChipNeverEmpty(rs: seq<Report>, i: int)
    requires 1 <= i < |SectorChips(rs)|
    ensures EmptyStateMessage(rs, SectorChips(rs)[i]).None?
  {
    ChipsSelectSomething(rs, i);
  }

  /** The path under which the detail page reads a report's id. */
  const RoutePrefix := "/research/"

  /**
   * `/research/${id}`: the detail route a card opens; the segment after the
   * prefix reads back as the card's id.
   */
  function CardRoute(id: int): (route: string)
    ensures StartsWith(route, RoutePrefix)
    ensures ParseInt(route[|RoutePrefix|..]) == Some(id)
  {
    var route := RoutePrefix + IdSegment(id);
    assert route[|RoutePrefix|..] == IdSegment(id);
    ParseIdSegment(id);
    route
  }

}
