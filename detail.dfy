/**
 * The analysis detail page: finding the report named by the route, the
 * colours of its upside and recommendation, and the names its attachments
 * download under.
 */
module AnalysisDetail {
  import opened Wrappers
  import opened Strings
  import opened Reports
  import opened Routes
  import opened Research

  /**
   * The report the page shows for the route's id segment: the first stored
   * report whose id equals the segment read as an integer; None (the
   * "Analysis not found" view) when the segment is not a number or no report
   * carries that id.
   */
  function LookupReport(rs: seq<Report>, segment: string): (found: Option<Report>)
    ensures found.None? <==> ParseInt(segment).None? || !HasId(rs, ParseInt(segment).value)
    ensures found.Some? ==> ParseInt(segment).Some?
    ensures found.Some? ==> exists i :: FirstWithId(rs, ParseInt(segment).value, i) && rs[i] == found.value
  {
    match ParseInt(segment)
    case None => None
    case Some(id) => FindById(rs, id)
  }

  /** Opening a card's route shows that very card's report, when ids are unique. */
  lemma CardRouteFindsReport(rs: seq<Report>, r: Report)
    requires UniqueIds(rs) && r in rs
    ensures LookupReport(rs, CardRoute(r.id)[|RoutePrefix|..]) == Some(r)
  {
    FindUnique(rs, r);
  }

  /** A segment naming no stored id shows "Analysis not found". */
  lemma UnknownIdNotFound(rs: seq<Report>, id: int)
    requires !HasId(rs, id)
    ensures LookupReport(rs, IdSegment(id)).None?
  {
    ParseIdSegment(id);
  }

  /** The palette entries the page colours its chips and figures with. */
  datatype Colour = Success | Error | Warning

  /** The upside figure is red when it contains a minus sign, green otherwise. */
  function UpsideColour(upside: string): (c: Colour)
    ensures c != Warning
    ensures c == Error <==> '-' in upside
  {
    IncludesChar(upside, '-');
    if Includes(upside, "-") then Error else Success
  }

  /**
   * The recommendation chip: green when the lower-cased text mentions "buy",
   * otherwise red when it mentions "sell", otherwise amber.
   */
  function RecommendationColour(recommendation: string): (c: Colour)
    ensures Includes(Lower(recommendation), "buy") ==> c == Success
  {
    var text := Lower(recommendation);
    if Includes(text, "buy") then Success
    else if Includes(text, "sell") then Error
    else Warning
  }

  /** The colour does not depend on the letter case of the recommendation. */
  lemma RecommendationIgnoresCase(recommendation: string)
    ensures RecommendationColour(Upper(recommendation)) == RecommendationColour(recommendation)
  {
    LowerOfUpper(recommendation);
  }

  /** Text lacking the first letter of `sub` cannot include `sub`. */
  lemma {:induction false} MissingFirstLetter(s: string, sub: string)
    requires |sub| > 0 && sub[0] !in s
    ensures !Includes(s, sub)
  {
    forall i | 0 <= i && i + |sub| <= |s| ensures !OccursAt(s, sub, i) {
      assert s[i..i + |sub|][0] == s[i];
    }
    IncludesIff(s, sub);
  }

  /** The editor's "Strong Buy" and "Buy" are shown green. */
  lemma BuyIsSuccess()
    ensures RecommendationColour("Strong Buy") == Success
    ensures RecommendationColour("Buy") == Success
  {
    assert Lower("Strong Buy") == "strong " + "buy";
    IncludesConcat("strong ", "buy", "buy");
    assert Lower("Buy") == "buy";
  }

  /** The editor's "Hold" is shown amber. */
  lemma HoldIsWarning()
    ensures RecommendationColour("Hold") == Warning
  {
    assert Lower("Hold") == "hold";
    MissingFirstLetter("hold", "buy");
    MissingFirstLetter("hold", "sell");
  }

  /** The editor's "Sell" is shown red. */
  lemma SellIsError()
    ensures RecommendationColour("Sell") == Error
  {
    assert Lower("Sell") == "sell";
    MissingFirstLetter("sell", "buy");
  }

  /** The editor's "Strong Sell" is shown red. */
  lemma StrongSellIsError()
    ensures RecommendationColour("Strong Sell") == Error
  {
    var text := Lower("Strong Sell");
    assert text == "strong " + "sell";
    assert 'b' !in text;
    MissingFirstLetter(text, "buy");
    IncludesConcat("strong ", "sell", "sell");
  }

  /** The name the research report downloads under. */
  function ReportFileName(title: string): (name: string)
    ensures StartsWith(name, title)
    ensures name[|title|..] == " - Research Report.pdf"
  {
    title + " - Research Report.pdf"
  }

  /** The name the financial model downloads under. */
  function ModelFileName(title: string): (name: string)
    ensures StartsWith(name, title)
    ensures name[|title|..] == " - Financial Model.xlsx"
  {
    title + " - Financial Model.xlsx"
  }

  /**
   * Different titles give different download names, and a report's PDF never
   * shares its name with any model workbook.
   */
  lemma FileNamesDistinct(a: string, b: string)
    ensures ReportFileName(a) == ReportFileName(b) ==> a == b
    ensures ModelFileName(a) == ModelFileName(b) ==> a == b
    ensures ReportFileName(a) != ModelFileName(b)
  {
    if ReportFileName(a) == ReportFileName(b) {
      assert |a| == |b|;
      assert a == ReportFileName(a)[..|a|];
    }
    if ModelFileName(a) == ModelFileName(b) {
      assert |a| == |b|;
      assert a == ModelFileName(a)[..|a|];
    }
    var p, m := ReportFileName(a), ModelFileName(b);
    assert p[|p| - 1] == 'f' && m[|m| - 1] == 'x';
  }

  /** The avatar letter: the title's first character, or nothing for an empty title. */
  function AvatarInitial(title: string): (initial: string)
    ensures StartsWith(title, initial)
    ensures |initial| == if title == [] then 0 else 1
  {
    if title == [] then "" else [title[0]]
  }
}
