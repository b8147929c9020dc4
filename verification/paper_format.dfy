/**
  The paper format of a report and the `size:` declaration of the CSS `@page`
  rule derived from it. Both CSS builders (`_paperformat_to_css_rules` of the
  report model and `build_engine_css` of the helpers) resolve the landscape flag
  and choose the size in the same way; that shared logic lives here.
 */
module PaperFormat {
  import opened Outcomes
  import opened PyValues

  /** The fields of a paper-format record that the CSS builders read. */
  datatype Paper = Paper(
    format: PyValue,
    pageWidth: PyValue,
    pageHeight: PyValue,
    marginTop: PyValue,
    marginBottom: PyValue,
    marginLeft: PyValue,
    marginRight: PyValue,
    headerSpacing: PyValue)

  const LandscapeAttribute := "data-report-landscape"

  /** The opening of the `@page` rule up to the size declaration, shared by both templates. */
  const PageRuleOpening := "\n        @page {\n            "

  /** Python's `v in (True, "True", "true", "1")`; `==` makes 1 and 1.0 match `True`. */
  predicate IsLandscapeValue(v: PyValue)
  {
    EqualsTrue(v) || v == PyStr("True") || v == PyStr("true") || v == PyStr("1")
  }

  /**
    The effective landscape flag: the explicit argument when it is given;
    otherwise the `data-report-landscape` attribute, but only when it is truthy
    and one of the accepted spellings of true. A missing flag stays `None`,
    which every later test reads as false.
   */
  function ResolveLandscape(landscape: Option<bool>, specific: Dict): (r: bool)
    ensures landscape.Some? ==> r == landscape.value
    ensures landscape.None? ==> (r <==> IsLandscapeValue(Get(specific, LandscapeAttribute)))
  {
    match landscape
    case Some(b) => b
    case None =>
      var v := Get(specific, LandscapeAttribute);
      Truthy(v) && IsLandscapeValue(v)
  }

  /** `paper.format and paper.format != "custom"`. */
  predicate IsNamedFormat(format: PyValue)
  {
    Truthy(format) && format != PyStr("custom")
  }

  /** `paper.page_width and paper.page_height`. */
  predicate HasDimensions(paper: Paper)
  {
    Truthy(paper.pageWidth) && Truthy(paper.pageHeight)
  }

  /** What the `size:` declaration says, independent of how it is spelt. */
  datatype SizeSpec =
    | Named(format: PyValue, landscape: bool)
    | Dims(width: PyValue, height: PyValue)
    | NoSize

  /** The size a paper format asks for: its name, else its dimensions (turned under landscape), else none. */
  function ChooseSize(paper: Paper, landscape: bool): SizeSpec
  {
    if IsNamedFormat(paper.format) then Named(paper.format, landscape)
    else if HasDimensions(paper) then
      if landscape then Dims(paper.pageHeight, paper.pageWidth) else Dims(paper.pageWidth, paper.pageHeight)
    else NoSize
  }

  /** The CSS text of a size declaration. */
  function SizeDeclaration(spec: SizeSpec): string
  {
    match spec
    case Named(f, land) => "size: " + Render(f) + (if land then " landscape;" else ";")
    case Dims(w, h) => "size: " + Render(w) + "mm " + Render(h) + "mm;"
    case NoSize => ""
  }

  /**
    The size declaration computed as both CSS builders compute it: first from
    the format or the dimensions, then overwritten when landscape is set.
    It agrees with the declarative choice of ChooseSize.
   */
  function SizeCssAsWritten(paper: Paper, landscape: bool): (r: string)
    ensures r == SizeDeclaration(ChooseSize(paper, landscape))
  {
    var initial :=
      if IsNamedFormat(paper.format) then "size: " + Render(paper.format) + ";"
      else if HasDimensions(paper) then
        var w := Render(paper.pageWidth) + "mm";
        var h := Render(paper.pageHeight) + "mm";
        "size: " + w + " " + h + ";"
      else "";
    if IsNamedFormat(paper.format) && landscape then "size: " + Render(paper.format) + " landscape;"
    else if landscape && HasDimensions(paper) then
      var w := Render(paper.pageHeight) + "mm";
      var h := Render(paper.pageWidth) + "mm";
      "size: " + w + " " + h + ";"
    else initial
  }

  /** A named format other than `custom` wins over dimensions and is never turned; landscape only adds a keyword. */
  lemma NamedFormatSize(paper: Paper, landscape: bool)
    requires IsNamedFormat(paper.format)
    ensures SizeCssAsWritten(paper, false) == "size: " + Render(paper.format) + ";"
    ensures SizeCssAsWritten(paper, true) == "size: " + Render(paper.format) + " landscape;"
  {
  }

  /** Without a usable name, landscape swaps the width and the height of the page. */
  lemma CustomSizeSwapsUnderLandscape(paper: Paper)
    requires !IsNamedFormat(paper.format) && HasDimensions(paper)
    ensures SizeCssAsWritten(paper, false) == "size: " + Render(paper.pageWidth) + "mm " + Render(paper.pageHeight) + "mm;"
    ensures SizeCssAsWritten(paper, true) == "size: " + Render(paper.pageHeight) + "mm " + Render(paper.pageWidth) + "mm;"
  {
  }

  /** With neither a usable name nor both dimensions there is no size declaration at all. */
  lemma NoSizeWithoutFormatOrDimensions(paper: Paper, landscape: bool)
    requires !IsNamedFormat(paper.format) && !HasDimensions(paper)
    ensures SizeCssAsWritten(paper, landscape) == ""
  {
  }
}
