/**
  The `@page` stylesheet the report model derives from a paper format and the
  `data-report-*` attributes of the report template (`_paperformat_to_css_rules`).
  Unlike the engine stylesheet of the helpers, it honours margin and
  header-spacing overrides and emits a header padding rule.
 */
module PaperCss {
  import opened Outcomes
  import opened Text
  import opened PyValues
  import opened PaperFormat

  const MarginTopAttribute := "data-report-margin-top"
  const MarginBottomAttribute := "data-report-margin-bottom"
  const HeaderSpacingAttribute := "data-report-header-spacing"

  /** The four margins of the `@page` rule. */
  datatype Margins = Margins(top: PyValue, right: PyValue, bottom: PyValue, left: PyValue)

  /**
    Top and bottom margins may be overridden by a truthy attribute; the right
    and left margins always come from the paper format.
   */
  function PageMargins(paper: Paper, specific: Dict): (m: Margins)
    ensures m.right == paper.marginRight && m.left == paper.marginLeft
    ensures Truthy(Get(specific, MarginTopAttribute)) ==> m.top == Get(specific, MarginTopAttribute)
    ensures !Truthy(Get(specific, MarginTopAttribute)) ==> m.top == paper.marginTop
    ensures Truthy(Get(specific, MarginBottomAttribute)) ==> m.bottom == Get(specific, MarginBottomAttribute)
    ensures !Truthy(Get(specific, MarginBottomAttribute)) ==> m.bottom == paper.marginBottom
  {
    Margins(
      Or(Get(specific, MarginTopAttribute), paper.marginTop),
      paper.marginRight,
      Or(Get(specific, MarginBottomAttribute), paper.marginBottom),
      paper.marginLeft)
  }

  /**
    The header spacing: the attribute when truthy, else the paper's spacing
    when truthy, else 0. The value is emitted as it is, never converted.
   */
  function HeaderSpacing(paper: Paper, specific: Dict): (h: PyValue)
    ensures Truthy(Get(specific, HeaderSpacingAttribute)) ==> h == Get(specific, HeaderSpacingAttribute)
    ensures !Truthy(Get(specific, HeaderSpacingAttribute)) && Truthy(paper.headerSpacing) ==> h == paper.headerSpacing
    ensures !Truthy(Get(specific, HeaderSpacingAttribute)) && !Truthy(paper.headerSpacing) ==> h == PyInt(0)
    ensures Truthy(h) || h == PyInt(0)
  {
    Or(Get(specific, HeaderSpacingAttribute), Or(paper.headerSpacing, PyInt(0)))
  }

  /** `margin: {mt}mm {mr}mm {mb}mm {ml}mm;`. */
  function MarginRule(m: Margins): string
  {
    "margin: " + Render(m.top) + "mm " + Render(m.right) + "mm " + Render(m.bottom) + "mm " + Render(m.left) + "mm;"
  }

  /** `padding-bottom: {header_spacing}mm`. */
  function PaddingRule(spacing: PyValue): string
  {
    "padding-bottom: " + Render(spacing) + "mm"
  }

  /** The stylesheet text around its three variable parts. */
  function RulesTemplate(sizeCss: string, m: Margins, spacing: PyValue): string
  {
    PageRuleOpening + (sizeCss + ("\n            " + (MarginRule(m) + ("\n        }\n        .header { " + (PaddingRule(spacing) + "; }\n        ")))))
  }

  /** `_paperformat_to_css_rules(paper, specific_args, landscape)`. */
  function PaperformatToCssRules(paper: Paper, specific: Dict, landscape: Option<bool>): (r: string)
    ensures r == RulesTemplate(SizeDeclaration(ChooseSize(paper, ResolveLandscape(landscape, specific))),
                               PageMargins(paper, specific), HeaderSpacing(paper, specific))
  {
    var land := ResolveLandscape(landscape, specific);
    var sizeCss := SizeCssAsWritten(paper, land);
    RulesTemplate(sizeCss, PageMargins(paper, specific), HeaderSpacing(paper, specific))
  }

  /** The stylesheet opens with the `@page` rule and the size declaration chosen for the resolved landscape flag. */
  lemma RulesDeclareSize(paper: Paper, specific: Dict, landscape: Option<bool>)
    ensures StartsWith(PaperformatToCssRules(paper, specific, landscape),
                       PageRuleOpening + SizeDeclaration(ChooseSize(paper, ResolveLandscape(landscape, specific))))
  {
    var size := SizeDeclaration(ChooseSize(paper, ResolveLandscape(landscape, specific)));
    var m := PageMargins(paper, specific);
    var h := HeaderSpacing(paper, specific);
    StartsWithLeft(PageRuleOpening, size, "\n            " + (MarginRule(m) + ("\n        }\n        .header { " + (PaddingRule(h) + "; }\n        "))));
  }

  /** The stylesheet declares the resolved margins and the resolved header padding. */
  lemma RulesDeclareMarginsAndSpacing(paper: Paper, specific: Dict, landscape: Option<bool>)
    ensures Contains(PaperformatToCssRules(paper, specific, landscape), MarginRule(PageMargins(paper, specific)))
    ensures Contains(PaperformatToCssRules(paper, specific, landscape), PaddingRule(HeaderSpacing(paper, specific)))
  {
    var size := SizeDeclaration(ChooseSize(paper, ResolveLandscape(landscape, specific)));
    var m := MarginRule(PageMargins(paper, specific));
    var p := PaddingRule(HeaderSpacing(paper, specific));
    var tail := "; }\n        ";
    var header := "\n        }\n        .header { ";
    ContainsLeft(p, tail);
    ContainsInRight(header, p + tail, p);
    ContainsInRight(m, header + (p + tail), p);
    ContainsLeft(m, header + (p + tail));
    ContainsInRight("\n            ", m + (header + (p + tail)), m);
    ContainsInRight("\n            ", m + (header + (p + tail)), p);
    ContainsInRight(size, "\n            " + (m + (header + (p + tail))), m);
    ContainsInRight(size, "\n            " + (m + (header + (p + tail))), p);
    ContainsInRight(PageRuleOpening, size + ("\n            " + (m + (header + (p + tail)))), m);
    ContainsInRight(PageRuleOpening, size + ("\n            " + (m + (header + (p + tail)))), p);
  }

  /** The paper format used by the report tests: A4, no dimensions, margins 10/15/7/7, header spacing 3. */
  const TestPaper := Paper(PyStr("A4"), PyNone, PyNone, PyInt(10), PyInt(15), PyInt(7), PyInt(7), PyInt(3))

  /** Portrait A4 with a header-spacing attribute of 5: `size: A4;` and `padding-bottom: 5mm`. */
  lemma PortraitA4WithHeaderSpacing()
    ensures Contains(PaperformatToCssRules(TestPaper, map[HeaderSpacingAttribute := PyInt(5)], Some(false)), "size: A4;")
    ensures Contains(PaperformatToCssRules(TestPaper, map[HeaderSpacingAttribute := PyInt(5)], Some(false)), "padding-bottom: 5mm")
  {
    var specific := map[HeaderSpacingAttribute := PyInt(5)];
    RulesDeclareSize(TestPaper, specific, Some(false));
    RulesDeclareMarginsAndSpacing(TestPaper, specific, Some(false));
    TestPaperSize();
    ContainsAfterPrefix(PaperformatToCssRules(TestPaper, specific, Some(false)), PageRuleOpening, "size: A4;");
    SpacingFromAttribute();
  }

  /** No explicit flag and a `data-report-landscape` attribute of True: `size: A4 landscape;`. */
  lemma LandscapeA4FromAttribute()
    ensures Contains(PaperformatToCssRules(TestPaper, map[LandscapeAttribute := PyBool(true)], None), "size: A4 landscape;")
  {
    var specific := map[LandscapeAttribute := PyBool(true)];
    RulesDeclareSize(TestPaper, specific, None);
    assert ResolveLandscape(None, specific);
    TestPaperSize();
    ContainsAfterPrefix(PaperformatToCssRules(TestPaper, specific, None), PageRuleOpening, "size: A4 landscape;");
  }

  /** The test paper's size declarations: by format name, with the landscape keyword when rotated. */
  lemma TestPaperSize()
    ensures SizeDeclaration(ChooseSize(TestPaper, false)) == "size: A4;"
    ensures SizeDeclaration(ChooseSize(TestPaper, true)) == "size: A4 landscape;"
  {
    assert Render(PyStr("A4")) == "A4";
  }

  /** A header-spacing attribute of 5 gives `padding-bottom: 5mm`. */
  lemma SpacingFromAttribute()
    ensures PaddingRule(HeaderSpacing(TestPaper, map[HeaderSpacingAttribute := PyInt(5)])) == "padding-bottom: 5mm"
  {
    assert Render(PyInt(5)) == "5";
  }
}
