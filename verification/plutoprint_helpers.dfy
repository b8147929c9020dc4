/**
  Pure helpers of the rendering adapter: the engine stylesheet built from a paper
  format, and the splicing of a `<style>` element right after the first `<head>`
  of an HTML document. The report model carries an in-method copy of the
  splicing helper with the same text; InjectCss models both.
 */
module PlutoprintHelpers {
  import opened Outcomes
  import opened Text
  import opened PyValues
  import opened PaperFormat

  /**
    The stylesheet sent to the engine: the `@page` rule with the size
    declaration and the margins (top and bottom default to 2), then fixed rules
    that flatten the report header and hide the page counters.
   */
  function EngineCssTemplate(sizeCss: string, mr: PyValue, ml: PyValue, mt: PyValue := PyInt(2), mb: PyValue := PyInt(2)): string
  {
    PageRuleOpening + (sizeCss + ("\n            " + (MarginDeclaration(mt, mr, mb, ml) + EngineCssFixedRules)))
  }

  /** The closing of the `@page` rule and the fixed header and page-counter rules. */
  const EngineCssFixedRules :=
    PageRuleClosing + (HeaderListRule + (HeaderRowRule + (HeaderFlexRule + (HeaderImageRule + (PageCounterRule + (PageAfterRule + TopageAfterRule))))))

  /** Closes the `@page` rule. */
  const PageRuleClosing := "\n        }\n\n"

  /** Header lists keep no bottom margin. */
  const HeaderListRule := "        .header ul { margin-bottom: 0 !important; }\n\n"

  /** Header rows keep no bottom margin. */
  const HeaderRowRule := "        .header .row { margin-bottom: 0 !important; }\n\n"

  /** Header flex boxes start at the left. */
  const HeaderFlexRule := "        .header .d-flex {\n            justify-content: flex-start !important;\n        }\n"

  /** The header logo sits at the top left. */
  const HeaderImageRule := "        .header img {\n            margin-left: 0 !important;\n            margin-right: auto !important;\n            align-self: flex-start !important;\n        }\n\n"

  /** The `page / topage` counter is hidden. */
  const PageCounterRule := "        .page .topage{\n            display:none !important;\n        }\n\n"

  /** Generated content after the page number is hidden. */
  const PageAfterRule := "        .page::after {\n            display:none;\n        }\n\n"

  /** Generated content after the page total is hidden. */
  const TopageAfterRule := "        .topage::after {\n            display:none;\n        }\n        "

  /** `margin: {mt}mm {mr}mm {mb}mm {ml}mm;`, in CSS order top, right, bottom, left. */
  function MarginDeclaration(mt: PyValue, mr: PyValue, mb: PyValue, ml: PyValue): string
  {
    "margin: " + Render(mt) + "mm " + Render(mr) + "mm " + Render(mb) + "mm " + Render(ml) + "mm;"
  }

  /** The template opens with the `@page` rule and the size declaration it is given. */
  lemma TemplateOpensWithSize(sizeCss: string, mr: PyValue, ml: PyValue)
    ensures StartsWith(EngineCssTemplate(sizeCss, mr, ml), PageRuleOpening + sizeCss)
  {
    StartsWithLeft(PageRuleOpening, sizeCss, "\n            " + (MarginDeclaration(PyInt(2), mr, PyInt(2), ml) + EngineCssFixedRules));
  }

  /** The template declares the margins it is given, in CSS order. */
  lemma TemplateDeclaresMargins(sizeCss: string, mr: PyValue, ml: PyValue)
    ensures Contains(EngineCssTemplate(sizeCss, mr, ml), MarginDeclaration(PyInt(2), mr, PyInt(2), ml))
  {
    var m := MarginDeclaration(PyInt(2), mr, PyInt(2), ml);
    ContainsLeft(m, EngineCssFixedRules);
    ContainsInRight("\n            ", m + EngineCssFixedRules, m);
    ContainsInRight(sizeCss, "\n            " + (m + EngineCssFixedRules), m);
    ContainsInRight(PageRuleOpening, sizeCss + ("\n            " + (m + EngineCssFixedRules)), m);
  }

  /**
    The engine stylesheet for a paper format: the size chosen for the resolved
    landscape flag, 2mm top and bottom margins, the paper's right and left margins.
   */
  function BuildEngineCss(paper: Paper, specific: Dict, landscape: Option<bool>): (r: string)
    ensures r == EngineCssTemplate(SizeDeclaration(ChooseSize(paper, ResolveLandscape(landscape, specific))),
                                   paper.marginRight, paper.marginLeft)
  {
    var land := ResolveLandscape(landscape, specific);
    var sizeCss := SizeCssAsWritten(paper, land);
    EngineCssTemplate(sizeCss, paper.marginRight, paper.marginLeft)
  }

  /** The engine stylesheet opens with the `@page` rule and the chosen size declaration. */
  lemma EngineCssDeclaresSize(paper: Paper, specific: Dict, landscape: Option<bool>)
    ensures StartsWith(BuildEngineCss(paper, specific, landscape),
                       PageRuleOpening + SizeDeclaration(ChooseSize(paper, ResolveLandscape(landscape, specific))))
  {
    TemplateOpensWithSize(SizeDeclaration(ChooseSize(paper, ResolveLandscape(landscape, specific))), paper.marginRight, paper.marginLeft);
  }

  /**
    The engine stylesheet always asks for 2mm top and bottom margins and takes
    the right and left margins from the paper format.
   */
  lemma EngineCssMargins(paper: Paper, specific: Dict, landscape: Option<bool>)
    ensures Contains(BuildEngineCss(paper, specific, landscape),
                     "margin: 2mm " + Render(paper.marginRight) + "mm 2mm " + Render(paper.marginLeft) + "mm;")
  {
    TemplateDeclaresMargins(SizeDeclaration(ChooseSize(paper, ResolveLandscape(landscape, specific))), paper.marginRight, paper.marginLeft);
    DefaultMargins(paper.marginRight, paper.marginLeft);
  }

  /** The default top and bottom margins render as `2mm`. */
  lemma DefaultMargins(mr: PyValue, ml: PyValue)
    ensures MarginDeclaration(PyInt(2), mr, PyInt(2), ml) == "margin: 2mm " + Render(mr) + "mm 2mm " + Render(ml) + "mm;"
  {
    RenderTwo();
  }

  /** `f"{2}"` is `2`. */
  lemma RenderTwo()
    ensures Render(PyInt(2)) == "2"
  {
  }

  /**
    Only the format, the page dimensions, the right and left margins and the
    landscape flag reach the engine stylesheet: the top and bottom margins,
    the header spacing of the paper and every other attribute are ignored.
   */
  lemma EngineCssIgnoresOtherSettings(p1: Paper, p2: Paper, s1: Dict, s2: Dict, landscape: Option<bool>)
    requires p1.format == p2.format && p1.pageWidth == p2.pageWidth && p1.pageHeight == p2.pageHeight
    requires p1.marginRight == p2.marginRight && p1.marginLeft == p2.marginLeft
    requires Get(s1, LandscapeAttribute) == Get(s2, LandscapeAttribute)
    ensures BuildEngineCss(p1, s1, landscape) == BuildEngineCss(p2, s2, landscape)
  {
    var land := ResolveLandscape(landscape, s1);
    assert land == ResolveLandscape(landscape, s2);
    var size := SizeDeclaration(ChooseSize(p1, land));
    assert size == SizeDeclaration(ChooseSize(p2, land));
    assert BuildEngineCss(p1, s1, landscape) == EngineCssTemplate(size, p1.marginRight, p1.marginLeft);
  }

  const HeadMarker := "<head>"

  /** `"<style>" + "\n".join(css_list) + "</style>"`. */
  function StyleBlock(cssList: seq<string>): (r: string)
    ensures |r| == 15 + |Join(cssList, "\n")|
    ensures |cssList| == 0 ==> r == "<style></style>"
    ensures |cssList| == 1 ==> r == "<style>" + cssList[0] + "</style>"
  {
    "<style>" + Join(cssList, "\n") + "</style>"
  }

  /**
    Splices the style block right after the first `<head>` of `doc`; a document
    without `<head>` comes back unchanged.
   */
  function InjectCss(doc: string, cssList: seq<string>): (r: string)
    ensures !Contains(doc, HeadMarker) ==> r == doc
    ensures Contains(doc, HeadMarker) ==> |r| == |doc| + |StyleBlock(cssList)|
  {
    var pos := Find(doc, HeadMarker);
    if pos != -1 then
      var cut := pos + |HeadMarker|;
      doc[..cut] + StyleBlock(cssList) + doc[cut..]
    else doc
  }

  /**
    Whatever way a document is split around its first `<head>`, the result is
    the text through that `<head>`, then the style block, then the rest
    untouched, later `<head>` tags included.
   */
  lemma InjectAfterFirstHead(doc: string, cssList: seq<string>, before: string, after: string)
    requires doc == before + HeadMarker + after
    requires forall i :: 0 <= i < |before| ==> !OccursAt(doc, HeadMarker, i)
    ensures InjectCss(doc, cssList) == before + HeadMarker + StyleBlock(cssList) + after
  {
    assert doc[|before|..|before| + |HeadMarker|] == HeadMarker;
    assert OccursAt(doc, HeadMarker, |before|);
    var pos := Find(doc, HeadMarker);
    assert pos == |before|;
    assert doc[..pos + |HeadMarker|] == before + HeadMarker;
    assert doc[pos + |HeadMarker|..] == after;
  }

  /**
    The injection can be undone: cutting the style block out of the result at
    the end of the first `<head>` gives back the original document.
   */
  lemma InjectionIsRemovable(doc: string, cssList: seq<string>)
    requires Contains(doc, HeadMarker)
    ensures var cut := Find(doc, HeadMarker) + |HeadMarker|;
            var r := InjectCss(doc, cssList);
            cut + |StyleBlock(cssList)| <= |r|
            && r[..cut] + r[cut + |StyleBlock(cssList)|..] == doc
  {
    var cut := Find(doc, HeadMarker) + |HeadMarker|;
    var r := InjectCss(doc, cssList);
    var block := StyleBlock(cssList);
    assert r == doc[..cut] + block + doc[cut..];
    assert r[..cut] == doc[..cut];
    assert r[cut + |block|..] == doc[cut..];
  }

  /**
    The first `<head>` of the result is where it was in the document, so a
    second injection lands right after the same tag, ahead of the first block.
   */
  lemma FirstHeadPreserved(doc: string, cssList: seq<string>)
    requires Contains(doc, HeadMarker)
    ensures Find(InjectCss(doc, cssList), HeadMarker) == Find(doc, HeadMarker)
  {
    var pos := Find(doc, HeadMarker);
    var cut := pos + |HeadMarker|;
    var r := InjectCss(doc, cssList);
    assert r[..cut] == doc[..cut];
    assert OccursAt(r, HeadMarker, pos) by {
      assert r[pos..pos + |HeadMarker|] == doc[pos..pos + |HeadMarker|];
    }
    forall i | 0 <= i < pos
      ensures !OccursAt(r, HeadMarker, i)
    {
      assert !OccursAt(doc, HeadMarker, i);
      assert r[i..i + |HeadMarker|] == r[..cut][i..i + |HeadMarker|];
      assert doc[i..i + |HeadMarker|] == doc[..cut][i..i + |HeadMarker|];
    }
    var q := Find(r, HeadMarker);
    assert q != -1;
    assert q == pos;
  }

  /** The in-method copy always receives exactly one stylesheet, which is spliced in verbatim. */
  lemma InjectSingleStylesheet(doc: string, css: string)
    requires Contains(doc, HeadMarker)
    ensures var cut := Find(doc, HeadMarker) + |HeadMarker|;
            InjectCss(doc, [css]) == doc[..cut] + "<style>" + css + "</style>" + doc[cut..]
  {
  }
}
