/**
  `_merge_streams`: the pages of every stream, stream after stream and in
  page order within each, written into one new document. A document is
  modelled by its sequence of pages; reading and writing PDF bytes is not.
 */
module PdfMerge {

  /** One page, as the reader hands it to the writer. */
  datatype Page = Page(content: string)

  /** A PDF document, seen as its pages. */
  datatype Pdf = Pdf(pages: seq<Page>)

  /** The pages of several documents, one document after the other. */
  function AllPages(docs: seq<Pdf>): seq<Page>
  {
    if |docs| == 0 then [] else AllPages(docs[..|docs| - 1]) + docs[|docs| - 1].pages
  }

  /** The total number of pages, counted document by document from the front. */
  function PageCount(docs: seq<Pdf>): nat
  {
    if |docs| == 0 then 0 else |docs[0].pages| + PageCount(docs[1..])
  }

  /** The pages of a concatenation are the pages of each part in turn. */
  lemma {:induction false} AllPagesAppend(a: seq<Pdf>, b: seq<Pdf>)
    ensures AllPages(a + b) == AllPages(a) + AllPages(b)
    decreases |b|
  {
    if |b| == 0 {
      assert a + b == a;
    } else {
      var init := b[..|b| - 1];
      assert (a + b)[..|a + b| - 1] == a + init;
      assert (a + b)[|a + b| - 1] == b[|b| - 1];
      AllPagesAppend(a, init);
      assert AllPages(a + b) == AllPages(a + init) + b[|b| - 1].pages;
      assert AllPages(b) == AllPages(init) + b[|b| - 1].pages;
    }
  }

  /** Merging loses and adds no page: the merged document has the sum of the page counts. */
  lemma {:induction false} MergedPageCount(docs: seq<Pdf>)
    ensures |AllPages(docs)| == PageCount(docs)
    decreases |docs|
  {
    if |docs| > 0 {
      assert docs == [docs[0]] + docs[1..];
      AllPagesAppend([docs[0]], docs[1..]);
      assert [docs[0]][..0] == [];
      MergedPageCount(docs[1..]);
    }
  }

  /** `_merge_streams(streams)`: every page of every stream, in order. */
  method MergeStreams(streams: seq<Pdf>) returns (merged: Pdf)
    ensures merged.pages == AllPages(streams)
    ensures |merged.pages| == PageCount(streams)
  {
    var pages: seq<Page> := [];
    for k := 0 to |streams|
      invariant pages == AllPages(streams[..k])
    {
      var reader := streams[k];
      for i := 0 to |reader.pages|
        invariant pages == AllPages(streams[..k]) + reader.pages[..i]
      {
        pages := pages + [reader.pages[i]];
      }
      assert reader.pages[..|reader.pages|] == reader.pages;
      assert streams[..k + 1][..k] == streams[..k];
    }
    assert streams[..|streams|] == streams;
    merged := Pdf(pages);
    MergedPageCount(streams);
  }

  /** Merging merged documents gives the same pages as merging everything at once. */
  lemma MergeRegroups(a: seq<Pdf>, b: seq<Pdf>)
    ensures AllPages([Pdf(AllPages(a)), Pdf(AllPages(b))]) == AllPages(a + b)
  {
    AllPagesAppend(a, b);
    var two := [Pdf(AllPages(a)), Pdf(AllPages(b))];
    assert two[..1] == [Pdf(AllPages(a))];
    MergeSingle(Pdf(AllPages(a)));
  }

  /** A single stream comes out with exactly its own pages. */
  lemma MergeSingle(doc: Pdf)
    ensures AllPages([doc]) == doc.pages
  {
    assert [doc][..0] == [];
  }

  /** Two one-page documents merge into a document of two pages, the first one's page first. */
  lemma TwoSinglePageStreams(p: Page, q: Page)
    ensures AllPages([Pdf([p]), Pdf([q])]) == [p, q]
    ensures PageCount([Pdf([p]), Pdf([q])]) == 2
  {
    MergeRegroups([Pdf([p])], [Pdf([q])]);
    MergeSingle(Pdf([p]));
    MergeSingle(Pdf([q]));
    assert [Pdf([p]), Pdf([q])] == [Pdf([p])] + [Pdf([q])];
    AllPagesAppend([Pdf([p])], [Pdf([q])]);
    MergedPageCount([Pdf([p]), Pdf([q])]);
  }
}
